/** CRUDZilla: the facade the HTTP layer calls. Each operation resolves an entity key
    through the reflections registry, finds the repository (and, for a search, the
    filter class and query builder) by naming convention, and delegates.

    Jackson is given as two decoding functions: one that reads a form of a given class
    from its JSON text, and one that reads the properties a filter class declares from
    the parameter map; each answers None where Jackson would raise. `getLabel` of the
    entity classes is given as a function on entity objects. */
module Facade {
  import opened Wrappers
  import opened Text
  import opened Model
  import opened Persistence
  import opened Reflections
  import opened EntityBuilding
  import opened Filter
  import opened QueryBuilder
  import opened Options

  // ---------------------------------------------------------------------------
  // Option lists
  // ---------------------------------------------------------------------------

  /** What one option shows for an entity: its identifier as text, and its label. */
  datatype OptionEntry = OptionEntry(id: string, caption: Option<string>)

  /** The entries of the objects, in order: `getId().toString()` of a null identifier
      raises NullPointerException, which ends the stream. */
  function Entries(heap: map<Ref, EntityObj>, refs: seq<Ref>, labelOf: EntityObj -> Option<string>)
    : (r: Result<seq<OptionEntry>>)
    requires forall i :: 0 <= i < |refs| ==> refs[i] in heap
    ensures r.Ok? <==> forall i :: 0 <= i < |refs| ==> heap[refs[i]].id.Some?
    ensures r.Err? ==> r.error == NullPointer
    ensures r.Ok? ==> |r.value| == |refs|
    ensures r.Ok? ==> forall i :: 0 <= i < |refs| ==>
      r.value[i] == OptionEntry(IntToString(heap[refs[i]].id.value), labelOf(heap[refs[i]]))
  {
    if |refs| == 0 then Ok([])
    else
      var o := heap[refs[0]];
      if o.id.None? then Err(NullPointer)
      else
        var rest := Entries(heap, refs[1..], labelOf);
        if rest.Err? then rest
        else
          assert forall i :: 1 <= i < |refs| ==> refs[i] == refs[1..][i - 1];
          Ok([OptionEntry(IntToString(o.id.value), labelOf(o))] + rest.value)
  }

  /** Every identifier an option list shows converts back, through the repository's
      `convertId`, to the identifier of the object it stands for. */
  lemma EntryIdsConvertBack(repo: RepositoryJpa, heap: map<Ref, EntityObj>, refs: seq<Ref>,
                            labelOf: EntityObj -> Option<string>)
    requires forall i :: 0 <= i < |refs| ==> refs[i] in heap
    requires forall i :: 0 <= i < |refs| ==>
      heap[refs[i]].id.Some? && MinInt32 <= heap[refs[i]].id.value <= MaxInt32
    ensures Entries(heap, refs, labelOf).Ok?
    ensures forall i :: 0 <= i < |refs| ==>
      repo.ConvertId(Entries(heap, refs, labelOf).value[i].id) == Ok(heap[refs[i]].id.value)
  {
    forall i | 0 <= i < |refs|
      ensures repo.ConvertId(Entries(heap, refs, labelOf).value[i].id) == Ok(heap[refs[i]].id.value)
    {
      ConvertIdRoundTrip(repo, heap[refs[i]].id.value);
    }
  }

  /** The autocomplete options show the entries, in order. */
  predicate ShowsAutocomplete(opts: seq<AutocompleteOption>, entries: seq<OptionEntry>)
    reads opts
  {
    |opts| == |entries| &&
    forall i :: 0 <= i < |opts| ==> opts[i].id == Some(entries[i].id) && opts[i].name == entries[i].caption
  }

  /** The multiselect options show the entries, in order. */
  predicate ShowsMultiselect(opts: seq<MultiselectOption>, entries: seq<OptionEntry>)
    reads opts
  {
    |opts| == |entries| &&
    forall i :: 0 <= i < |opts| ==> opts[i].id == Some(entries[i].id) && opts[i].value == entries[i].caption
  }

  /** One `new AutocompleteOption(id, label)` per entry. */
  method AutocompleteOptions(entries: seq<OptionEntry>) returns (opts: seq<AutocompleteOption>)
    ensures ShowsAutocomplete(opts, entries)
    ensures forall i :: 0 <= i < |opts| ==> fresh(opts[i])
  {
    opts := [];
    for i := 0 to |entries|
      invariant |opts| == i
      invariant forall j :: 0 <= j < i ==> fresh(opts[j])
      invariant forall j :: 0 <= j < i ==> opts[j].id == Some(entries[j].id) && opts[j].name == entries[j].caption
    {
      var o := new AutocompleteOption(Some(entries[i].id), entries[i].caption);
      opts := opts + [o];
    }
  }

  /** One `new MultiselectOption(id, label)` per entry. */
  method MultiselectOptions(entries: seq<OptionEntry>) returns (opts: seq<MultiselectOption>)
    ensures ShowsMultiselect(opts, entries)
    ensures forall i :: 0 <= i < |opts| ==> fresh(opts[i])
  {
    opts := [];
    for i := 0 to |entries|
      invariant |opts| == i
      invariant forall j :: 0 <= j < i ==> fresh(opts[j])
      invariant forall j :: 0 <= j < i ==> opts[j].id == Some(entries[j].id) && opts[j].value == entries[j].caption
    {
      var o := new MultiselectOption(Some(entries[i].id), entries[i].caption);
      opts := opts + [o];
    }
  }

  /** getTypes: one SelectOption per enum constant, in declaration order, its value the
      constant's id and its text the description. `getEnumConstants` of a class that is
      not an enum is null, and streaming it raises NullPointerException. */
  method GetTypes(decl: ClassDecl) returns (r: Result<seq<SelectOption>>)
    ensures r.Err? <==> !decl.isEnum
    ensures r.Err? ==> r.error == NullPointer
    ensures r.Ok? ==> |r.value| == |decl.enumConstants|
    ensures r.Ok? ==> forall i :: 0 <= i < |r.value| ==>
      fresh(r.value[i]) &&
      r.value[i].value == Some(decl.enumConstants[i].id) && r.value[i].text == Some(decl.enumConstants[i].descricao)
  {
    if !decl.isEnum {
      return Err(NullPointer);
    }
    var opts: seq<SelectOption> := [];
    for i := 0 to |decl.enumConstants|
      invariant |opts| == i
      invariant forall j :: 0 <= j < i ==>
        fresh(opts[j]) &&
        opts[j].value == Some(decl.enumConstants[j].id) && opts[j].text == Some(decl.enumConstants[j].descricao)
    {
      var o := new SelectOption(Some(decl.enumConstants[i].id), Some(decl.enumConstants[i].descricao));
      opts := opts + [o];
    }
    r := Ok(opts);
  }

  /** getTypesAsMultiselect: the same pairs as getTypes, as MultiselectOptions. */
  method GetTypesAsMultiselect(decl: ClassDecl) returns (r: Result<seq<MultiselectOption>>)
    ensures r.Err? <==> !decl.isEnum
    ensures r.Err? ==> r.error == NullPointer
    ensures r.Ok? ==> |r.value| == |decl.enumConstants|
    ensures r.Ok? ==> forall i :: 0 <= i < |r.value| ==>
      fresh(r.value[i]) &&
      r.value[i].id == Some(decl.enumConstants[i].id) && r.value[i].value == Some(decl.enumConstants[i].descricao)
  {
    if !decl.isEnum {
      return Err(NullPointer);
    }
    var opts: seq<MultiselectOption> := [];
    for i := 0 to |decl.enumConstants|
      invariant |opts| == i
      invariant forall j :: 0 <= j < i ==>
        fresh(opts[j]) &&
        opts[j].id == Some(decl.enumConstants[j].id) && opts[j].value == Some(decl.enumConstants[j].descricao)
    {
      var o := new MultiselectOption(Some(decl.enumConstants[i].id), Some(decl.enumConstants[i].descricao));
      opts := opts + [o];
    }
    r := Ok(opts);
  }

  // ---------------------------------------------------------------------------
  // Search filters
  // ---------------------------------------------------------------------------

  /** What Jackson reads from a search's parameter map for a filter class: each of the
      inherited paging and sorting properties when the map holds it, and the values of
      the filter class's own fields. */
  datatype FilterParams = FilterParams(
    direcaoOrdenacao: Option<Option<Order>>,
    colunaOrdenacao: Option<Option<string>>,
    tamanhoPagina: Option<Int32>,
    offset: Option<Int32>,
    ownFields: seq<Option<Datum>>)

  /** The filter Jackson builds: the no-argument constructor's defaults, then the setter
      of each property the parameters hold. The page size goes through its clamping setter. */
  function DecodedFilter(filterClass: ClassName, p: FilterParams): FilterState
  {
    FilterState(
      filterClass,
      p.direcaoOrdenacao.GetOr(Some(Asc)),
      p.colunaOrdenacao.GetOr(Some("")),
      if p.tamanhoPagina.None? then DefaultPageSize
      else if p.tamanhoPagina.value <= MaxPageSize then p.tamanhoPagina.value
      else MaxPageSize,
      p.offset.GetOr(0),
      p.ownFields)
  }

  /** A decoded filter never pages more than 100 rows at a time: a query with no limit of
      its own is limited to the requested size capped at 100, to 15 when no size was
      given, and left unlimited only for a negative size. */
  lemma DecodedFilterPageBounded(filterClass: ClassName, p: FilterParams, s: QueryState)
    requires s.limit.None?
    ensures Paged(s, DecodedFilter(filterClass, p)).limit.Some? ==> Paged(s, DecodedFilter(filterClass, p)).limit.value <= 100
    ensures p.tamanhoPagina.None? ==> Paged(s, DecodedFilter(filterClass, p)).limit == Some(15)
    ensures p.tamanhoPagina.Some? && p.tamanhoPagina.value > 100 ==> Paged(s, DecodedFilter(filterClass, p)).limit == Some(100)
    ensures Paged(s, DecodedFilter(filterClass, p)).limit.None? <==> p.tamanhoPagina.Some? && p.tamanhoPagina.value < 0
  {
    PagedLimitAtMostMax(s, DecodedFilter(filterClass, p));
  }

  /** Jackson's binding of the parameters onto a new filter object. */
  method BindFilter(filterClass: ClassName, p: FilterParams) returns (f: CRUDZillaFilter)
    ensures fresh(f) && f.Valid()
    ensures f.State() == DecodedFilter(filterClass, p)
  {
    f := new CRUDZillaFilter(filterClass, p.ownFields);
    if p.direcaoOrdenacao.Some? {
      f.SetDirecaoOrdenacao(p.direcaoOrdenacao.value);
    }
    if p.colunaOrdenacao.Some? {
      f.SetColunaOrdenacao(p.colunaOrdenacao.value);
    }
    if p.tamanhoPagina.Some? {
      f.SetTamanhoPagina(p.tamanhoPagina.value);
    }
    if p.offset.Some? {
      f.SetOffset(p.offset.value);
    }
  }

  // ---------------------------------------------------------------------------
  // Projections
  // ---------------------------------------------------------------------------

  /** The position of the first declared method with the name and no parameters. */
  function FirstProjection(methods: seq<RepoMethod>, name: string): (r: Option<nat>)
    ensures r.None? <==> forall i :: 0 <= i < |methods| ==> !(methods[i].name == name && methods[i].parameterCount == 0)
    ensures r.Some? ==> r.value < |methods| && methods[r.value].name == name && methods[r.value].parameterCount == 0
    ensures r.Some? ==> forall i :: 0 <= i < r.value ==> !(methods[i].name == name && methods[i].parameterCount == 0)
  {
    if |methods| == 0 then None
    else if methods[0].name == name && methods[0].parameterCount == 0 then Some(0)
    else
      var rest := FirstProjection(methods[1..], name);
      assert forall i :: 1 <= i < |methods| ==> methods[i] == methods[1..][i - 1];
      if rest.None? then None else Some(rest.value + 1)
  }

  /** The loop of getProjection on values: the first method with the name and no
      parameters is invoked and its value returned; an invocation that fails, or no such
      method, raises CRUDZillaProjectionNotFound. */
  function ProjectionOutcome(methods: seq<RepoMethod>, name: string): Result<string>
  {
    if |methods| == 0 then Err(ProjectionNotFound)
    else if methods[0].name == name && methods[0].parameterCount == 0 then
      if methods[0].outcome.Ok? then methods[0].outcome else Err(ProjectionNotFound)
    else ProjectionOutcome(methods[1..], name)
  }

  /** A projection succeeds exactly when the first method with the name and no
      parameters can be invoked, and then answers what that method returns; later
      overloads are never tried. */
  lemma {:induction false} ProjectionOfFirstMatch(methods: seq<RepoMethod>, name: string)
    ensures ProjectionOutcome(methods, name).Ok? <==>
      FirstProjection(methods, name).Some? && methods[FirstProjection(methods, name).value].outcome.Ok?
    ensures ProjectionOutcome(methods, name).Ok? ==>
      ProjectionOutcome(methods, name) == methods[FirstProjection(methods, name).value].outcome
    ensures ProjectionOutcome(methods, name).Err? ==> ProjectionOutcome(methods, name).error == ProjectionNotFound
  {
    if |methods| > 0 && !(methods[0].name == name && methods[0].parameterCount == 0) {
      ProjectionOfFirstMatch(methods[1..], name);
      assert forall i :: 1 <= i < |methods| ==> methods[i] == methods[1..][i - 1];
    }
  }

  /** getProjection's loop over the declared methods. */
  method InvokeProjection(methods: seq<RepoMethod>, name: string) returns (r: Result<string>)
    ensures r == ProjectionOutcome(methods, name)
  {
    for i := 0 to |methods|
      invariant ProjectionOutcome(methods, name) == ProjectionOutcome(methods[i..], name)
    {
      assert methods[i..][1..] == methods[i + 1..];
      if methods[i].name == name && methods[i].parameterCount == 0 {
        if methods[i].outcome.Err? {
          return Err(ProjectionNotFound);
        }
        return methods[i].outcome;
      }
    }
    r := Err(ProjectionNotFound);
  }

  // ---------------------------------------------------------------------------
  // Toggling the active flag
  // ---------------------------------------------------------------------------

  /** The object after `setActive(!isActive())`. */
  function Toggled(decl: ClassDecl, e: EntityObj): EntityObj
  {
    SetActive(decl, e, !IsActive(decl, e))
  }

  /** Toggling flips the flag of a class that overrides isActive/setActive, and toggling
      twice restores the object; a class keeping the interface defaults stays active and
      unchanged. */
  lemma ToggleFlipsAndReverts(decl: ClassDecl, e: EntityObj)
    ensures decl.overridesActive ==> IsActive(decl, Toggled(decl, e)) == !IsActive(decl, e)
    ensures decl.overridesActive ==> Toggled(decl, Toggled(decl, e)) == e
    ensures !decl.overridesActive ==> Toggled(decl, e) == e && IsActive(decl, Toggled(decl, e))
    ensures Toggled(decl, e).cls == e.cls && Toggled(decl, e).id == e.id && Toggled(decl, e).fields == e.fields
  {
  }

  // ---------------------------------------------------------------------------
  // The facade
  // ---------------------------------------------------------------------------

  class CRUDZilla {
    const refl: EntityReflections
    const builder: EntityBuilder
    /** mapper.readValue(text, formClass). */
    const readForm: (string, ClassName) -> Option<Form>
    /** mapper.readValue(mapper.writeValueAsString(params), filterClass). */
    const readFilter: (map<string, string>, ClassName) -> Option<FilterParams>
    /** CRUDZillaEntity.getLabel. */
    const labelOf: EntityObj -> Option<string>

    constructor (refl: EntityReflections, builder: EntityBuilder,
                 readForm: (string, ClassName) -> Option<Form>,
                 readFilter: (map<string, string>, ClassName) -> Option<FilterParams>,
                 labelOf: EntityObj -> Option<string>)
      ensures this.refl == refl && this.builder == builder
      ensures this.readForm == readForm && this.readFilter == readFilter && this.labelOf == labelOf
    {
      this.refl := refl;
      this.builder := builder;
      this.readForm := readForm;
      this.readFilter := readFilter;
      this.labelOf := labelOf;
    }

    /** The builder uses the same registry, every repository the one entity manager,
        and the persistence context is consistent. */
    ghost predicate Ready()
      reads builder.em
    {
      builder.refl == refl && builder.Wired() && builder.em.Valid()
    }

    /** The repository and parsed identifier an operation on `(key, idString)` works on:
        an unknown key, a missing repository and an unparsable identifier fail in that order. */
    function Target(key: string, idString: string): (r: Result<(RepositoryJpa, Int32)>)
      ensures key !in refl.entitiesMap ==> r == Err(KeyNotFound)
      ensures key in refl.entitiesMap && refl.GetRepository(refl.entitiesMap[key]).Err? ==>
        r == Err(refl.GetRepository(refl.entitiesMap[key]).error)
      ensures key in refl.entitiesMap && refl.GetRepository(refl.entitiesMap[key]).Ok? ==>
        (r.Ok? <==> refl.GetRepository(refl.entitiesMap[key]).value.ConvertId(idString).Ok?)
      ensures r.Ok? ==>
        && key in refl.entitiesMap
        && refl.GetRepository(refl.entitiesMap[key]) == Ok(r.value.0)
        && r.value.1 == NumeralValue(idString)
      ensures r.Err? ==> r.error in {KeyNotFound, NoSuchBean, NumberFormat}
    {
      var c :- refl.GetEntityClass(key);
      var repo :- refl.GetRepository(c);
      var id :- repo.ConvertId(idString);
      Ok((repo, id))
    }

    /** The decoded form `save(key, formString)` binds: the entity class must be registered,
        its form class must exist, and the text must decode into it. */
    function DecodedForm(key: string, formString: string): (r: Result<(ClassDecl, Form)>)
      ensures key !in refl.entitiesMap ==> r == Err(KeyNotFound)
      ensures key in refl.entitiesMap && refl.GetFormClass(refl.entitiesMap[key]).Err? ==> r == Err(FormNotFound)
      ensures key in refl.entitiesMap && refl.GetFormClass(refl.entitiesMap[key]).Ok? ==>
        r == (match readForm(formString, refl.FormClassName(refl.entitiesMap[key]))
              case None => Err(DecodeFailed)
              case Some(form) => Ok((refl.entitiesMap[key], form)))
    {
      var c :- refl.GetEntityClass(key);
      var formClass :- refl.GetFormClass(c);
      match readForm(formString, formClass)
      case None => Err(DecodeFailed)
      case Some(form) => Ok((c, form))
    }

    /** save(key, formString): decode the form and save it with no hook, persisting it. */
    method SaveFromString(key: string, formString: string) returns (r: Result<Ref>)
      requires Ready()
      modifies builder.em
      ensures builder.em.Valid()
      ensures DecodedForm(key, formString).Err? ==>
        r == Err(DecodedForm(key, formString).error) && unchanged(builder.em)
      ensures r.Ok? ==> DecodedForm(key, formString).Ok? && builder.em.IsManaged(r.value)
      ensures r.Ok? && DecodedForm(key, formString).value.1.id.None? ==>
        r.value !in old(builder.em.heap) && builder.em.heap[r.value].cls == DecodedForm(key, formString).value.0.Name()
      ensures r.Ok? && DecodedForm(key, formString).value.1.id.Some? ==>
        var c := DecodedForm(key, formString).value.0;
        var id := DecodedForm(key, formString).value.1.id.value;
        && refl.GetRepository(c).Ok?
        && id in old(refl.GetRepository(c).value.Table())
        && r.value == old(refl.GetRepository(c).value.Table())[id]
    {
      var decoded := DecodedForm(key, formString);
      if decoded.Err? {
        return Err(decoded.error);
      }
      var (c, form) := decoded.value;
      ghost var e, heaps, built;
      r, e, heaps, built := builder.Save(c, form, NoHook, false);
    }

    /** delete(key, idString): the stored object of the identifier leaves its table. */
    method Delete(key: string, idString: string) returns (r: Result<()>)
      requires Ready()
      modifies builder.em
      ensures builder.em.Valid()
      ensures builder.em.heap == old(builder.em.heap)
      ensures Target(key, idString).Err? ==> r == Err(Target(key, idString).error) && unchanged(builder.em)
      ensures Target(key, idString).Ok? ==>
        var (repo, id) := Target(key, idString).value;
        && (r.Ok? <==> old(id in repo.Table()))
        && (r.Ok? ==> builder.em.rows == old(builder.em.rows)[repo.entityClass.Name() := old(repo.Table()) - {id}])
        && (r.Err? ==> r.error == EntityNotFound && builder.em.rows == old(builder.em.rows))
    {
      var target := Target(key, idString);
      if target.Err? {
        return Err(target.error);
      }
      var (repo, id) := target.value;
      builder.RepositoryWired(refl.entitiesMap[key]);
      r := repo.RemoveById(id);
    }

    /** getById(key, idString): the stored object of the identifier. */
    method GetById(key: string, idString: string) returns (r: Result<Ref>)
      requires Ready()
      ensures Target(key, idString).Err? ==> r == Err(Target(key, idString).error)
      ensures Target(key, idString).Ok? ==>
        var (repo, id) := Target(key, idString).value;
        && (r.Ok? <==> id in repo.Table())
        && (r.Ok? ==> r.value == repo.Table()[id] && builder.em.heap[r.value].id == Some(id))
        && (r.Err? ==> r.error == EntityNotFound)
    {
      var target := Target(key, idString);
      if target.Err? {
        return Err(target.error);
      }
      var (repo, id) := target.value;
      builder.RepositoryWired(refl.entitiesMap[key]);
      r := repo.GetEagerLoaded(id);
    }

    /** The repository getAll reads, or why there is none: an unknown key, a class that
        is not enabled, a class with getAll disabled (EntityNotFoundException, before the
        repository is looked up), or a missing repository. */
    function GetAllSource(key: string): (r: Result<RepositoryJpa>)
      ensures key !in refl.entitiesMap ==> r == Err(KeyNotFound)
      ensures key in refl.entitiesMap && IsGetAllDisabled(refl.entitiesMap[key]).Err? ==> r == Err(NotImplemented)
      ensures key in refl.entitiesMap && IsGetAllDisabled(refl.entitiesMap[key]) == Ok(true) ==> r == Err(EntityNotFound)
      ensures key in refl.entitiesMap && IsGetAllDisabled(refl.entitiesMap[key]) == Ok(false) ==>
        r == refl.GetRepository(refl.entitiesMap[key])
    {
      var c :- refl.GetEntityClass(key);
      var disabled :- IsGetAllDisabled(c);
      if disabled then Err(EntityNotFound) else refl.GetRepository(c)
    }

    /** getAll(key): every stored object of the class, each once. */
    method GetAll(key: string) returns (r: Result<seq<Ref>>)
      requires Ready()
      ensures GetAllSource(key).Err? ==> r == Err(GetAllSource(key).error)
      ensures GetAllSource(key).Ok? ==>
        var repo := GetAllSource(key).value;
        && (r.Err? <==> repo.GetQEntity().Err?)
        && (r.Err? ==> r.error == EntityNotMapped)
        && (r.Ok? ==> forall x :: x in r.value <==> x in repo.Table().Values)
        && (r.Ok? ==> |r.value| == |repo.Table()|)
      ensures r.Ok? ==> forall i, j :: 0 <= i < j < |r.value| ==> r.value[i] != r.value[j]
      ensures r.Ok? ==> forall i :: 0 <= i < |r.value| ==> r.value[i] in builder.em.heap
    {
      var source := GetAllSource(key);
      if source.Err? {
        return Err(source.error);
      }
      var repo := source.value;
      builder.RepositoryWired(refl.entitiesMap[key]);
      r := repo.GetAll();
      if r.Ok? {
        TableValuesInHeap(builder.em, repo.entityClass.Name(), r.value);
      }
    }

    /** getAllMultiselect(key): one option per stored object, showing its identifier and
        label; `refs` are the objects in the order of the options. */
    method GetAllMultiselect(key: string) returns (r: Result<seq<MultiselectOption>>, ghost refs: seq<Ref>)
      requires Ready()
      ensures GetAllSource(key).Err? ==> r == Err(GetAllSource(key).error)
      ensures r.Ok? ==>
        && GetAllSource(key).Ok?
        && (forall x :: x in refs <==> x in GetAllSource(key).value.Table().Values)
        && |refs| == |GetAllSource(key).value.Table()|
        && (forall i :: 0 <= i < |refs| ==> refs[i] in builder.em.heap)
        && Entries(builder.em.heap, refs, labelOf).Ok?
        && ShowsMultiselect(r.value, Entries(builder.em.heap, refs, labelOf).value)
    {
      refs := [];
      var all := GetAll(key);
      if all.Err? {
        return Err(all.error), refs;
      }
      refs := all.value;
      var entries := Entries(builder.em.heap, all.value, labelOf);
      if entries.Err? {
        return Err(entries.error), refs;
      }
      var opts := MultiselectOptions(entries.value);
      r := Ok(opts);
    }

    /** getAutocompleteByTerm(key, termo): the options of the repository's term query. */
    method GetAutocompleteByTerm(key: string, termo: string) returns (r: Result<seq<AutocompleteOption>>)
      requires Ready()
      ensures refl.GetRepositoryByKey(key).Err? ==> r == Err(refl.GetRepositoryByKey(key).error)
      ensures refl.GetRepositoryByKey(key).Ok? && refl.GetRepositoryByKey(key).value.GetByTerm(termo).Err? ==> r == Err(NotImplemented)
      ensures refl.GetRepositoryByKey(key).Ok? && refl.GetRepositoryByKey(key).value.GetByTerm(termo).Ok? ==>
        var found := refl.GetRepositoryByKey(key).value.GetByTerm(termo).value;
        && (forall i :: 0 <= i < |found| ==> found[i] in builder.em.heap)
        && (r.Ok? <==> Entries(builder.em.heap, found, labelOf).Ok?)
        && (r.Ok? ==> ShowsAutocomplete(r.value, Entries(builder.em.heap, found, labelOf).value))
        && (r.Err? ==> r.error == NullPointer)
    {
      var repo :- refl.GetRepositoryByKey(key);
      builder.RepositoryWired(refl.entitiesMap[key]);
      var found :- repo.GetByTerm(termo);
      TableValuesInHeap(builder.em, repo.entityClass.Name(), found);
      var entries :- Entries(builder.em.heap, found, labelOf);
      var opts := AutocompleteOptions(entries);
      r := Ok(opts);
    }

    /** getAutocompleteByTermActive(key, termo): the options of the active-only term query. */
    method GetAutocompleteByTermActive(key: string, termo: string) returns (r: Result<seq<AutocompleteOption>>)
      requires Ready()
      ensures refl.GetRepositoryByKey(key).Err? ==> r == Err(refl.GetRepositoryByKey(key).error)
      ensures refl.GetRepositoryByKey(key).Ok? && refl.GetRepositoryByKey(key).value.GetByTermActive(termo).Err? ==> r == Err(NotImplemented)
      ensures refl.GetRepositoryByKey(key).Ok? && refl.GetRepositoryByKey(key).value.GetByTermActive(termo).Ok? ==>
        var found := refl.GetRepositoryByKey(key).value.GetByTermActive(termo).value;
        && (forall i :: 0 <= i < |found| ==> found[i] in builder.em.heap)
        && (r.Ok? <==> Entries(builder.em.heap, found, labelOf).Ok?)
        && (r.Ok? ==> ShowsAutocomplete(r.value, Entries(builder.em.heap, found, labelOf).value))
        && (r.Err? ==> r.error == NullPointer)
    {
      var repo :- refl.GetRepositoryByKey(key);
      builder.RepositoryWired(refl.entitiesMap[key]);
      var found :- repo.GetByTermActive(termo);
      TableValuesInHeap(builder.em, repo.entityClass.Name(), found);
      var entries :- Entries(builder.em.heap, found, labelOf);
      var opts := AutocompleteOptions(entries);
      r := Ok(opts);
    }

    /** getAutocompleteByIds(key, idsString): every identifier text is converted first
        (the first unparsable one raises NumberFormatException), then the repository's
        identifier query answers. */
    method GetAutocompleteByIds(key: string, idsString: seq<string>) returns (r: Result<seq<AutocompleteOption>>)
      requires Ready()
      ensures refl.GetRepositoryByKey(key).Err? ==> r == Err(refl.GetRepositoryByKey(key).error)
      ensures refl.GetRepositoryByKey(key).Ok? && ConvertIds(refl.GetRepositoryByKey(key).value, idsString).Err? ==> r == Err(NumberFormat)
      ensures refl.GetRepositoryByKey(key).Ok? && ConvertIds(refl.GetRepositoryByKey(key).value, idsString).Ok? ==>
        var repo := refl.GetRepositoryByKey(key).value;
        var ids := ConvertIds(repo, idsString).value;
        && (repo.GetByIds(ids).Err? ==> r == Err(NotImplemented))
        && (repo.GetByIds(ids).Ok? ==>
              && (forall i :: 0 <= i < |repo.GetByIds(ids).value| ==> repo.GetByIds(ids).value[i] in builder.em.heap)
              && (r.Ok? <==> Entries(builder.em.heap, repo.GetByIds(ids).value, labelOf).Ok?)
              && (r.Ok? ==> ShowsAutocomplete(r.value, Entries(builder.em.heap, repo.GetByIds(ids).value, labelOf).value)))
    {
      var repo :- refl.GetRepositoryByKey(key);
      builder.RepositoryWired(refl.entitiesMap[key]);
      var ids :- ConvertIds(repo, idsString);
      var found :- repo.GetByIds(ids);
      TableValuesInHeap(builder.em, repo.entityClass.Name(), found);
      var entries :- Entries(builder.em.heap, found, labelOf);
      var opts := AutocompleteOptions(entries);
      r := Ok(opts);
    }

    /** The filter class, query builder and bound filter a search works with. */
    function SearchSetup(key: string, params: map<string, string>): (r: Result<(QueryBuilder<Row>, FilterState)>)
      ensures refl.GetFilterClassFromKey(key).Err? ==> r == Err(refl.GetFilterClassFromKey(key).error)
      ensures refl.GetFilterClassFromKey(key).Ok? ==>
        var filterClass := refl.GetFilterClassFromKey(key).value;
        && (refl.GetQueryBuilder(filterClass).Err? ==> r == Err(NoSuchBean))
        && (refl.GetQueryBuilder(filterClass).Ok? && readFilter(params, filterClass).None? ==> r == Err(DecodeFailed))
        && (refl.GetQueryBuilder(filterClass).Ok? && readFilter(params, filterClass).Some? ==>
              r == Ok((refl.GetQueryBuilder(filterClass).value, DecodedFilter(filterClass, readFilter(params, filterClass).value))))
    {
      var filterClass :- refl.GetFilterClassFromKey(key);
      var qb :- refl.GetQueryBuilder(filterClass);
      match readFilter(params, filterClass)
      case None => Err(DecodeFailed)
      case Some(p) => Ok((qb, DecodedFilter(filterClass, p)))
    }

    /** search(key, params): the query builder's result for the bound filter. */
    method Search(key: string, params: map<string, string>) returns (r: Result<QueryResult<Row>>)
      ensures SearchSetup(key, params).Err? ==> r == Err(SearchSetup(key, params).error)
      ensures SearchSetup(key, params).Ok? ==>
        r == Ok(BuildResult(SearchSetup(key, params).value.0, SearchSetup(key, params).value.1))
      ensures r.Ok? ==> SearchSetup(key, params).value.1.tamanhoPagina <= MaxPageSize
    {
      var filterClass :- refl.GetFilterClassFromKey(key);
      var qb :- refl.GetQueryBuilder(filterClass);
      var decoded := readFilter(params, filterClass);
      if decoded.None? {
        return Err(DecodeFailed);
      }
      var filter := BindFilter(filterClass, decoded.value);
      var result := Build(qb, filter);
      r := Ok(result);
    }

    /** getProjection(key, projection, params): the parameters are not used. */
    method GetProjection(key: string, projection: string, params: string) returns (r: Result<string>)
      ensures refl.GetRepositoryByKey(key).Err? ==> r == Err(refl.GetRepositoryByKey(key).error)
      ensures refl.GetRepositoryByKey(key).Ok? ==> r == ProjectionOutcome(refl.GetRepositoryByKey(key).value.declaredMethods, projection)
    {
      var repo :- refl.GetRepositoryByKey(key);
      r := InvokeProjection(repo.declaredMethods, projection);
    }

    /** toggleActive(key, idString): flip the active flag of the stored object and put it.
        Validation sees the flipped object; a rejected object keeps its flipped flag in
        the persistence context. */
    method ToggleActive(key: string, idString: string) returns (r: Result<()>)
      requires Ready()
      modifies builder.em
      ensures builder.em.Valid()
      ensures builder.em.rows == old(builder.em.rows)
      ensures Target(key, idString).Err? ==> r == Err(Target(key, idString).error) && unchanged(builder.em)
      ensures Target(key, idString).Ok? && Target(key, idString).value.1 !in old(Target(key, idString).value.0.Table()) ==>
        r == Err(EntityNotFound) && unchanged(builder.em)
      ensures Target(key, idString).Ok? && Target(key, idString).value.1 in old(Target(key, idString).value.0.Table()) ==>
        var (repo, id) := Target(key, idString).value;
        var x := old(repo.Table()[id]);
        && builder.em.heap == old(builder.em.heap)[x := Toggled(repo.entityClass, old(builder.em.heap[x]))]
        && (r.Err? <==> |repo.validator(Toggled(repo.entityClass, old(builder.em.heap[x])))| > 0)
    {
      var target := Target(key, idString);
      if target.Err? {
        return Err(target.error);
      }
      var (repo, id) := target.value;
      builder.RepositoryWired(refl.entitiesMap[key]);
      var found := repo.GetEagerLoaded(id);
      if found.Err? {
        return Err(found.error);
      }
      var x := found.value;
      var flipped := Toggled(repo.entityClass, builder.em.heap[x]);
      builder.em.Write(x, flipped);
      assert builder.em.IsManaged(x);
      var put := repo.Put(x);
      if put.Err? {
        return Err(put.error);
      }
      r := Ok(());
    }
  }

  /** getAutocompleteByIds' conversion of the identifier texts, stopping at the first
      that does not parse. */
  function ConvertIds(repo: RepositoryJpa, idsString: seq<string>): (r: Result<seq<int>>)
    ensures r.Ok? <==> forall i :: 0 <= i < |idsString| ==> repo.ConvertId(idsString[i]).Ok?
    ensures r.Err? ==> r.error == NumberFormat
    ensures r.Ok? ==> |r.value| == |idsString|
    ensures r.Ok? ==> forall i :: 0 <= i < |idsString| ==> r.value[i] == repo.ConvertId(idsString[i]).value
  {
    if |idsString| == 0 then Ok([])
    else
      var id :- repo.ConvertId(idsString[0]);
      var rest := ConvertIds(repo, idsString[1..]);
      if rest.Err? then Err(NumberFormat)
      else
        assert forall i :: 1 <= i < |idsString| ==> idsString[i] == idsString[1..][i - 1];
        Ok([id] + rest.value)
  }

  /** The objects a repository's table names are in the heap. */
  lemma TableValuesInHeap(em: EntityManager, c: ClassName, refs: seq<Ref>)
    requires em.Valid() && forall x :: x in refs ==> x in em.Table(c).Values
    ensures forall i :: 0 <= i < |refs| ==> refs[i] in em.heap
  {
    forall i | 0 <= i < |refs|
      ensures refs[i] in em.heap
    {
      ValueHasKey(em.Table(c), refs[i]);
      var k :| k in em.Table(c) && em.Table(c)[k] == refs[i];
      StoredRow(em, c, k);
    }
  }
}
