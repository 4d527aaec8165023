/** EntityBuilder and the save flow of CRUDZilla: a decoded form is bound onto an entity
    object in place, field by field, with one strategy per relationship kind, and the
    entity is then stored through its repository.

    `save(entityClass, form, hook, skipPersist)` and `buildNew` call each other (the
    children of a one-to-many field are saved through `save`), so both live in this
    module; the facade module calls `Save` from here. The recursion descends into the
    sub-forms of the form, which is what bounds it.

    Reflection on classes is given as data: the entity classes `Class.forName` can load,
    with their declared fields and annotations. Every builder bean behaves as the
    default builder. */
module EntityBuilding {
  import opened Wrappers
  import opened Text
  import opened Model
  import opened Persistence
  import opened Reflections

  /** The relationship strategy buildNew applies to a declared field. */
  datatype Strategy =
    | ManyToManyField
    | OneToManyField(mappedBy: string)
    | ManyToOneField
    | ElementCollectionField
    | SimpleField

  /** The field carries one of the four relationship annotations. */
  predicate Annotated(f: FieldDecl) {
    f.manyToMany || f.oneToMany.Some? || f.manyToOne || f.elementCollection
  }

  /** At most one strategy per field, by priority: ManyToMany, OneToMany, ManyToOne,
      ElementCollection; a field without any of them is left to the simple copy. */
  function StrategyOf(f: FieldDecl): (r: Strategy)
    ensures r.SimpleField? <==> !Annotated(f)
    ensures r.ManyToManyField? <==> f.manyToMany
    ensures r.OneToManyField? <==> !f.manyToMany && f.oneToMany.Some?
    ensures r.OneToManyField? ==> r.mappedBy == f.oneToMany.value
    ensures r.ManyToOneField? <==> !f.manyToMany && f.oneToMany.None? && f.manyToOne
    ensures r.ElementCollectionField? <==> !f.manyToMany && f.oneToMany.None? && !f.manyToOne && f.elementCollection
  {
    if f.manyToMany then ManyToManyField
    else if f.oneToMany.Some? then OneToManyField(f.oneToMany.value)
    else if f.manyToOne then ManyToOneField
    else if f.elementCollection then ElementCollectionField
    else SimpleField
  }

  // ---------------------------------------------------------------------------
  // Reflection on forms and entity classes
  // ---------------------------------------------------------------------------

  /** getDeclaredField: the position of the first declared form field with the name. */
  function FormFieldIndex(fields: seq<FormField>, name: string): (r: Option<nat>)
    ensures r.None? <==> forall i :: 0 <= i < |fields| ==> fields[i].name != name
    ensures r.Some? ==> r.value < |fields| && fields[r.value].name == name
    ensures r.Some? ==> forall i :: 0 <= i < r.value ==> fields[i].name != name
    decreases |fields|
  {
    if |fields| == 0 then None
    else if fields[0].name == name then Some(0)
    else
      match FormFieldIndex(fields[1..], name)
      case None => None
      case Some(i) => Some(i + 1)
  }

  /** The declared form field with the name, if any. */
  function FormFieldNamed(form: Form, name: string): (r: Option<FormField>)
    ensures r.None? <==> forall i :: 0 <= i < |form.fields| ==> form.fields[i].name != name
    ensures r.Some? ==> r.value in form.fields && r.value.name == name
  {
    match FormFieldIndex(form.fields, name)
    case None => None
    case Some(i) => Some(form.fields[i])
  }

  /** The first declared entity field with the name, if any. */
  function FieldDeclNamed(fields: seq<FieldDecl>, name: string): (r: Option<FieldDecl>)
    ensures r.None? <==> forall i :: 0 <= i < |fields| ==> fields[i].name != name
    ensures r.Some? ==> r.value in fields && r.value.name == name
    decreases |fields|
  {
    if |fields| == 0 then None
    else if fields[0].name == name then Some(fields[0])
    else FieldDeclNamed(fields[1..], name)
  }

  // ---------------------------------------------------------------------------
  // ModelMapper: the simple-property copy
  // ---------------------------------------------------------------------------

  /** The entity value a simple form value is copied as; sub-forms are not copied. */
  function SimpleValue(v: FormValue): Option<Value> {
    match v
    case FNull => Some(Null)
    case FScalar(s) => Some(Simple(s))
    case FScalars(items) => Some(Scalars(items))
    case FForms(_) => None
  }

  /** The value ModelMapper copies into the entity property `name`: the same-named
      form property, when the entity declares `name` without a relationship annotation. */
  function CopiedValue(decl: ClassDecl, form: Form, name: string): Option<Value> {
    match FieldDeclNamed(decl.fields, name)
    case None => None
    case Some(f) =>
      if !StrategyOf(f).SimpleField? then None
      else
        match FormFieldNamed(form, name)
        case None => None
        case Some(ff) => SimpleValue(ff.value)
  }

  /** modelMapper.map(form, entity): every copyable property takes the form's value;
      every other property keeps its own. */
  function ModelMap(decl: ClassDecl, form: Form, fields: map<string, Value>): (r: map<string, Value>)
    ensures forall n :: n in r <==> n in fields || CopiedValue(decl, form, n).Some?
    ensures forall n :: CopiedValue(decl, form, n).Some? ==> n in r && r[n] == CopiedValue(decl, form, n).value
    ensures forall n :: n in fields && CopiedValue(decl, form, n).None? ==> r[n] == fields[n]
  {
    var names := fields.Keys + (set ff | ff in form.fields :: ff.name);
    map n | n in names && (n in fields || CopiedValue(decl, form, n).Some?) ::
      if CopiedValue(decl, form, n).Some? then CopiedValue(decl, form, n).value else fields[n]
  }

  /** The boolean the form's `active` property holds, when it holds one. */
  function FormActive(form: Form): Option<bool> {
    match FormFieldNamed(form, "active")
    case None => None
    case Some(ff) => if ff.value.FScalar? && ff.value.scalar.Bool? then Some(ff.value.scalar.b) else None
  }

  /** modelMapper.map(form, entity) on the whole object: the properties become what
      ModelMap says, and the form's `active` flag goes through setActive, which the
      interface default ignores. Class and identifier are kept. */
  function MapForm(decl: ClassDecl, form: Form, o: EntityObj): (r: EntityObj)
    ensures r.cls == o.cls && r.id == o.id && r.fields == ModelMap(decl, form, o.fields)
    ensures FormActive(form).Some? ==> IsActive(decl, r) == (FormActive(form).value || !decl.overridesActive)
    ensures FormActive(form).None? ==> IsActive(decl, r) == IsActive(decl, o)
  {
    var mapped := o.(fields := ModelMap(decl, form, o.fields));
    if FormActive(form).Some? then SetActive(decl, mapped, FormActive(form).value) else mapped
  }

  /** A form that declares none of the entity's properties leaves them as they were. */
  lemma ModelMapDisjoint(decl: ClassDecl, form: Form, fields: map<string, Value>)
    requires forall i :: 0 <= i < |form.fields| ==> FieldDeclNamed(decl.fields, form.fields[i].name).None?
    ensures ModelMap(decl, form, fields) == fields
  {
  }

  // ---------------------------------------------------------------------------
  // Form lists
  // ---------------------------------------------------------------------------

  /** The scalars of a form list, as the raw `(Collection)` and `(List)` casts see it: a
      list of scalars, or an empty list whichever kind it was decoded as; None for null, a
      single value, or a non-empty list of sub-forms. */
  function ScalarItems(v: FormValue): (r: Option<seq<Scalar>>)
    ensures r.Some? <==> v.FScalars? || v == FForms([])
    ensures v.FScalars? ==> r == Some(v.items)
    ensures v == FForms([]) ==> r == Some([])
  {
    match v
    case FScalars(items) => Some(items)
    case FForms(forms) => if |forms| == 0 then Some([]) else None
    case _ => None
  }

  /** The sub-forms of a form list, as the raw `(Collection<CRUDZillaForm>)` cast and the
      loop over it see it: a list of sub-forms, or an empty list whichever kind it was
      decoded as; None for null, a single value, or a non-empty list of scalars. */
  function SubForms(v: FormValue): (r: Option<seq<Form>>)
    ensures r.Some? <==> v.FForms? || v == FScalars([])
    ensures v.FForms? ==> r == Some(v.forms)
    ensures v == FScalars([]) ==> r == Some([])
  {
    match v
    case FForms(forms) => Some(forms)
    case FScalars(items) => if |items| == 0 then Some([]) else None
    case _ => None
  }

  /** An empty list is one value to the casts: both views see it the same whichever
      constructor carries it. */
  lemma EmptyListOneValue()
    ensures ScalarItems(FScalars([])) == ScalarItems(FForms([])) == Some([])
    ensures SubForms(FScalars([])) == SubForms(FForms([])) == Some([])
  {
  }

  // ---------------------------------------------------------------------------
  // processFieldElementCollection
  // ---------------------------------------------------------------------------

  /** processFieldElementCollection as written: the entity collection is cleared and
      refilled from the same-named form property. The form property is looked up through
      a property descriptor, which is null when the form has no such property, so a
      missing counterpart raises NullPointerException, which the per-field handler does
      not catch. The outcome is the new value of the entity field, or None to keep it. */
  function ElementCollectionAsWritten(name: string, form: Form, current: Value): (r: Result<Option<Value>>)
    ensures r.Ok? <==>
      && (current.Scalars? || current.Links?)
      && FormFieldNamed(form, name).Some? && ScalarItems(FormFieldNamed(form, name).value.value).Some?
    ensures r.Ok? ==> r.value == Some(Scalars(ScalarItems(FormFieldNamed(form, name).value.value).value))
    ensures r == Err(NullPointer) <==>
      || current.Null?
      || ((current.Scalars? || current.Links?) &&
          (FormFieldNamed(form, name).None? || FormFieldNamed(form, name).value.value.FNull?))
    ensures r.Err? ==> r.error == NullPointer || r.error == ClassCast
  {
    if current.Null? then Err(NullPointer)
    else if !(current.Scalars? || current.Links?) then Err(ClassCast)
    else
      match FormFieldNamed(form, name)
      case None => Err(NullPointer)
      case Some(ff) =>
        if ff.value.FNull? then Err(NullPointer)
        else
          match ScalarItems(ff.value)
          case Some(items) => Ok(Some(Scalars(items)))
          case None => Err(ClassCast)
  }

  /** processFieldElementCollection with a missing counterpart treated as every other
      strategy treats one: the field is skipped. */
  function ElementCollectionOutcome(name: string, form: Form, current: Value): (r: Result<Option<Value>>)
    ensures FormFieldNamed(form, name).None? ==> r == Ok(None)
    ensures FormFieldNamed(form, name).Some? ==> r == ElementCollectionAsWritten(name, form, current)
    ensures r.Ok? && r.value.Some? ==>
      FormFieldNamed(form, name).Some? && ScalarItems(FormFieldNamed(form, name).value.value) == Some(r.value.value.items)
  {
    match FormFieldNamed(form, name)
    case None => Ok(None)
    case Some(_) => ElementCollectionAsWritten(name, form, current)
  }

  /** As written, a form without the counterpart property makes the whole build fail,
      where the corrected strategy leaves the field alone. */
  lemma ElementCollectionMissingCounterpart(name: string, items: seq<Scalar>)
    ensures ElementCollectionAsWritten(name, Form("F", None, []), Scalars(items)) == Err(NullPointer)
    ensures ElementCollectionOutcome(name, Form("F", None, []), Scalars(items)) == Ok(None)
  {
  }

  /** After the strategy the entity collection holds exactly the form's elements. */
  lemma ElementCollectionCopiesElements(name: string, form: Form, current: Value, items: seq<Scalar>)
    requires current.Scalars? || current.Links?
    requires FormFieldNamed(form, name).Some? && ScalarItems(FormFieldNamed(form, name).value.value) == Some(items)
    ensures ElementCollectionOutcome(name, form, current) == Ok(Some(Scalars(items)))
  {
  }

  /** Two states of the heap agree on which objects exist (the later may have more) and
      on the class and identifier of each. */
  ghost predicate KeepsIdentity(h0: map<Ref, EntityObj>, h1: map<Ref, EntityObj>) {
    forall x :: x in h0 ==> x in h1 && h1[x].cls == h0[x].cls && h1[x].id == h0[x].id
  }

  lemma KeepsIdentityTrans(h0: map<Ref, EntityObj>, h1: map<Ref, EntityObj>, h2: map<Ref, EntityObj>)
    requires KeepsIdentity(h0, h1) && KeepsIdentity(h1, h2)
    ensures KeepsIdentity(h0, h2)
  {
  }

  /** A fresh object, built onto, does not disturb the identity of the older objects. */
  lemma KeepsIdentityFresh(h0: map<Ref, EntityObj>, h1: map<Ref, EntityObj>, h2: map<Ref, EntityObj>, e: Ref)
    requires e !in h0 && e in h1 && h1 == h0[e := h1[e]] && KeepsIdentity(h1, h2)
    ensures KeepsIdentity(h0, h2)
  {
  }

  /** Storing a fresh object, which only gives it an identifier, keeps the older ones. */
  lemma KeepsIdentityDrop(h0: map<Ref, EntityObj>, h1: map<Ref, EntityObj>, h2: map<Ref, EntityObj>, e: Ref)
    requires e !in h0 && KeepsIdentity(h0, h1) && KeepsIdentity(h1 - {e}, h2)
    ensures KeepsIdentity(h0, h2)
  {
  }

  /** `child` is what saving the sub-form `sub` produced, seen from heap `h` against the
      heap `h0` before the loop: a new object of class `c`, or the stored object of the
      sub-form's identifier in `table`, the table of the repository of `c` if there is one. */
  ghost predicate SavedAs(sub: Form, child: Ref, h0: map<Ref, EntityObj>, h: map<Ref, EntityObj>,
                          c: ClassName, table: Option<map<int, Ref>>)
  {
    && child in h
    && (sub.id.None? ==> child !in h0 && h[child].cls == c)
    && (sub.id.Some? ==> table.Some? && sub.id.value in table.value && child == table.value[sub.id.value])
  }

  /** The collection property `name` of `e` in `h1` holds, in order, one child for each of
      the first sub-forms, each saved as SavedAs says. */
  ghost predicate HoldsSaved(subs: seq<Form>, e: Ref, name: string, h0: map<Ref, EntityObj>, h1: map<Ref, EntityObj>,
                             c: ClassName, table: Option<map<int, Ref>>)
  {
    && e in h1
    && Property(h1[e], name).Links?
    && |Property(h1[e], name).refs| <= |subs|
    && forall k :: 0 <= k < |Property(h1[e], name).refs| ==>
         SavedAs(subs[k], Property(h1[e], name).refs[k], h0, h1, c, table)
  }

  /** Adding the child saved from the next sub-form keeps the collection as HoldsSaved
      says, through the save (which keeps identities) and the write of the property. */
  lemma HoldsSavedAdd(subs: seq<Form>, e: Ref, name: string, h0: map<Ref, EntityObj>, hm: map<Ref, EntityObj>,
                      h1: map<Ref, EntityObj>, h2: map<Ref, EntityObj>, c: ClassName, table: Option<map<int, Ref>>, child: Ref)
    requires KeepsIdentity(h0, hm) && KeepsIdentity(hm, h1) && KeepsIdentity(h1, h2)
    requires HoldsSaved(subs, e, name, h0, hm, c, table) && |Property(hm[e], name).refs| < |subs|
    requires SavedAs(subs[|Property(hm[e], name).refs|], child, hm, h1, c, table)
    requires e in h2 && Property(h2[e], name) == Links(Property(hm[e], name).refs + [child])
    ensures HoldsSaved(subs, e, name, h0, h2, c, table)
  {
    var before := Property(hm[e], name).refs;
    forall k | 0 <= k < |before| + 1
      ensures SavedAs(subs[k], Property(h2[e], name).refs[k], h0, h2, c, table)
    {
      if k < |before| {
        assert SavedAs(subs[k], before[k], h0, hm, c, table);
      }
    }
  }

  /** The collection property `name` of `e` holds one child per sub-form, in order, each
      saved as SavedAs says. */
  ghost predicate ChildrenSaved(subs: seq<Form>, e: Ref, name: string, h0: map<Ref, EntityObj>, h1: map<Ref, EntityObj>,
                                c: ClassName, table: Option<map<int, Ref>>)
  {
    HoldsSaved(subs, e, name, h0, h1, c, table) && |Property(h1[e], name).refs| == |subs|
  }

  /** The save of a child failed once the children before it were in the collection: the
      heap `hm` the failing save started from held them, and it ended in `h1`. */
  ghost predicate FailedAfter(subs: seq<Form>, e: Ref, name: string, h0: map<Ref, EntityObj>, h1: map<Ref, EntityObj>,
                              c: ClassName, table: Option<map<int, Ref>>)
  {
    exists hm: map<Ref, EntityObj> ::
      && HoldsSaved(subs, e, name, h0, hm, c, table)
      && |Property(hm[e], name).refs| < |subs|
      && KeepsIdentity(hm, h1)
  }

  /** The heap with the property `name` of `e` set to `v`, or unchanged when there is no `v`. */
  function SetProperty(h: map<Ref, EntityObj>, e: Ref, name: string, v: Option<Value>): map<Ref, EntityObj>
    requires e in h
  {
    if v.None? then h else h[e := h[e].(fields := h[e].fields[name := v.value])]
  }

  /** Setting a property twice leaves the second value. */
  lemma SetPropertyTwice(h: map<Ref, EntityObj>, e: Ref, name: string, v: Value, w: Value)
    requires e in h
    ensures e in SetProperty(h, e, name, Some(v))
    ensures SetProperty(SetProperty(h, e, name, Some(v)), e, name, Some(w)) == SetProperty(h, e, name, Some(w))
  {
    assert h[e].fields[name := v][name := w] == h[e].fields[name := w];
  }

  /** The value an entity's getter returns: a property never set reads as null. */
  function Property(o: EntityObj, name: string): Value {
    if name in o.fields then o.fields[name] else Null
  }

  /** A strategy with outcome `o` took the heap from `h0` to `h1` with result `r`: it
      failed exactly when the outcome is an error, changing nothing, and otherwise set the
      property `name` of `e` to the outcome's value, if it has one. */
  ghost predicate Applied(o: Result<Option<Value>>, e: Ref, name: string,
                          h0: map<Ref, EntityObj>, h1: map<Ref, EntityObj>, r: Result<()>)
    requires e in h0
  {
    && (r.Err? <==> o.Err?)
    && (r.Err? ==> r.error == o.error && h1 == h0)
    && (r.Ok? ==> h1 == SetProperty(h0, e, name, o.value))
  }

  /** `Collection.clear()` on an entity collection: an empty collection of the same kind. */
  function Emptied(v: Value): Value
    requires v.Scalars? || v.Links?
  {
    if v.Scalars? then Scalars([]) else Links([])
  }

  /** A collection strategy with outcome `o` took the heap from `h0` to `h1` with result
      `r`: it failed exactly when the outcome is an error. A failure on a property that is
      not a collection (null, or of another type) changed nothing; any other failure came
      after the collection was cleared and left it empty. On success the property `name`
      of `e` became the outcome's value, if it has one. */
  ghost predicate AppliedAfterClear(o: Result<Option<Value>>, e: Ref, name: string,
                                    h0: map<Ref, EntityObj>, h1: map<Ref, EntityObj>, r: Result<()>)
    requires e in h0
  {
    var current := Property(h0[e], name);
    && (r.Err? <==> o.Err?)
    && (r.Err? ==> r.error == o.error)
    && (r.Err? && !(current.Scalars? || current.Links?) ==> h1 == h0)
    && (r.Err? && (current.Scalars? || current.Links?) ==> h1 == SetProperty(h0, e, name, Some(Emptied(current))))
    && (r.Ok? ==> h1 == SetProperty(h0, e, name, o.value))
  }

  /** How the field loop of buildNew ended: every field handled, or stopped by an
      uncaught error. */
  datatype BuildEnd = Completed | Stopped(error: Error)

  /** The callback `save` runs on the built entity before storing it: none, or the
      one-to-many child's setter of its `mappedBy` property to the parent. */
  datatype Hook = NoHook | SetMappedBy(property: string, parent: Ref)

  /** EntityBuilder, with CRUDZilla's `save` that it calls back. */
  class EntityBuilder {
    const em: EntityManager
    const refl: EntityReflections
    /** The entity classes `Class.forName` loads, by name. */
    const classes: map<ClassName, ClassDecl>

    constructor (em: EntityManager, refl: EntityReflections, classes: map<ClassName, ClassDecl>)
      ensures this.em == em && this.refl == refl && this.classes == classes
    {
      this.em := em;
      this.refl := refl;
      this.classes := classes;
    }

    /** Every repository bean works through the one entity manager. */
    predicate Wired() {
      && (forall k :: k in refl.repositories.byClass ==> refl.repositories.byClass[k].entityManager == em)
      && (forall k :: k in refl.repositories.byName ==> refl.repositories.byName[k].entityManager == em)
    }

    lemma RepositoryWired(c: ClassDecl)
      requires Wired() && refl.GetRepository(c).Ok?
      ensures refl.GetRepository(c).value.entityManager == em
    {
    }

    /** processFieldManyToOne on values: the form property of the same name must exist
        and have the type of the referenced class's identifier; a null identifier clears
        the reference, any other becomes the stored object the repository's `get`
        returns, whose EntityNotFoundException is not caught. The repository looks up
        the stored rows `rows`. */
    function ManyToOneOutcome(f: FieldDecl, form: Form, rows: Rows): (r: Result<Option<Value>>)
      ensures FormFieldNamed(form, f.name).None? || f.typeName !in classes ==> r == Ok(None)
      ensures (FormFieldNamed(form, f.name).Some? && f.typeName in classes &&
               classes[f.typeName].idType != FormFieldNamed(form, f.name).value.typeName) ==> r == Ok(None)
      ensures r == Ok(Some(Null)) <==>
        && FormFieldNamed(form, f.name).Some? && f.typeName in classes
        && classes[f.typeName].idType == FormFieldNamed(form, f.name).value.typeName
        && FormFieldNamed(form, f.name).value.value == FNull
      ensures r.Ok? && r.value.Some? && r.value.value != Null ==>
        && FormFieldNamed(form, f.name).Some? && f.typeName in classes
        && refl.GetRepository(classes[f.typeName]).Ok?
        && var k := FormFieldNamed(form, f.name).value.value;
        && k.FScalar? && k.scalar.Int?
        && k.scalar.i in refl.GetRepository(classes[f.typeName]).value.TableIn(rows)
        && r.value.value == Link(refl.GetRepository(classes[f.typeName]).value.TableIn(rows)[k.scalar.i])
      ensures r.Err? ==> r.error == NoSuchBean || r.error == EntityNotFound || r.error == IllegalArgument
    {
      match FormFieldNamed(form, f.name)
      case None => Ok(None)
      case Some(ff) =>
        if f.typeName !in classes || classes[f.typeName].idType != ff.typeName then Ok(None)
        else if ff.value == FNull then Ok(Some(Null))
        else
          match refl.GetRepository(classes[f.typeName])
          case Err(e) => Err(e)
          case Ok(repo) =>
            if ff.value.FScalar? && ff.value.scalar.Int? then
              var k := ff.value.scalar.i;
              if k in repo.TableIn(rows) then
                Ok(Some(Link(repo.TableIn(rows)[k])))
              else Err(EntityNotFound)
            else Err(IllegalArgument)
    }

    /** The identifiers a form list property holds, when every element is an int. */
    static function IdsOf(items: seq<Scalar>): (r: Option<seq<int>>)
      ensures r.Some? ==> |r.value| == |items| && forall i :: 0 <= i < |items| ==> items[i] == Int(r.value[i])
      ensures r.None? ==> exists i :: 0 <= i < |items| && !items[i].Int?
      decreases |items|
    {
      if |items| == 0 then Some([])
      else if !items[0].Int? then None
      else
        match IdsOf(items[1..])
        case None => None
        case Some(rest) => Some([items[0].i] + rest)
    }

    /** processFieldManyToMany on values: the form property `ids<Name>` must exist and
        hold elements of the identifier type of the referenced class; the entity
        collection is cleared (a null one raises NullPointerException) and refilled
        with what the repository's `getByIds` returns for those identifiers from the
        stored rows `rows`. */
    function ManyToManyOutcome(f: FieldDecl, form: Form, rows: Rows, current: Value): (r: Result<Option<Value>>)
      ensures FormFieldNamed(form, "ids" + Capitalize(f.name)).None? || f.elemType !in classes ==> r == Ok(None)
      ensures (FormFieldNamed(form, "ids" + Capitalize(f.name)).Some? && f.elemType in classes &&
               classes[f.elemType].idType != FormFieldNamed(form, "ids" + Capitalize(f.name)).value.elemType) ==> r == Ok(None)
      ensures r.Ok? && r.value.Some? ==>
        && FormFieldNamed(form, "ids" + Capitalize(f.name)).Some? && f.elemType in classes
        && refl.GetRepository(classes[f.elemType]).Ok?
        && var v := FormFieldNamed(form, "ids" + Capitalize(f.name)).value.value;
        && ScalarItems(v).Some? && IdsOf(ScalarItems(v).value).Some? && r.value.value.Links?
        && refl.GetRepository(classes[f.elemType]).value.GetByIdsIn(rows, IdsOf(ScalarItems(v).value).value) == Ok(r.value.value.refs)
      ensures r.Err? ==>
        || (r.error == NullPointer && (current.Null? || refl.GetRepository(classes[f.elemType]).Ok?))
        || r.error == ClassCast || r.error == NoSuchBean || r.error == NotImplemented
    {
      match FormFieldNamed(form, "ids" + Capitalize(f.name))
      case None => Ok(None)
      case Some(ff) =>
        if f.elemType !in classes || classes[f.elemType].idType != ff.elemType then Ok(None)
        else if current.Null? then Err(NullPointer)
        else if !(current.Links? || current.Scalars?) then Err(ClassCast)
        else
          match refl.GetRepository(classes[f.elemType])
          case Err(e) => Err(e)
          case Ok(repo) =>
            if ff.value.FNull? then
              (if repo.queries.byIds.Some? then Err(NullPointer) else Err(NotImplemented))
            else if !(ff.value.FScalars? || ff.value.FForms?) then Err(ClassCast)
            else if repo.queries.byIds.None? then Err(NotImplemented)
            else if ScalarItems(ff.value).None? then Err(ClassCast)
            else
              match IdsOf(ScalarItems(ff.value).value)
              case None => Err(ClassCast)
              case Some(ids) =>
                match repo.GetByIdsIn(rows, ids)
                case Err(e) => Err(e)
                case Ok(refs) => Ok(Some(Links(refs)))
    }

    /** invokeSetter on an entity property. */
    method SetField(e: Ref, name: string, v: Value)
      requires em.Valid() && e in em.heap
      modifies em
      ensures em.Valid()
      ensures em.heap == old(em.heap)[e := old(em.heap[e]).(fields := old(em.heap[e]).fields[name := v])]
      ensures em.rows == old(em.rows) && em.nextId == old(em.nextId)
      ensures KeepsIdentity(old(em.heap), em.heap)
    {
      em.Write(e, em.heap[e].(fields := em.heap[e].fields[name := v]));
    }

    /** processFieldManyToOne: the entity's reference becomes what ManyToOneOutcome says. */
    method ProcessManyToOne(f: FieldDecl, form: Form, e: Ref) returns (r: Result<()>)
      requires em.Valid() && Wired() && e in em.heap
      modifies em
      ensures em.Valid() && em.rows == old(em.rows) && em.nextId == old(em.nextId)
      ensures KeepsIdentity(old(em.heap), em.heap)
      ensures Applied(ManyToOneOutcome(f, form, em.rows), e, f.name, old(em.heap), em.heap, r)
    {
      var field := FormFieldNamed(form, f.name);
      if field.None? {
        return Ok(());
      }
      var ff := field.value;
      if f.typeName !in classes || classes[f.typeName].idType != ff.typeName {
        return Ok(());
      }
      if ff.value == FNull {
        SetField(e, f.name, Null);
        return Ok(());
      }
      var repository := refl.GetRepository(classes[f.typeName]);
      if repository.Err? {
        return Err(repository.error);
      }
      RepositoryWired(classes[f.typeName]);
      if !(ff.value.FScalar? && ff.value.scalar.Int?) {
        return Err(IllegalArgument);
      }
      var found := repository.value.Get(ff.value.scalar.i);
      if found.Err? {
        return Err(found.error);
      }
      SetField(e, f.name, Link(found.value));
      r := Ok(());
    }

    /** processFieldManyToMany: the entity collection becomes what ManyToManyOutcome says. */
    method ProcessManyToMany(f: FieldDecl, form: Form, e: Ref) returns (r: Result<()>)
      requires em.Valid() && Wired() && e in em.heap
      modifies em
      ensures em.Valid() && em.rows == old(em.rows) && em.nextId == old(em.nextId)
      ensures KeepsIdentity(old(em.heap), em.heap)
      ensures AppliedAfterClear(ManyToManyOutcome(f, form, em.rows, Property(old(em.heap)[e], f.name)), e, f.name, old(em.heap), em.heap, r)
    {
      var field := FormFieldNamed(form, "ids" + Capitalize(f.name));
      if field.None? || f.elemType !in classes || classes[f.elemType].idType != field.value.elemType {
        return Ok(());
      }
      ghost var h0 := em.heap;
      ghost var outcome := ManyToManyOutcome(f, form, em.rows, Property(h0[e], f.name));
      var current := Property(em.heap[e], f.name);
      if current.Null? {
        return Err(NullPointer);
      }
      if !(current.Links? || current.Scalars?) {
        return Err(ClassCast);
      }
      SetField(e, f.name, Emptied(current));
      ghost var cleared := em.heap;
      assert cleared == SetProperty(h0, e, f.name, Some(Emptied(current)));
      var repository := refl.GetRepository(classes[f.elemType]);
      if repository.Err? {
        return Err(repository.error);
      }
      var listed := field.value.value;
      if listed.FNull? {
        return Err(if repository.value.queries.byIds.Some? then NullPointer else NotImplemented);
      }
      if !(listed.FScalars? || listed.FForms?) {
        return Err(ClassCast);
      }
      if repository.value.queries.byIds.None? {
        return Err(NotImplemented);
      }
      var items := ScalarItems(listed);
      if items.None? {
        return Err(ClassCast);
      }
      var ids := IdsOf(items.value);
      if ids.None? {
        return Err(ClassCast);
      }
      var found := repository.value.GetByIdsIn(em.rows, ids.value);
      assert outcome == Ok(Some(Links(found.value)));
      SetField(e, f.name, Links(found.value));
      SetPropertyTwice(h0, e, f.name, Emptied(current), Links(found.value));
      r := Ok(());
    }

    /** processFieldElementCollection, with a missing counterpart skipped. */
    method ProcessElementCollection(f: FieldDecl, form: Form, e: Ref) returns (r: Result<()>)
      requires em.Valid() && e in em.heap
      modifies em
      ensures em.Valid() && em.rows == old(em.rows) && em.nextId == old(em.nextId)
      ensures KeepsIdentity(old(em.heap), em.heap)
      ensures AppliedAfterClear(ElementCollectionOutcome(f.name, form, Property(old(em.heap)[e], f.name)), e, f.name, old(em.heap), em.heap, r)
    {
      var field := FormFieldNamed(form, f.name);
      if field.None? {
        return Ok(());
      }
      ghost var h0 := em.heap;
      var current := Property(em.heap[e], f.name);
      if current.Null? {
        return Err(NullPointer);
      }
      if !(current.Links? || current.Scalars?) {
        return Err(ClassCast);
      }
      SetField(e, f.name, Emptied(current));
      if field.value.value.FNull? {
        return Err(NullPointer);
      }
      var items := ScalarItems(field.value.value);
      if items.None? {
        return Err(ClassCast);
      }
      SetField(e, f.name, Scalars(items.value));
      SetPropertyTwice(h0, e, f.name, Emptied(current), Scalars(items.value));
      r := Ok(());
    }
    /** The table of the repository of a child class, when it has one. */
    ghost function ChildTable(c: ClassDecl, rows: Rows): Option<map<int, Ref>>
    {
      if refl.GetRepository(c).Ok? then Some(refl.GetRepository(c).value.TableIn(rows)) else None
    }

    /** processFieldOneToMany: the form property `<name>Forms` must exist and the element
        class must load, or the field is skipped. The form value is cast to a collection
        first (a single value raises ClassCastException), then the entity collection (one
        of another type raises ClassCastException) is cleared (a null one raises
        NullPointerException) and refilled as Refill says. The outcome is the new
        children, or None when the field is skipped. */
    method ProcessOneToMany(f: FieldDecl, mappedBy: string, form: Form, e: Ref) returns (r: Result<Option<seq<Ref>>>)
      requires em.Valid() && Wired() && e in em.heap
      modifies em
      ensures em.Valid() && em.rows == old(em.rows) && em.nextId == old(em.nextId)
      ensures KeepsIdentity(old(em.heap), em.heap)
      ensures r == Ok(None) <==> FormFieldNamed(form, f.name + "Forms").None? || f.elemType !in classes
      ensures r == Ok(None) ==> em.heap == old(em.heap)
      ensures FormFieldNamed(form, f.name + "Forms").Some? && f.elemType in classes ==>
        && (FormFieldNamed(form, f.name + "Forms").value.value.FScalar? ==> r == Err(ClassCast) && em.heap == old(em.heap))
        && (!FormFieldNamed(form, f.name + "Forms").value.value.FScalar? && old(Property(em.heap[e], f.name)).Null? ==>
              r == Err(NullPointer) && em.heap == old(em.heap))
      ensures r.Ok? && r.value.Some? ==>
        && FormFieldNamed(form, f.name + "Forms").Some? && f.elemType in classes
        && SubForms(FormFieldNamed(form, f.name + "Forms").value.value).Some?
        && Property(em.heap[e], f.name) == Links(r.value.value)
      ensures OneToManyStep(f, form, em.rows, e, old(em.heap), em.heap, if r.Err? then Err(r.error) else Ok(()))
      decreases form, 2
    {
      var index := FormFieldIndex(form.fields, f.name + "Forms");
      if index.None? || f.elemType !in classes {
        return Ok(None);
      }
      if form.fields[index.value].value.FScalar? {
        return Err(ClassCast);
      }
      var current := Property(em.heap[e], f.name);
      if current.Null? {
        return Err(NullPointer);
      }
      if !(current.Links? || current.Scalars?) {
        return Err(ClassCast);
      }
      var refilled := Refill(f, mappedBy, form, index.value, e);
      if refilled.Err? {
        return Err(refilled.error);
      }
      r := Ok(Some(refilled.value));
    }

    /** The rest of processFieldOneToMany once both collections are known: the entity
        collection is cleared; a null form list raises NullPointerException at the loop, a
        list whose elements are not sub-forms ClassCastException at its first element;
        otherwise the children are saved and added as SaveChildren says. */
    method Refill(f: FieldDecl, mappedBy: string, form: Form, index: nat, e: Ref) returns (r: Result<seq<Ref>>)
      requires em.Valid() && Wired() && e in em.heap && index < |form.fields| && f.elemType in classes
      requires !form.fields[index].value.FScalar?
      modifies em
      ensures em.Valid() && em.rows == old(em.rows) && em.nextId == old(em.nextId)
      ensures KeepsIdentity(old(em.heap), em.heap)
      ensures form.fields[index].value.FNull? ==>
        r == Err(NullPointer) && em.heap == SetProperty(old(em.heap), e, f.name, Some(Links([])))
      ensures !form.fields[index].value.FNull? && SubForms(form.fields[index].value).None? ==>
        r == Err(ClassCast) && em.heap == SetProperty(old(em.heap), e, f.name, Some(Links([])))
      ensures r.Ok? ==> SubForms(form.fields[index].value).Some? && Property(em.heap[e], f.name) == Links(r.value)
      ensures SubForms(form.fields[index].value).Some? ==>
        Refilled(SubForms(form.fields[index].value).value, e, f.name, old(em.heap), em.heap,
                 classes[f.elemType].Name(), ChildTable(classes[f.elemType], old(em.rows)), r.Ok?)
      decreases form, 1
    {
      ghost var h0 := em.heap;
      SetField(e, f.name, Links([]));
      assert em.heap == SetProperty(h0, e, f.name, Some(Links([])));
      var listed := form.fields[index].value;
      if listed.FNull? {
        return Err(NullPointer);
      }
      if SubForms(listed).None? {
        return Err(ClassCast);
      }
      ghost var cleared := em.heap;
      r := SaveChildren(form, index, classes[f.elemType], mappedBy, e, f.name);
      KeepsIdentityTrans(h0, cleared, em.heap);
    }

    /** The children's loop ended as `ok` says: on success the collection holds one child
        per sub-form; otherwise a child's save failed after the ones before it were added. */
    ghost predicate Refilled(subs: seq<Form>, e: Ref, name: string, h0: map<Ref, EntityObj>, h1: map<Ref, EntityObj>,
                             c: ClassName, table: Option<map<int, Ref>>, ok: bool)
    {
      && (ok ==> ChildrenSaved(subs, e, name, h0, h1, c, table))
      && (!ok ==> FailedAfter(subs, e, name, h0, h1, c, table))
    }

    /** The loop of processFieldOneToMany over the sub-forms of the form field at `index`:
        each is saved, without storing it, as an object of `childClass` whose `mappedBy`
        property is set to `parent`, and then added to the parent's collection `name`,
        which starts empty. A failing child stops the loop with the earlier ones added. */
    method SaveChildren(form: Form, index: nat, childClass: ClassDecl, mappedBy: string, parent: Ref, name: string)
      returns (r: Result<seq<Ref>>)
      requires em.Valid() && Wired() && index < |form.fields| && SubForms(form.fields[index].value).Some?
      requires parent in em.heap && Property(em.heap[parent], name) == Links([])
      modifies em
      ensures em.Valid() && em.rows == old(em.rows) && em.nextId == old(em.nextId)
      ensures KeepsIdentity(old(em.heap), em.heap)
      ensures r.Ok? ==> Property(em.heap[parent], name) == Links(r.value)
      ensures Refilled(SubForms(form.fields[index].value).value, parent, name, old(em.heap), em.heap,
                       childClass.Name(), ChildTable(childClass, old(em.rows)), r.Ok?)
      decreases form, 0
    {
      var subs := SubForms(form.fields[index].value).value;
      ghost var table := ChildTable(childClass, em.rows);
      var children: seq<Ref> := [];
      for k := 0 to |subs|
        invariant em.Valid() && em.rows == old(em.rows) && em.nextId == old(em.nextId)
        invariant KeepsIdentity(old(em.heap), em.heap)
        invariant |children| == k && parent in em.heap && Property(em.heap[parent], name) == Links(children)
        invariant HoldsSaved(subs, parent, name, old(em.heap), em.heap, childClass.Name(), table)
      {
        assert form.fields[index].value.FForms?;
        assert subs[k] < form;
        ghost var before := em.heap;
        var child := SaveChild(subs[k], childClass, mappedBy, parent);
        KeepsIdentityTrans(old(em.heap), before, em.heap);
        if child.Err? {
          return Err(child.error);
        }
        ghost var saved := em.heap;
        SetField(parent, name, Links(children + [child.value]));
        HoldsSavedAdd(subs, parent, name, old(em.heap), before, saved, em.heap, childClass.Name(), table, child.value);
        KeepsIdentityTrans(old(em.heap), saved, em.heap);
        children := children + [child.value];
      }
      r := Ok(children);
    }

    /** One turn of processFieldOneToMany's loop: the sub-form `sub` is saved, without
        storing it, as an object of `childClass` whose `mappedBy` property is `parent`. */
    method SaveChild(sub: Form, childClass: ClassDecl, mappedBy: string, parent: Ref) returns (r: Result<Ref>)
      requires em.Valid() && Wired()
      modifies em
      ensures em.Valid() && em.rows == old(em.rows) && em.nextId == old(em.nextId)
      ensures KeepsIdentity(old(em.heap), em.heap)
      ensures r.Ok? ==> SavedAs(sub, r.value, old(em.heap), em.heap, childClass.Name(), ChildTable(childClass, em.rows))
      ensures r.Ok? ==> Property(em.heap[r.value], mappedBy) == Link(parent)
      decreases sub, 9
    {
      ghost var e, heaps, built;
      r, e, heaps, built := Save(childClass, sub, SetMappedBy(mappedBy, parent), true);
    }

    /** A one-to-many field's step of buildNew: without the `<name>Forms` property or a
        loadable element class it is skipped. Otherwise, in the order of the source: a
        form value that is a single value raises ClassCastException, an entity collection
        that is null raises NullPointerException and one of another type
        ClassCastException, all with nothing changed; then the collection is cleared and
        a null form list raises NullPointerException, a list of non-forms
        ClassCastException; otherwise the children's loop ends as Refilled says. */
    ghost predicate OneToManyStep(f: FieldDecl, form: Form, rows: Rows, e: Ref,
                                  h0: map<Ref, EntityObj>, h1: map<Ref, EntityObj>, r: Result<()>)
      requires e in h0
    {
      var field := FormFieldNamed(form, f.name + "Forms");
      var current := Property(h0[e], f.name);
      && (field.None? || f.elemType !in classes ==> r.Ok? && h1 == h0)
      && (field.Some? && f.elemType in classes ==>
           var listed := field.value.value;
           && (listed.FScalar? ==> r == Err(ClassCast) && h1 == h0)
           && (!listed.FScalar? && current.Null? ==> r == Err(NullPointer) && h1 == h0)
           && (!listed.FScalar? && !(current.Null? || current.Links? || current.Scalars?) ==> r == Err(ClassCast) && h1 == h0)
           && (!listed.FScalar? && (current.Links? || current.Scalars?) ==>
                 && (listed.FNull? ==> r == Err(NullPointer) && h1 == SetProperty(h0, e, f.name, Some(Links([]))))
                 && (!listed.FNull? && SubForms(listed).None? ==>
                       r == Err(ClassCast) && h1 == SetProperty(h0, e, f.name, Some(Links([]))))
                 && (SubForms(listed).Some? ==>
                       Refilled(SubForms(listed).value, e, f.name, h0, h1, classes[f.elemType].Name(),
                                ChildTable(classes[f.elemType], rows), r.Ok?))))
    }

    /** One step of buildNew's loop, from heap `h0` to heap `h1` with result `r`: the
        field is handled as its strategy says, and no object changes class or identifier. */
    ghost predicate FieldStep(f: FieldDecl, form: Form, rows: Rows, e: Ref,
                              h0: map<Ref, EntityObj>, h1: map<Ref, EntityObj>, r: Result<()>)
    {
      && e in h0 && KeepsIdentity(h0, h1)
      && (StrategyOf(f).SimpleField? ==> r.Ok? && h1 == h0)
      && (StrategyOf(f).ManyToOneField? ==> Applied(ManyToOneOutcome(f, form, rows), e, f.name, h0, h1, r))
      && (StrategyOf(f).ManyToManyField? ==>
            AppliedAfterClear(ManyToManyOutcome(f, form, rows, Property(h0[e], f.name)), e, f.name, h0, h1, r))
      && (StrategyOf(f).ElementCollectionField? ==>
            AppliedAfterClear(ElementCollectionOutcome(f.name, form, Property(h0[e], f.name)), e, f.name, h0, h1, r))
      && (StrategyOf(f).OneToManyField? ==> OneToManyStep(f, form, rows, e, h0, h1, r))
    }

    /** The first `n` steps of a buildNew trace all succeeded. */
    ghost predicate StepsOk(fields: seq<FieldDecl>, form: Form, rows: Rows, e: Ref, heaps: seq<map<Ref, EntityObj>>, n: nat)
      requires n < |heaps| && n <= |fields|
    {
      forall j :: 0 <= j < n ==> FieldStep(fields[j], form, rows, e, heaps[j], heaps[j + 1], Ok(()))
    }

    /** A trace of buildNew's loop that ended as `end` says: one heap more than the fields
        handled, all of them when it completed; every field handled took the heap to the
        next one as FieldStep says, successfully except the last when the loop stopped. */
    ghost predicate Traced(fields: seq<FieldDecl>, form: Form, rows: Rows, e: Ref, heaps: seq<map<Ref, EntityObj>>, end: BuildEnd)
    {
      && 1 <= |heaps| <= |fields| + 1
      && (end.Completed? ==> |heaps| == |fields| + 1)
      && (end.Stopped? ==> |heaps| >= 2)
      && forall i :: 0 <= i < |heaps| - 1 ==> StepAt(fields, form, rows, e, heaps, end, i)
    }

    /** Step `i` of a trace that ended as `end`: field `i` took heap `i` to heap `i + 1`
        as FieldStep says, successfully unless it is the last step of a stopped loop. */
    ghost predicate StepAt(fields: seq<FieldDecl>, form: Form, rows: Rows, e: Ref, heaps: seq<map<Ref, EntityObj>>, end: BuildEnd, i: int)
      requires 0 <= i < |heaps| - 1 && |heaps| <= |fields| + 1
    {
      FieldStep(fields[i], form, rows, e, heaps[i], heaps[i + 1],
                if end.Stopped? && i == |heaps| - 2 then Err(end.error) else Ok(()))
    }

    /** `save` of a form without identifier built the fresh instance `e` of `c` on heap
        `h0`: the new instance was added to the heap and built onto, the model-mapped
        instance first, then the fields as `heaps` traces them. */
    ghost predicate BuiltFresh(c: ClassDecl, form: Form, rows: Rows, e: Ref, heaps: seq<map<Ref, EntityObj>>, end: BuildEnd,
                               h0: map<Ref, EntityObj>)
    {
      e !in h0 && BuiltOnto(c, form, rows, e, heaps, end, h0[e := NewEntity(c)])
    }

    /** `save` of a form with an identifier built onto the stored object `e` of heap `h0`:
        the object model-mapped, then the fields of `decl` as `heaps` traces them. */
    ghost predicate BuiltOnto(decl: ClassDecl, form: Form, rows: Rows, e: Ref, heaps: seq<map<Ref, EntityObj>>, end: BuildEnd,
                              h0: map<Ref, EntityObj>)
    {
      && e in h0 && |heaps| >= 1
      && heaps[0] == h0[e := MapForm(decl, form, h0[e])]
      && Traced(decl.fields, form, rows, e, heaps, end)
    }

    /** `save` of a form without identifier ended with `r` and heap `h`, having built the
        fresh instance `e` of `c` on heap `h0` as `heaps` and `end` trace it: a build that
        stopped is the outcome, with the heap the build left; a success is the built
        instance, after a completed build. */
    ghost predicate SavedFresh(c: ClassDecl, form: Form, rows: Rows, h0: map<Ref, EntityObj>, r: Result<Ref>,
                               h: map<Ref, EntityObj>, e: Ref, heaps: seq<map<Ref, EntityObj>>, end: BuildEnd)
    {
      && BuiltFresh(c, form, rows, e, heaps, end, h0)
      && (end.Stopped? ==> r == Err(end.error) && h == heaps[|heaps| - 1])
      && (r.Ok? ==> end.Completed? && r.value == e)
    }

    /** `save` of a form with an identifier ended with `r` and heap `h`, having built onto
        the stored object `e` of heap `h0` as `heaps` and `end` trace it: a build that
        stopped is the outcome, with the heap the build left; a success follows a
        completed build. */
    ghost predicate SavedOnto(decl: ClassDecl, form: Form, rows: Rows, h0: map<Ref, EntityObj>, r: Result<Ref>,
                              h: map<Ref, EntityObj>, e: Ref, heaps: seq<map<Ref, EntityObj>>, end: BuildEnd)
    {
      && BuiltOnto(decl, form, rows, e, heaps, end, h0)
      && (end.Stopped? ==> r == Err(end.error) && h == heaps[|heaps| - 1])
      && (r.Ok? ==> end.Completed?)
    }

    /** A failing step ends a trace of successful ones. */
    lemma TracedStop(fields: seq<FieldDecl>, form: Form, rows: Rows, e: Ref, heaps: seq<map<Ref, EntityObj>>, n: nat,
                     h: map<Ref, EntityObj>, r: Result<()>)
      requires n + 1 == |heaps| && n < |fields| && r.Err?
      requires StepsOk(fields, form, rows, e, heaps, n) && FieldStep(fields[n], form, rows, e, heaps[n], h, r)
      ensures Traced(fields, form, rows, e, heaps + [h], Stopped(r.error))
    {
    }

    /** A trace of successful steps over every field is a completed trace. */
    lemma TracedDone(fields: seq<FieldDecl>, form: Form, rows: Rows, e: Ref, heaps: seq<map<Ref, EntityObj>>)
      requires |heaps| == |fields| + 1
      requires StepsOk(fields, form, rows, e, heaps, |fields|)
      ensures Traced(fields, form, rows, e, heaps, Completed)
    {
    }

    /** When every field is simple, the loop completes and changes nothing. */
    lemma {:induction false} TracedAllSimple(fields: seq<FieldDecl>, form: Form, rows: Rows, e: Ref, heaps: seq<map<Ref, EntityObj>>, end: BuildEnd)
      requires Traced(fields, form, rows, e, heaps, end)
      requires forall i :: 0 <= i < |fields| ==> StrategyOf(fields[i]).SimpleField?
      ensures end.Completed? && heaps[|heaps| - 1] == heaps[0]
    {
      if |heaps| >= 2 {
        var k := |heaps| - 2;
        assert StepAt(fields, form, rows, e, heaps, end, k);
        assert FieldStep(fields[k], form, rows, e, heaps[k], heaps[k + 1], if end.Stopped? then Err(end.error) else Ok(()));
      }
      for n := 0 to |heaps| - 1
        invariant heaps[n] == heaps[0]
      {
        assert StepAt(fields, form, rows, e, heaps, end, n);
        assert FieldStep(fields[n], form, rows, e, heaps[n], heaps[n + 1], Ok(()));
      }
    }

    /** No field handled changes the class or identifier of an object. */
    lemma {:induction false} TracedKeepsIdentity(fields: seq<FieldDecl>, form: Form, rows: Rows, e: Ref, heaps: seq<map<Ref, EntityObj>>, end: BuildEnd)
      requires Traced(fields, form, rows, e, heaps, end)
      ensures KeepsIdentity(heaps[0], heaps[|heaps| - 1])
    {
      for n := 0 to |heaps| - 1
        invariant KeepsIdentity(heaps[0], heaps[n])
      {
        assert StepAt(fields, form, rows, e, heaps, end, n);
        KeepsIdentityTrans(heaps[0], heaps[n], heaps[n + 1]);
      }
    }

    /** A successful step extends a trace of successful ones. */
    lemma StepsOkExtend(fields: seq<FieldDecl>, form: Form, rows: Rows, e: Ref, heaps: seq<map<Ref, EntityObj>>, n: nat,
                        h: map<Ref, EntityObj>)
      requires n + 1 == |heaps| && n < |fields|
      requires StepsOk(fields, form, rows, e, heaps, n) && FieldStep(fields[n], form, rows, e, heaps[n], h, Ok(()))
      ensures StepsOk(fields, form, rows, e, heaps + [h], n + 1)
    {
    }

    /** One declared field of the entity, handled by its strategy; a simple field was
        already copied and is left alone. */
    method ProcessField(f: FieldDecl, form: Form, e: Ref) returns (r: Result<()>)
      requires em.Valid() && Wired() && e in em.heap
      modifies em
      ensures em.Valid() && em.rows == old(em.rows) && em.nextId == old(em.nextId)
      ensures FieldStep(f, form, em.rows, e, old(em.heap), em.heap, r)
      decreases form, 3
    {
      match StrategyOf(f)
      case ManyToManyField =>
        r := ProcessManyToMany(f, form, e);
      case OneToManyField(mappedBy) =>
        var children := ProcessOneToMany(f, mappedBy, form, e);
        r := if children.Err? then Err(children.error) else Ok(());
      case ManyToOneField =>
        r := ProcessManyToOne(f, form, e);
      case ElementCollectionField =>
        r := ProcessElementCollection(f, form, e);
      case SimpleField =>
        r := Ok(());
    }

    /** The loop of buildNew: every declared field is handled by its strategy, in
        declaration order, and the first uncaught failure stops it. `heaps` traces the
        heap: the heap on entry, then the heap after each field handled. */
    method ProcessFields(decl: ClassDecl, form: Form, e: Ref) returns (r: Result<()>, ghost heaps: seq<map<Ref, EntityObj>>)
      requires em.Valid() && Wired() && e in em.heap
      modifies em
      ensures em.Valid() && em.rows == old(em.rows) && em.nextId == old(em.nextId)
      ensures Traced(decl.fields, form, em.rows, e, heaps, if r.Err? then Stopped(r.error) else Completed)
      ensures heaps[0] == old(em.heap) && heaps[|heaps| - 1] == em.heap
      decreases form, 4
    {
      heaps := [em.heap];
      for i := 0 to |decl.fields|
        invariant em.Valid() && em.rows == old(em.rows) && em.nextId == old(em.nextId)
        invariant |heaps| == i + 1 && heaps[0] == old(em.heap) && heaps[i] == em.heap && e in em.heap
        invariant StepsOk(decl.fields, form, em.rows, e, heaps, i)
      {
        var done := ProcessField(decl.fields[i], form, e);
        if done.Err? {
          TracedStop(decl.fields, form, em.rows, e, heaps, i, em.heap, done);
          return done, heaps + [em.heap];
        }
        StepsOkExtend(decl.fields, form, em.rows, e, heaps, i, em.heap);
        heaps := heaps + [em.heap];
      }
      TracedDone(decl.fields, form, em.rows, e, heaps);
      r := Ok(());
    }

    /** buildNew: the simple properties are copied, then every declared field is handled
        by its strategy, in declaration order; a field the strategies skip is left as it
        is, and the first uncaught failure stops the build. The same object is returned.
        Nothing is stored or removed. `heaps` traces the heap: the model-mapped heap, then
        the heap after each field handled. */
    method BuildNew(decl: ClassDecl, form: Form, e: Ref) returns (r: Result<Ref>, ghost heaps: seq<map<Ref, EntityObj>>)
      requires em.Valid() && Wired() && e in em.heap
      modifies em
      ensures em.Valid() && em.rows == old(em.rows) && em.nextId == old(em.nextId)
      ensures KeepsIdentity(old(em.heap), em.heap)
      ensures r.Ok? ==> r.value == e
      ensures Traced(decl.fields, form, em.rows, e, heaps, if r.Err? then Stopped(r.error) else Completed)
      ensures heaps[0] == old(em.heap)[e := MapForm(decl, form, old(em.heap[e]))] && heaps[|heaps| - 1] == em.heap
      ensures (forall i :: 0 <= i < |decl.fields| ==> StrategyOf(decl.fields[i]).SimpleField?) ==>
        r == Ok(e) && em.heap == heaps[0]
      decreases form, 5
    {
      em.Write(e, MapForm(decl, form, em.heap[e]));
      var done;
      done, heaps := ProcessFields(decl, form, e);
      ghost var end := if done.Err? then Stopped(done.error) else Completed;
      TracedKeepsIdentity(decl.fields, form, em.rows, e, heaps, end);
      if forall i :: 0 <= i < |decl.fields| ==> StrategyOf(decl.fields[i]).SimpleField? {
        TracedAllSimple(decl.fields, form, em.rows, e, heaps, end);
      }
      r := if done.Err? then Err(done.error) else Ok(e);
    }

    /** buildExisting: exactly buildNew. */
    method BuildExisting(decl: ClassDecl, form: Form, e: Ref) returns (r: Result<Ref>, ghost heaps: seq<map<Ref, EntityObj>>)
      requires em.Valid() && Wired() && e in em.heap
      modifies em
      ensures em.Valid() && em.rows == old(em.rows) && em.nextId == old(em.nextId)
      ensures KeepsIdentity(old(em.heap), em.heap)
      ensures r.Ok? ==> r.value == e
      ensures Traced(decl.fields, form, em.rows, e, heaps, if r.Err? then Stopped(r.error) else Completed)
      ensures heaps[0] == old(em.heap)[e := MapForm(decl, form, old(em.heap[e]))] && heaps[|heaps| - 1] == em.heap
      ensures (forall i :: 0 <= i < |decl.fields| ==> StrategyOf(decl.fields[i]).SimpleField?) ==>
        r == Ok(e) && em.heap == heaps[0]
      decreases form, 6
    {
      r, heaps := BuildNew(decl, form, e);
    }

    /** The hook run on the built entity: the child's `mappedBy` property is set to the
        parent through its setter, whose missing property descriptor raises
        NullPointerException. */
    method ApplyHook(hook: Hook, x: Ref, decl: ClassDecl) returns (r: Result<()>)
      requires em.Valid() && x in em.heap
      modifies em
      ensures em.Valid() && em.rows == old(em.rows) && em.nextId == old(em.nextId)
      ensures KeepsIdentity(old(em.heap), em.heap)
      ensures hook.NoHook? ==> r.Ok? && em.heap == old(em.heap)
      ensures hook.SetMappedBy? ==>
        (r.Ok? <==> FieldDeclNamed(decl.fields, hook.property).Some?) &&
        (r.Ok? ==> em.heap == SetProperty(old(em.heap), x, hook.property, Some(Link(hook.parent)))) &&
        (r.Err? ==> r.error == NullPointer && em.heap == old(em.heap))
    {
      match hook
      case NoHook =>
        r := Ok(());
      case SetMappedBy(property, parent) =>
        if FieldDeclNamed(decl.fields, property).None? {
          return Err(NullPointer);
        }
        SetField(x, property, Link(parent));
        r := Ok(());
    }

    /** The end of `save`: the hook runs on the built entity, which is then returned as
        it is or stored through `put`. */
    method Finish(repo: RepositoryJpa, e: Ref, decl: ClassDecl, hook: Hook, skipPersist: bool) returns (r: Result<Ref>)
      requires em.Valid() && repo.entityManager == em && e in em.heap
      modifies em
      ensures em.Valid()
      ensures r.Ok? ==> r.value in em.heap
      ensures skipPersist ==> em.rows == old(em.rows) && em.nextId == old(em.nextId) && KeepsIdentity(old(em.heap), em.heap)
      ensures skipPersist && r.Ok? ==> r.value == e
      ensures old(em.IsManaged(e)) ==> KeepsIdentity(old(em.heap), em.heap) && (r.Ok? ==> r.value == e)
      ensures old(em.heap[e].id.None?) ==> KeepsIdentity(old(em.heap) - {e}, em.heap) && (r.Ok? ==> r.value == e)
      ensures r.Ok? && !skipPersist ==> em.IsManaged(r.value)
      ensures r.Ok? ==> em.heap[r.value].cls == old(em.heap[e].cls)
      ensures r.Ok? && hook.SetMappedBy? ==> Property(em.heap[r.value], hook.property) == Link(hook.parent)
    {
      var hooked := ApplyHook(hook, e, decl);
      if hooked.Err? {
        return Err(hooked.error);
      }
      if skipPersist {
        return Ok(e);
      }
      r := repo.Put(e);
    }

    /** The building half of `save` of a form without identifier: a fresh instance `e`
        of `c` is created and built; `heaps` and `built` trace its build. */
    method BuildFresh(c: ClassDecl, form: Form)
      returns (r: Result<Ref>, ghost e: Ref, ghost heaps: seq<map<Ref, EntityObj>>, ghost built: BuildEnd)
      requires em.Valid() && Wired()
      modifies em
      ensures em.Valid() && em.rows == old(em.rows) && em.nextId == old(em.nextId)
      ensures KeepsIdentity(old(em.heap), em.heap)
      ensures e !in old(em.heap) && e in em.heap && em.heap[e].cls == c.Name() && em.heap[e].id.None?
      ensures BuiltFresh(c, form, old(em.rows), e, heaps, built, old(em.heap)) && em.heap == heaps[|heaps| - 1]
      ensures built.Stopped? ==> r == Err(built.error)
      ensures r.Ok? ==> built.Completed? && r.value == e
      decreases form, 6
    {
      var instance := em.Allocate(NewEntity(c));
      e := instance;
      ghost var created := em.heap;
      var done;
      done, heaps := BuildNew(c, form, instance);
      built := if done.Err? then Stopped(done.error) else Completed;
      KeepsIdentityFresh(old(em.heap), created, em.heap, e);
      r := if done.Err? then Err(done.error) else Ok(instance);
    }

    /** `save` of a form without identifier: a fresh instance is built and finished.
        `e` is the fresh instance and `heaps` and `built` the trace of its build. */
    method SaveNew(c: ClassDecl, repo: RepositoryJpa, form: Form, hook: Hook, skipPersist: bool)
      returns (r: Result<Ref>, ghost e: Ref, ghost heaps: seq<map<Ref, EntityObj>>, ghost built: BuildEnd)
      requires em.Valid() && Wired() && repo.entityManager == em
      modifies em
      ensures em.Valid()
      ensures KeepsIdentity(old(em.heap), em.heap)
      ensures skipPersist ==> em.rows == old(em.rows) && em.nextId == old(em.nextId)
      ensures r.Ok? ==> r.value in em.heap && r.value !in old(em.heap) && em.heap[r.value].cls == c.Name()
      ensures r.Ok? && skipPersist ==> em.heap[r.value].id.None?
      ensures r.Ok? && !skipPersist ==> em.IsManaged(r.value)
      ensures r.Ok? && hook.SetMappedBy? ==> Property(em.heap[r.value], hook.property) == Link(hook.parent)
      ensures SavedFresh(c, form, old(em.rows), old(em.heap), r, em.heap, e, heaps, built)
      decreases form, 7
    {
      var made;
      made, e, heaps, built := BuildFresh(c, form);
      if made.Err? {
        return Err(made.error), e, heaps, built;
      }
      ghost var builtHeap := em.heap;
      r := Finish(repo, made.value, c, hook, skipPersist);
      if skipPersist {
        KeepsIdentityTrans(old(em.heap), builtHeap, em.heap);
      } else {
        KeepsIdentityDrop(old(em.heap), builtHeap, em.heap, e);
      }
    }

    /** `save` of a form with an identifier: the stored object is loaded, built onto and
        finished; an identifier that is not stored raises EntityNotFoundException. `e` is
        the stored object and `heaps` and `built` the trace of its build. */
    method SaveExisting(repo: RepositoryJpa, form: Form, hook: Hook, skipPersist: bool)
      returns (r: Result<Ref>, ghost e: Ref, ghost heaps: seq<map<Ref, EntityObj>>, ghost built: BuildEnd)
      requires em.Valid() && Wired() && repo.entityManager == em && form.id.Some?
      modifies em
      ensures em.Valid()
      ensures KeepsIdentity(old(em.heap), em.heap)
      ensures skipPersist ==> em.rows == old(em.rows) && em.nextId == old(em.nextId)
      ensures r.Ok? ==>
        form.id.value in old(repo.Table()) && r.value == old(repo.Table())[form.id.value] && r.value in em.heap
      ensures form.id.value !in old(repo.Table()) ==> r == Err(EntityNotFound) && em.heap == old(em.heap) && em.rows == old(em.rows)
      ensures r.Ok? && !skipPersist ==> em.IsManaged(r.value)
      ensures r.Ok? && hook.SetMappedBy? ==> Property(em.heap[r.value], hook.property) == Link(hook.parent)
      ensures form.id.value in old(repo.Table()) ==>
        && e == old(repo.Table())[form.id.value]
        && SavedOnto(repo.entityClass, form, old(em.rows), old(em.heap), r, em.heap, e, heaps, built)
      decreases form, 7
    {
      var loaded := repo.GetEagerLoaded(form.id.value);
      if loaded.Err? {
        return Err(loaded.error), 0, [em.heap], Completed;
      }
      var stored := loaded.value;
      e := stored;
      var done;
      done, heaps := BuildExisting(repo.entityClass, form, stored);
      built := if done.Err? then Stopped(done.error) else Completed;
      assert Traced(repo.entityClass.fields, form, em.rows, e, heaps, built);
      assert BuiltOnto(repo.entityClass, form, old(em.rows), e, heaps, built, old(em.heap));
      if done.Err? {
        return Err(done.error), e, heaps, built;
      }
      assert em.IsManaged(stored);
      ghost var builtHeap := em.heap;
      r := Finish(repo, stored, repo.entityClass, hook, skipPersist);
      KeepsIdentityTrans(old(em.heap), builtHeap, em.heap);
    }

    /** CRUDZilla.save(entityClass, form, hook, skipPersist): the repository and the entity
        builder are looked up first; a form without identifier builds a fresh instance,
        one with an identifier builds onto the stored object `getEagerLoaded` returns;
        the hook runs on the built entity; the entity is then returned as it is, or
        stored through `put` and the stored object returned. When both beans are found, `e`
        is the object built and `heaps` and `built` the trace of its build. */
    method Save(c: ClassDecl, form: Form, hook: Hook, skipPersist: bool)
      returns (r: Result<Ref>, ghost e: Ref, ghost heaps: seq<map<Ref, EntityObj>>, ghost built: BuildEnd)
      requires em.Valid() && Wired()
      modifies em
      ensures em.Valid()
      ensures KeepsIdentity(old(em.heap), em.heap)
      ensures skipPersist ==> em.rows == old(em.rows) && em.nextId == old(em.nextId)
      ensures refl.GetRepository(c).Err? || refl.GetEntityBuilder(c).Err? ==>
        r == Err(NoSuchBean) && em.heap == old(em.heap) && em.rows == old(em.rows)
      ensures r.Ok? ==> r.value in em.heap
      ensures r.Ok? && form.id.None? ==> r.value !in old(em.heap) && em.heap[r.value].cls == c.Name()
      ensures r.Ok? && form.id.None? && skipPersist ==> em.heap[r.value].id.None?
      ensures r.Ok? && form.id.Some? ==>
        && refl.GetRepository(c).Ok?
        && form.id.value in old(refl.GetRepository(c).value.Table())
        && r.value == old(refl.GetRepository(c).value.Table())[form.id.value]
      ensures form.id.Some? && refl.GetRepository(c).Ok? && refl.GetEntityBuilder(c).Ok? &&
              form.id.value !in old(refl.GetRepository(c).value.Table()) ==>
        r == Err(EntityNotFound) && em.heap == old(em.heap) && em.rows == old(em.rows)
      ensures r.Ok? && !skipPersist ==> em.IsManaged(r.value)
      ensures r.Ok? && hook.SetMappedBy? ==> Property(em.heap[r.value], hook.property) == Link(hook.parent)
      ensures refl.GetRepository(c).Ok? && refl.GetEntityBuilder(c).Ok? && form.id.None? ==>
        SavedFresh(c, form, old(em.rows), old(em.heap), r, em.heap, e, heaps, built)
      ensures refl.GetRepository(c).Ok? && refl.GetEntityBuilder(c).Ok? && form.id.Some? &&
              form.id.value in old(refl.GetRepository(c).value.Table()) ==>
        && var repo := refl.GetRepository(c).value;
        && e == old(repo.Table())[form.id.value]
        && SavedOnto(repo.entityClass, form, old(em.rows), old(em.heap), r, em.heap, e, heaps, built)
      decreases form, 8
    {
      var repository := refl.GetRepository(c);
      if repository.Err? {
        return Err(repository.error), 0, [em.heap], Completed;
      }
      var builder := refl.GetEntityBuilder(c);
      if builder.Err? {
        return Err(builder.error), 0, [em.heap], Completed;
      }
      RepositoryWired(c);
      if form.id.None? {
        r, e, heaps, built := SaveNew(c, repository.value, form, hook, skipPersist);
      } else {
        r, e, heaps, built := SaveExisting(repository.value, form, hook, skipPersist);
      }
    }
  }
}
