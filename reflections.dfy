/** EntityReflections: the registry from entity keys to entity classes, and the naming
    conventions that find, for an entity class, its form, filter, repository, entity
    builder and query builder.

    Classpath scanning and the Spring application context are given as data: the
    scanned types in scan order, the set of class names `Class.forName` resolves, and
    the beans registered by class and by name. */
module Reflections {
  import opened Wrappers
  import opened Text
  import opened Model
  import opened Persistence
  import opened QueryBuilder

  /** The default `domainPackagePrefix` and `appPackagePrefix` of `@CRUDZillaGlobalConfig`. */
  const DefaultDomainPrefix: string := ".domain"
  const DefaultAppPrefix: string := ".app"

  const FormSuffix: string := "Form"
  const FilterSuffix: string := "Filtro"
  const RepositorySuffix: string := "Repository"
  const BuilderSuffix: string := "EntityBuilder"
  const QueryBuilderSuffix: string := "QueryBuilder"
  const GenericRepositoryBean: string := "GenericRepository"
  const DefaultBuilderBean: string := "CRUDZillaDefaultEntityBuilder"
  const GenericQueryBuilderBean: string := "GenericQueryBuilder"

  /** The beans of one kind in the application context: by their class, and by bean name. */
  datatype Beans<B> = Beans(byClass: map<ClassName, B>, byName: map<string, B>)

  /** The registry built from the scanned types: each type carrying `@CRUDZillaConfig`
      is entered under its key, and a later type with the same key replaces an earlier one. */
  function EntitiesMapOf(types: seq<ClassDecl>): (m: map<string, ClassDecl>)
    ensures forall k :: k in m ==> m[k] in types && DeclaresKey(m[k], k)
  {
    if |types| == 0 then map[]
    else
      var last := types[|types| - 1];
      var m := EntitiesMapOf(types[..|types| - 1]);
      if last.config.Some? then m[last.config.value.key := last] else m
  }

  /** The type is annotated and declares the key. */
  predicate DeclaresKey(c: ClassDecl, key: string) {
    c.config.Some? && c.config.value.key == key
  }

  /** The position of the last scanned type that declares the key. */
  function LastDeclaring(types: seq<ClassDecl>, key: string): (r: Option<nat>)
    ensures r.None? <==> forall i :: 0 <= i < |types| ==> !DeclaresKey(types[i], key)
    ensures r.Some? ==> r.value < |types| && DeclaresKey(types[r.value], key)
    ensures r.Some? ==> forall i :: r.value < i < |types| ==> !DeclaresKey(types[i], key)
  {
    if |types| == 0 then None
    else if DeclaresKey(types[|types| - 1], key) then Some(|types| - 1)
    else
      var r := LastDeclaring(types[..|types| - 1], key);
      assert forall i :: 0 <= i < |types| - 1 ==> types[i] == types[..|types| - 1][i];
      r
  }

  /** The registry holds exactly the declared keys, each mapped to the last type in scan
      order that declares it. */
  lemma {:induction false} EntitiesMapOfDeclared(types: seq<ClassDecl>, key: string)
    ensures key in EntitiesMapOf(types) <==> LastDeclaring(types, key).Some?
    ensures key in EntitiesMapOf(types) ==> EntitiesMapOf(types)[key] == types[LastDeclaring(types, key).value]
    decreases |types|
  {
    if |types| > 0 && !DeclaresKey(types[|types| - 1], key) {
      EntitiesMapOfDeclared(types[..|types| - 1], key);
    }
  }

  /** getBean: the bean of the class `className + suffix` when that class exists, and
      otherwise the bean named `orDefault`. */
  function GetBean<B>(classpath: set<ClassName>, beans: Beans<B>, className: string, suffix: string, orDefault: string): (r: Result<B>)
    ensures className + suffix in classpath ==>
      (r.Ok? <==> className + suffix in beans.byClass) && (r.Ok? ==> r.value == beans.byClass[className + suffix])
    ensures className + suffix !in classpath ==>
      (r.Ok? <==> orDefault in beans.byName) && (r.Ok? ==> r.value == beans.byName[orDefault])
    ensures r.Err? ==> r.error == NoSuchBean
  {
    var beanClass := className + suffix;
    if beanClass in classpath then
      if beanClass in beans.byClass then Ok(beans.byClass[beanClass]) else Err(NoSuchBean)
    else if orDefault in beans.byName then Ok(beans.byName[orDefault])
    else Err(NoSuchBean)
  }

  class EntityReflections {
    const entitiesMap: map<string, ClassDecl>
    const domainPackageName: string
    const appPackageName: string
    /** The classes `Class.forName` finds. */
    const classpath: set<ClassName>
    const repositories: Beans<RepositoryJpa>
    /** Entity builder beans, by the class that implements them. */
    const entityBuilders: Beans<ClassName>
    const queryBuilders: Beans<QueryBuilder<Row>>

    /** Builds the registry from the scanned types, in scan order. */
    constructor (scanned: seq<ClassDecl>, domainPackageName: string, appPackageName: string,
                 classpath: set<ClassName>, repositories: Beans<RepositoryJpa>,
                 entityBuilders: Beans<ClassName>, queryBuilders: Beans<QueryBuilder<Row>>)
      ensures entitiesMap == EntitiesMapOf(scanned)
      ensures this.domainPackageName == domainPackageName && this.appPackageName == appPackageName
      ensures this.classpath == classpath && this.repositories == repositories
      ensures this.entityBuilders == entityBuilders && this.queryBuilders == queryBuilders
    {
      var m: map<string, ClassDecl> := map[];
      for i := 0 to |scanned|
        invariant m == EntitiesMapOf(scanned[..i])
      {
        assert scanned[..i + 1][..i] == scanned[..i];
        if scanned[i].config.Some? {
          m := m[scanned[i].config.value.key := scanned[i]];
        }
      }
      assert scanned[..|scanned|] == scanned;
      entitiesMap := m;
      this.domainPackageName := domainPackageName;
      this.appPackageName := appPackageName;
      this.classpath := classpath;
      this.repositories := repositories;
      this.entityBuilders := entityBuilders;
      this.queryBuilders := queryBuilders;
    }

    /** getEntityClass: the class registered under the key. */
    function GetEntityClass(key: string): (r: Result<ClassDecl>)
      ensures r.Ok? <==> key in entitiesMap
      ensures r.Ok? ==> r.value == entitiesMap[key]
      ensures r.Err? ==> r.error == KeyNotFound
    {
      if key in entitiesMap then Ok(entitiesMap[key]) else Err(KeyNotFound)
    }

    /** The conventional name of the form of an entity class. */
    function FormClassName(c: ClassDecl): ClassName {
      ReplaceAll(c.Name(), domainPackageName, appPackageName) + FormSuffix
    }

    /** The conventional name of the filter of an entity class. */
    function FilterClassName(c: ClassDecl): ClassName {
      ReplaceAll(c.Name(), domainPackageName, appPackageName) + FilterSuffix
    }

    /** getFormClass: the conventional form class, which must exist. */
    function GetFormClass(c: ClassDecl): (r: Result<ClassName>)
      ensures r.Ok? <==> FormClassName(c) in classpath
      ensures r.Ok? ==> r.value == FormClassName(c)
      ensures r.Err? ==> r.error == FormNotFound
    {
      var name := ReplaceAll(c.Name(), domainPackageName, appPackageName) + FormSuffix;
      if name in classpath then Ok(name) else Err(FormNotFound)
    }

    /** getFilterClassFromKey: the conventional filter class of the registered entity;
        an unknown key is reported before a missing filter. */
    function GetFilterClassFromKey(key: string): (r: Result<ClassName>)
      ensures key !in entitiesMap ==> r == Err(KeyNotFound)
      ensures key in entitiesMap ==>
        (r.Ok? <==> FilterClassName(entitiesMap[key]) in classpath) &&
        (r.Ok? ==> r.value == FilterClassName(entitiesMap[key])) &&
        (r.Err? ==> r.error == FilterNotFound)
    {
      var c :- GetEntityClass(key);
      var name := ReplaceAll(c.Name(), domainPackageName, appPackageName) + FilterSuffix;
      if name in classpath then Ok(name) else Err(FilterNotFound)
    }

    /** The class name whose repository `getRepository` looks for first. */
    function RepositoryBase(c: ClassDecl): string {
      ReplaceAll(c.Name(), appPackageName + ".", domainPackageName + ".")
    }

    /** getRepository(Class): the repository of `<name with app. turned into domain.>Repository`
        when that class exists, and otherwise the bean named "GenericRepository". */
    function GetRepository(c: ClassDecl): (r: Result<RepositoryJpa>)
      ensures RepositoryBase(c) + RepositorySuffix in classpath ==>
        r == (if RepositoryBase(c) + RepositorySuffix in repositories.byClass
              then Ok(repositories.byClass[RepositoryBase(c) + RepositorySuffix]) else Err(NoSuchBean))
      ensures RepositoryBase(c) + RepositorySuffix !in classpath ==>
        r == (if GenericRepositoryBean in repositories.byName
              then Ok(repositories.byName[GenericRepositoryBean]) else Err(NoSuchBean))
    {
      GetBean(classpath, repositories, RepositoryBase(c), RepositorySuffix, GenericRepositoryBean)
    }

    /** getRepository(key): the repository of the registered entity class. */
    function GetRepositoryByKey(key: string): (r: Result<RepositoryJpa>)
      ensures key !in entitiesMap ==> r == Err(KeyNotFound)
      ensures key in entitiesMap ==> r == GetRepository(entitiesMap[key])
    {
      var c :- GetEntityClass(key);
      GetRepository(c)
    }

    /** The class name whose entity builder `getEntityBuilder` looks for first. */
    function BuilderBase(c: ClassDecl): string {
      ReplaceAll(c.Name(), domainPackageName, appPackageName)
    }

    /** getEntityBuilder: `<app name>EntityBuilder` when it exists, else the default builder. */
    function GetEntityBuilder(c: ClassDecl): (r: Result<ClassName>)
      ensures BuilderBase(c) + BuilderSuffix in classpath ==>
        r == (if BuilderBase(c) + BuilderSuffix in entityBuilders.byClass
              then Ok(entityBuilders.byClass[BuilderBase(c) + BuilderSuffix]) else Err(NoSuchBean))
      ensures BuilderBase(c) + BuilderSuffix !in classpath ==>
        r == (if DefaultBuilderBean in entityBuilders.byName
              then Ok(entityBuilders.byName[DefaultBuilderBean]) else Err(NoSuchBean))
    {
      GetBean(classpath, entityBuilders, BuilderBase(c), BuilderSuffix, DefaultBuilderBean)
    }

    /** The class name whose query builder `getQueryBuilder` looks for first: the filter
        class name with every "Filter" deleted. */
    function QueryBuilderBase(filterClass: ClassName): string {
      ReplaceAll(filterClass, "Filter", "")
    }

    /** getQueryBuilder: `<base>QueryBuilder` when it exists, else the generic query builder. */
    function GetQueryBuilder(filterClass: ClassName): (r: Result<QueryBuilder<Row>>)
      ensures QueryBuilderBase(filterClass) + QueryBuilderSuffix in classpath ==>
        r == (if QueryBuilderBase(filterClass) + QueryBuilderSuffix in queryBuilders.byClass
              then Ok(queryBuilders.byClass[QueryBuilderBase(filterClass) + QueryBuilderSuffix]) else Err(NoSuchBean))
      ensures QueryBuilderBase(filterClass) + QueryBuilderSuffix !in classpath ==>
        r == (if GenericQueryBuilderBean in queryBuilders.byName
              then Ok(queryBuilders.byName[GenericQueryBuilderBean]) else Err(NoSuchBean))
    {
      GetBean(classpath, queryBuilders, QueryBuilderBase(filterClass), QueryBuilderSuffix, GenericQueryBuilderBean)
    }
  }

  /** isGetAllDisabled: false for an enum, the annotation's flag otherwise, and an error
      for a class that is not enabled. */
  function IsGetAllDisabled(c: ClassDecl): (r: Result<bool>)
    ensures c.isEnum ==> r == Ok(false)
    ensures !c.isEnum && c.config.None? ==> r == Err(NotImplemented)
    ensures !c.isEnum && c.config.Some? ==> r == Ok(c.config.value.disableGetAll)
  {
    if c.isEnum then Ok(false)
    else if c.config.None? then Err(NotImplemented)
    else Ok(c.config.value.disableGetAll)
  }

  /** An annotation that leaves `disableGetAll` at its default keeps getAll enabled. */
  lemma DefaultConfigEnablesGetAll(c: ClassDecl)
    requires c.config.Some? && c.config.value == DefaultConfig(c.config.value.key)
    ensures IsGetAllDisabled(c) == Ok(false)
  {
  }

  /** The initial property values of a new instance, by field name. */
  function InitialFields(fields: seq<FieldDecl>): (m: map<string, Value>)
    ensures forall f :: f in fields ==> f.name in m
    ensures forall n :: n in m ==> exists f :: f in fields && f.name == n && m[n] == f.initial
  {
    if |fields| == 0 then map[]
    else
      var last := fields[|fields| - 1];
      InitialFields(fields[..|fields| - 1])[last.name := last.initial]
  }

  /** getNewEntity: a fresh instance through the no-argument constructor, with no
      identifier, the class's initial active flag, and every field at its initial value. */
  function NewEntity(c: ClassDecl): (e: EntityObj)
    ensures e.cls == c.Name() && e.id.None?
    ensures IsActive(c, e) == (!c.overridesActive || c.activeInitially)
    ensures forall f :: f in c.fields ==> f.name in e.fields && e.fields[f.name] == InitialFields(c.fields)[f.name]
  {
    EntityObj(c.Name(), None, if c.overridesActive then c.activeInitially else true, InitialFields(c.fields))
  }

  /** When the domain prefix does not occur in an entity class name, its form is the
      same name followed by "Form". */
  lemma FormOfNameWithoutDomain(refl: EntityReflections, c: ClassDecl)
    requires |refl.domainPackageName| > 0 && !Contains(c.Name(), refl.domainPackageName)
    ensures refl.FormClassName(c) == c.Name() + "Form"
  {
    ReplaceAllAbsent(c.Name(), refl.domainPackageName, refl.appPackageName);
  }

  /** A filter class whose name does not contain "Filter" looks for a query builder of
      its full name. */
  lemma QueryBuilderOfNameWithoutFilter(refl: EntityReflections, filterClass: ClassName)
    requires !Contains(filterClass, "Filter")
    ensures refl.QueryBuilderBase(filterClass) == filterClass
  {
    ReplaceAllAbsent(filterClass, "Filter", "");
  }
}
