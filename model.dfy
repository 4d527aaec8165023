/** The data the core works on: entity and form classes as the reflection calls see
    them, entity objects, forms, and the configuration annotations.

    An entity object lives in the persistence heap and is named by a `Ref`; changing it
    in place is updating the heap at that `Ref`. Class names are fully qualified strings. */
module Model {
  import opened Wrappers

  type ClassName = string

  /** The identity of an entity object in the heap. */
  type Ref = nat

  /** A simple property value. */
  datatype Scalar = Str(s: string) | Int(i: int) | Bool(b: bool)

  /** The value of an entity property: null, a simple value, a reference to another
      entity, or a collection of either. */
  datatype Value =
    | Null
    | Simple(scalar: Scalar)
    | Link(ref: Ref)
    | Scalars(items: seq<Scalar>)
    | Links(refs: seq<Ref>)

  /** The operations a security rule can guard. */
  datatype Operation = Search | Save | Delete | GetById | GetAll

  /** One `@CRUDZillaEntidadeSecurity`: the guarded operation and an authority name,
      `"deny"`, or an `@`-expression. */
  datatype SecurityRule = SecurityRule(operation: Operation, value: string)

  /** `@CRUDZillaConfig`. */
  datatype Config = Config(key: string, disableGetAll: bool, security: seq<SecurityRule>)

  /** The annotation with only its key given: get-all enabled, no security rules. */
  function DefaultConfig(key: string): (c: Config)
    ensures c.key == key && !c.disableGetAll && |c.security| == 0
  {
    Config(key, false, [])
  }

  /** A declared field of an entity class with the JPA annotations the builder looks at.
      `typeName` is the declared type (the referenced class for a to-one link) and
      `elemType` the type argument of a collection. */
  datatype FieldDecl = FieldDecl(
    name: string,
    typeName: ClassName,
    elemType: ClassName,
    manyToMany: bool,
    oneToMany: Option<string>,     // present with its `mappedBy` when annotated
    manyToOne: bool,
    elementCollection: bool,
    initial: Value)                // the value a new instance starts with

  /** A constant of an enum implementing the `Type` interface. */
  datatype TypeConstant = TypeConstant(id: string, descricao: string)

  /** An entity class (or enum) as reflection sees it. */
  datatype ClassDecl = ClassDecl(
    pkg: string,
    simpleName: string,
    isEnum: bool,
    config: Option<Config>,
    fields: seq<FieldDecl>,
    idType: ClassName,             // the return type of `getId`
    overridesActive: bool,         // whether isActive/setActive replace the interface defaults
    activeInitially: bool,         // the initial value of an overriding class's active flag
    enumConstants: seq<TypeConstant>)
  {
    /** Class.getName. */
    function Name(): ClassName {
      if pkg == "" then simpleName else pkg + "." + simpleName
    }
  }

  /** An entity object: its class, identifier, active flag and other properties. */
  datatype EntityObj = EntityObj(cls: ClassName, id: Option<int>, active: bool, fields: map<string, Value>)

  /** CRUDZillaEntity.isActive: the interface default answers true, whatever was set. */
  function IsActive(decl: ClassDecl, e: EntityObj): bool
  {
    if decl.overridesActive then e.active else true
  }

  /** CRUDZillaEntity.setActive: the interface default does nothing. */
  function SetActive(decl: ClassDecl, e: EntityObj, active: bool): (r: EntityObj)
    ensures IsActive(decl, r) == (active || !decl.overridesActive)
    ensures r.cls == e.cls && r.id == e.id && r.fields == e.fields
  {
    if decl.overridesActive then e.(active := active) else e
  }

  /** A row of a search result, by column alias. */
  type Row = map<string, Value>

  /** The value a form property holds. */
  datatype FormValue =
    | FNull
    | FScalar(scalar: Scalar)
    | FScalars(items: seq<Scalar>)
    | FForms(forms: seq<Form>)

  /** A declared form field: its name, its type, its collection element type, and its value. */
  datatype FormField = FormField(name: string, typeName: ClassName, elemType: ClassName, value: FormValue)

  /** A decoded form: its class, its identifier (null for a new entity) and its declared
      fields in declaration order. */
  datatype Form = Form(formClass: ClassName, id: Option<int>, fields: seq<FormField>)
}
