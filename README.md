# CRUDZilla in Dafny

A model of the core of CRUDZilla, a Spring/JPA library that exposes generic CRUD
operations for every entity class annotated with `@CRUDZillaConfig`. An entity is
addressed by a string key. The library finds the entity's form, filter, repository,
entity builder and query builder by naming conventions. It binds a decoded form onto
a new or stored entity, validates and stores it, and answers searches, option lists
and projections.

The model covers these parts, one Dafny module each:

- `Security`: the authorization decision chain of `CRUDZillaSecurity.check`.
- `Reflections`: the key registry and the name conventions of `EntityReflections`.
- `Facade`: the `CRUDZilla` facade, with `save`, `delete`, `getById`, `getAll`, the
  option mappers, `search`, `getProjection` and `toggleActive`.
- `EntityBuilding`: `EntityBuilder`, which binds a form onto an entity field by field,
  together with the `save` flow it calls back for owned children.
- `Persistence`: `AbstractRepositoryJPA` as specialised by `RepositoryJpa`, over a
  small JPA entity manager. The entity manager keeps an explicit heap of entity
  objects and one table of stored rows per class.
- `EagerLoading`: the cycle-safe traversal of `JPAUtils.initializeObject` over an
  object graph, and its package-prefix test.
- `QueryBuilder` and `Filter`: the search pipeline of `QueryBuilderJPASQL` over an
  abstract query record, and the base `CRUDZillaFilter`.
- `InvalidEntity`, `LimitHandler`, `Options`, `Converters`: the validation exception
  and its message, the SQL Server limit handler, the option DTOs, and the
  Integer/Boolean column converter.
- `Model`, `Text`, `Wrappers`: shared entity/form/config records; the Java string and
  integer operations the core relies on (`Integer.parseInt`, `Integer.toString`,
  `String.replace`, `String.hashCode`, `StringUtils.capitalize`/`uncapitalize`/`isBlank`);
  and `Option`/`Result`.

Java exceptions are `Err` values of one `Error` datatype. A Java `int` is the subset
type `Text.Int32`, and the wrap-around of `String.hashCode` is written out. Objects
whose fields the source updates in place are classes: the option DTOs, the filter,
the exception, the row selection and statement, the entity manager and the
traversal. The mutation of an entity is a change to the entity manager's heap at the
same reference, so the identity of the object is kept.

Foreign services are parameters of the model:

- Jackson decoding of a form or a filter.
- Bean validation.
- The Spring expression evaluator behind `@` security rules.
- `CRUDZillaEntity.getLabel`.
- The concrete query builder's `createQuery`, `getOrderByExpression`, fetch and count.
- The overridden repository queries (`getByTerm`, `getByTermActive`, `getByIds`).
- The classpath seen by `Class.forName`, and the beans of the application context.

## Model

Source paths are relative to the repository root.

Some functions are reference definitions with no row of their own, because the rows of
the members that use them state their properties:
- `Facade.DecodedFilter` is covered by `Facade.BindFilter` and `Facade.DecodedFilterPageBounded`.
- `Facade.ProjectionOutcome` is covered by `Facade.ProjectionOfFirstMatch` and `Facade.InvokeProjection`.
- `Facade.Toggled` is covered by `Facade.ToggleFlipsAndReverts` and `Facade.CRUDZilla.ToggleActive`.

| member | source | states |
|---|---|---|
| Security.FirstRuleFor | src/main/java/io/github/crudzilla/CRUDZillaSecurity.java:46-48 | no rule is found exactly when no rule names the operation; a found rule names it and no earlier rule does |
| Security.RuleDecision | src/main/java/io/github/crudzilla/CRUDZillaSecurity.java:54-67 | `"deny"` rejects, tested before `@`; an `@` rule yields exactly the evaluator's result; otherwise allow iff the authority collection is non-null, non-empty and holds the rule value; no authentication is a NullPointerException |
| Security.Check | src/main/java/io/github/crudzilla/CRUDZillaSecurity.java:32-68 | enum allows; a class without the annotation is NotImplemented; no rule for the operation (including an empty rule list) allows; otherwise the first rule for the operation decides |
| Security.CheckKey | src/main/java/io/github/crudzilla/CRUDZillaSecurity.java:27-30 | an unregistered key is KeyNotFound; otherwise the check of the registered class |
| Security.FirstRuleIgnoresLater | src/main/java/io/github/crudzilla/CRUDZillaSecurity.java:46-48 | appending rules after a rule for the operation does not change which rule is found |
| Security.CheckIgnoresLaterRules | src/main/java/io/github/crudzilla/CRUDZillaSecurity.java:46-52 | later rules for an already guarded operation never change the decision |
| Security.DenyRejectsEveryone | src/main/java/io/github/crudzilla/CRUDZillaSecurity.java:54-56 | a first rule `"deny"` rejects whatever the caller and the evaluator |
| Security.ExpressionIgnoresAuthorities | src/main/java/io/github/crudzilla/CRUDZillaSecurity.java:58-60 | the outcome of an `@` rule is the same for any two callers |
| Security.DefaultSecurityAllowsAll | src/main/java/io/github/crudzilla/CRUDZillaSecurity.java:41-44 | an annotation with the default, empty security allows every operation |
| Model.DefaultConfig | src/main/java/io/github/crudzilla/CRUDZillaConfig.java:14-16 | the annotation's defaults: get-all enabled and no security rules |
| Model.SetActive | src/main/java/io/github/crudzilla/persistency/CRUDZillaEntity.java:7-8 | with the interface defaults `setActive` does nothing and `isActive` stays true; an override stores the flag; nothing else changes |
| Reflections.LastDeclaring | src/main/java/io/github/crudzilla/EntityReflections.java:41-43 | the last scanned type declaring a key: absent iff no type declares it, and no later type declares it |
| Reflections.EntitiesMapOf | src/main/java/io/github/crudzilla/EntityReflections.java:38-45 | every registered key maps to a scanned type that carries the annotation with that key |
| Reflections.EntitiesMapOfDeclared | src/main/java/io/github/crudzilla/EntityReflections.java:38-45 | the registry holds exactly the declared keys, each mapped to the last type in scan order that declares it |
| Reflections.EntityReflections.constructor | src/main/java/io/github/crudzilla/EntityReflections.java:27-45 | the registry filled by the loop equals the registry of the scanned types; prefixes, classpath and beans are kept |
| Reflections.GetBean | src/main/java/io/github/crudzilla/EntityReflections.java:68-75 | the bean of class `className + suffix` when that class exists, else the bean named by the default; a missing bean is NoSuchBean |
| Reflections.EntityReflections.GetEntityClass | src/main/java/io/github/crudzilla/EntityReflections.java:104-110 | succeeds iff the key is registered, with the registered class; otherwise KeyNotFound |
| Reflections.EntityReflections.GetFormClass | src/main/java/io/github/crudzilla/EntityReflections.java:112-120 | the class name with every domain prefix replaced by the app prefix, plus `Form`, iff that class exists; otherwise FormNotFound |
| Reflections.EntityReflections.GetFilterClassFromKey | src/main/java/io/github/crudzilla/EntityReflections.java:94-102 | KeyNotFound for an unknown key first; otherwise the rewritten name plus `Filtro` iff it exists, else FilterNotFound |
| Reflections.EntityReflections.GetRepository | src/main/java/io/github/crudzilla/EntityReflections.java:56-58 | the repository of `<name with app. replaced by domain.>Repository` when that class exists, else the `GenericRepository` bean |
| Reflections.EntityReflections.GetRepositoryByKey | src/main/java/io/github/crudzilla/EntityReflections.java:60-62 | KeyNotFound for an unknown key; otherwise the repository of the registered class |
| Reflections.EntityReflections.GetEntityBuilder | src/main/java/io/github/crudzilla/EntityReflections.java:64-66 | the builder of `<name with domain replaced by app>EntityBuilder` when it exists, else `CRUDZillaDefaultEntityBuilder` |
| Reflections.EntityReflections.GetQueryBuilder | src/main/java/io/github/crudzilla/EntityReflections.java:89-91 | the query builder of `<filter name without every "Filter">QueryBuilder` when it exists, else `GenericQueryBuilder` |
| Reflections.IsGetAllDisabled | src/main/java/io/github/crudzilla/EntityReflections.java:77-86 | false for an enum; NotImplemented without the annotation; otherwise the annotation's flag |
| Reflections.DefaultConfigEnablesGetAll | src/main/java/io/github/crudzilla/CRUDZillaConfig.java:14 | an annotation with the default flag keeps get-all enabled |
| Reflections.InitialFields | src/main/java/io/github/crudzilla/EntityReflections.java:47-54 | every declared field of a new instance holds its declared initial value |
| Reflections.NewEntity | src/main/java/io/github/crudzilla/EntityReflections.java:47-54 | a new instance has the class, no identifier and every declared field at its initial value; it is active exactly when the class keeps the interface default or its own flag starts true |
| Reflections.FormOfNameWithoutDomain | src/main/java/io/github/crudzilla/EntityReflections.java:112-116 | a class name without the domain prefix looks for its own name followed by `Form` |
| Reflections.QueryBuilderOfNameWithoutFilter | src/main/java/io/github/crudzilla/EntityReflections.java:89-91 | a filter name without `Filter` looks for a query builder of its full name |
| Text.ParseInt | src/main/java/io/github/crudzilla/persistency/RepositoryJpa.java:25 | succeeds iff the text is an optionally signed run of ASCII digits whose value fits a Java int, with that value; otherwise NumberFormat |
| Text.IntToString | src/main/java/io/github/crudzilla/CRUDZilla.java:104 | a non-empty text: a minus sign exactly for a negative number, then only digits |
| Text.ParseIntToString | src/main/java/io/github/crudzilla/persistency/RepositoryJpa.java:25 | parsing the decimal text of any Java int gives that int back |
| Text.DecimalDigitsValue | src/main/java/io/github/crudzilla/persistency/RepositoryJpa.java:25 | the digits written for a natural number read back as that number |
| Text.ReplaceAll | src/main/java/io/github/crudzilla/EntityReflections.java:114-116 | an empty target inserts the replacement around every character; a target as long as its replacement keeps the length; a string shorter than the target is unchanged |
| Text.ReplaceAllAbsent | src/main/java/io/github/crudzilla/EntityReflections.java:114-116 | `String.replace` leaves a string without the target unchanged |
| Text.ReplaceAllSelf | src/main/java/io/github/crudzilla/EntityReflections.java:114-116 | replacing a target by itself leaves the string unchanged, as with equal domain and app prefixes |
| Text.Capitalize | src/main/java/io/github/crudzilla/EntityBuilder.java:117 | same length; only the first character may change, from lower to upper case |
| Text.Uncapitalize | src/main/java/io/github/crudzilla/persistency/AbstractRepositoryJPA.java:173 | same length; only the first character may change, from upper to lower case |
| Text.UncapitalizeCapitalize | src/main/java/io/github/crudzilla/EntityBuilder.java:117 | uncapitalizing a capitalized lower-case name gives it back |
| Text.StringHash | src/main/java/io/github/crudzilla/querybuilder/CRUDZillaFilter.java:84 | a Java int: 0 for the empty string and the character's code for a single character |
| Text.Wrap32 | src/main/java/io/github/crudzilla/querybuilder/CRUDZillaFilter.java:84 | two's-complement truncation: congruent modulo 2^32, the identity on Java ints |
| Converters.ToDatabaseColumn | src/main/java/io/github/crudzilla/persistency/converters/IntToBooleanConverter.java:10-16 | null iff null; otherwise 0 or 1, and 1 exactly for true |
| Converters.ToEntityAttribute | src/main/java/io/github/crudzilla/persistency/converters/IntToBooleanConverter.java:19-25 | null iff null; otherwise true exactly for a non-zero value |
| Converters.EntityRoundTrip | src/main/java/io/github/crudzilla/persistency/converters/IntToBooleanConverter.java:10-25 | every Boolean, null included, survives column-and-back |
| Converters.ColumnRoundTrip | src/main/java/io/github/crudzilla/persistency/converters/IntToBooleanConverter.java:10-25 | a column value survives entity-and-back exactly when it is null, 0 or 1 |
| LimitHandler.RowSelection.constructor | src/main/java/io/github/crudzilla/persistency/sqlserver/SQLServerLimitHandler.java:46-55 | a selection holds the given first row and row limit |
| LimitHandler.HasMaxRows | src/main/java/io/github/crudzilla/persistency/sqlserver/SQLServerLimitHandler.java:29 | a selection asks for a row limit exactly when it is present and its limit is positive |
| LimitHandler.Statement.SetInt | src/main/java/io/github/crudzilla/persistency/sqlserver/SQLServerLimitHandler.java:53-54 | binding sets exactly the parameter at the index |
| LimitHandler.ProcessSql | src/main/java/io/github/crudzilla/persistency/sqlserver/SQLServerLimitHandler.java:25-38 | unchanged without a row limit; with one, the SQL followed by the offset/fetch clause when it has `" order by "`, and otherwise the SQL, `" order by 1 asc "` and the clause |
| LimitHandler.ProcessSqlPlaceholders | src/main/java/io/github/crudzilla/persistency/sqlserver/SQLServerLimitHandler.java:25-59 | the rewritten SQL has exactly two more `?` with a row limit and none more without, matching the parameters bound |
| LimitHandler.BindAtStart | src/main/java/io/github/crudzilla/persistency/sqlserver/SQLServerLimitHandler.java:40-43 | binds nothing and reports 0 |
| LimitHandler.BindAtEnd | src/main/java/io/github/crudzilla/persistency/sqlserver/SQLServerLimitHandler.java:45-59 | with a row limit: a null first row becomes 0, first row bound at `index`, limit at `index + 1`, reports 2; otherwise nothing changes and it reports 0 |
| InvalidEntity.ViolationMessages | src/main/java/io/github/crudzilla/persistency/InvalidEntityException.java:19-24 | one message per violation, in order |
| InvalidEntity.InvalidEntityException.FromViolations | src/main/java/io/github/crudzilla/persistency/InvalidEntityException.java:19-24 | the loop stores exactly the violation messages |
| InvalidEntity.InvalidEntityException.FromNonEmptyList | src/main/java/io/github/crudzilla/persistency/InvalidEntityException.java:31-43 | a non-empty list is stored as given |
| InvalidEntity.FromList | src/main/java/io/github/crudzilla/persistency/InvalidEntityException.java:31-43 | fails exactly on an empty list, from `get(0)`; otherwise stores the list as given |
| InvalidEntity.FromMessage | src/main/java/io/github/crudzilla/persistency/InvalidEntityException.java:50-60 | a single message is stored as a one-element list |
| InvalidEntity.InvalidEntityException.GetMensagens | src/main/java/io/github/crudzilla/persistency/InvalidEntityException.java:62-64 | the stored list, unchanged |
| InvalidEntity.InvalidEntityException.GetMessage | src/main/java/io/github/crudzilla/persistency/InvalidEntityException.java:66-75 | the loop builds the header, each message followed by two spaces and a line break, then a line break |
| InvalidEntity.MessageLinesAppend | src/main/java/io/github/crudzilla/persistency/InvalidEntityException.java:70-72 | the message lines of two lists concatenate |
| InvalidEntity.MessageLinesSplit | src/main/java/io/github/crudzilla/persistency/InvalidEntityException.java:70-72 | the lines are those before a message, its own line, and those after it |
| InvalidEntity.MessageTextListsEachMessage | src/main/java/io/github/crudzilla/persistency/InvalidEntityException.java:66-75 | every message appears in the text, at the position after the header and the earlier lines |
| InvalidEntity.MessageLinesLength | src/main/java/io/github/crudzilla/persistency/InvalidEntityException.java:70-72 | the lines are the messages plus one line end per message |
| Options.StringEquals | src/main/java/io/github/crudzilla/pojo/SelectOption.java:37 | a null receiver raises NullPointerException; otherwise true iff the strings are equal |
| Options.NullableHash | src/main/java/io/github/crudzilla/pojo/SelectOption.java:42 | a null string raises NullPointerException; otherwise the Java string hash |
| Options.StringEqualsHash | src/main/java/io/github/crudzilla/pojo/SelectOption.java:30-43 | equal strings have equal hashes |
| Options.SelectOption.Empty | src/main/java/io/github/crudzilla/pojo/SelectOption.java:8 | both fields null |
| Options.SelectOption.constructor | src/main/java/io/github/crudzilla/pojo/SelectOption.java:10-13 | `(value, text)` in that order are stored |
| Options.SelectOption.SetText | src/main/java/io/github/crudzilla/pojo/SelectOption.java:15-17 | sets `text` only |
| Options.SelectOption.SetValue | src/main/java/io/github/crudzilla/pojo/SelectOption.java:19-21 | sets `value` only |
| Options.SelectOption.Equals | src/main/java/io/github/crudzilla/pojo/SelectOption.java:30-38 | true for the same reference; false for null or another class; otherwise compares `text` only, raising on a null `text` |
| Options.SelectOption.HashCode | src/main/java/io/github/crudzilla/pojo/SelectOption.java:40-43 | the hash of `text`; NullPointerException when it is null |
| Options.SelectOptionHashConsistent | src/main/java/io/github/crudzilla/pojo/SelectOption.java:30-43 | equal options have equal hash codes |
| Options.SelectOptionEqualsSymmetric | src/main/java/io/github/crudzilla/pojo/SelectOption.java:30-38 | a successful equality holds the other way round |
| Options.MultiselectOption.Empty | src/main/java/io/github/crudzilla/pojo/MultiselectOption.java:8 | both fields null |
| Options.MultiselectOption.constructor | src/main/java/io/github/crudzilla/pojo/MultiselectOption.java:10-13 | `(id, value)` are stored |
| Options.MultiselectOption.SetId | src/main/java/io/github/crudzilla/pojo/MultiselectOption.java:15-17 | sets `id` only |
| Options.MultiselectOption.SetValue | src/main/java/io/github/crudzilla/pojo/MultiselectOption.java:19-21 | sets `value` only |
| Options.MultiselectOption.Equals | src/main/java/io/github/crudzilla/pojo/MultiselectOption.java:30-38 | reflexive; false for null or another class; otherwise compares `id` only |
| Options.MultiselectOption.HashCode | src/main/java/io/github/crudzilla/pojo/MultiselectOption.java:40-43 | the hash of `id` |
| Options.MultiselectOptionHashConsistent | src/main/java/io/github/crudzilla/pojo/MultiselectOption.java:30-43 | equal options have equal hash codes |
| Options.AutocompleteOption.Empty | src/main/java/io/github/crudzilla/pojo/AutocompleteOption.java:8 | both fields null |
| Options.AutocompleteOption.constructor | src/main/java/io/github/crudzilla/pojo/AutocompleteOption.java:10-13 | `(id, name)` are stored |
| Options.AutocompleteOption.SetId | src/main/java/io/github/crudzilla/pojo/AutocompleteOption.java:15-17 | sets `id` only |
| Options.AutocompleteOption.SetName | src/main/java/io/github/crudzilla/pojo/AutocompleteOption.java:19-21 | sets `name` only |
| Options.AutocompleteOption.Equals | src/main/java/io/github/crudzilla/pojo/AutocompleteOption.java:30-38 | reflexive; false for null or another class; otherwise compares `id` only |
| Options.AutocompleteOption.HashCode | src/main/java/io/github/crudzilla/pojo/AutocompleteOption.java:40-43 | the hash of `id` |
| Options.AutocompleteOptionHashConsistent | src/main/java/io/github/crudzilla/pojo/AutocompleteOption.java:30-43 | equal options have equal hash codes |
| Filter.CRUDZillaFilter.State | src/main/java/io/github/crudzilla/querybuilder/CRUDZillaFilter.java:15-25 | the snapshot carries every field of the filter |
| Filter.CRUDZillaFilter.constructor | src/main/java/io/github/crudzilla/querybuilder/CRUDZillaFilter.java:15-25 | direction ASC, column `""`, page size 15, offset 0 |
| Filter.CRUDZillaFilter.SetDirecaoOrdenacao | src/main/java/io/github/crudzilla/querybuilder/CRUDZillaFilter.java:31-33 | sets the direction only |
| Filter.CRUDZillaFilter.SetColunaOrdenacao | src/main/java/io/github/crudzilla/querybuilder/CRUDZillaFilter.java:39-41 | sets the column only |
| Filter.CRUDZillaFilter.SetTamanhoPagina | src/main/java/io/github/crudzilla/querybuilder/CRUDZillaFilter.java:47-53 | stores sizes up to 100, negatives included, and 100 for larger ones; the stored size never exceeds 100; nothing else changes |
| Filter.CRUDZillaFilter.SetOffset | src/main/java/io/github/crudzilla/querybuilder/CRUDZillaFilter.java:59-61 | stores any offset unchecked; nothing else changes |
| Filter.CRUDZillaFilter.SetOwnField | src/main/java/io/github/crudzilla/querybuilder/CRUDZillaFilter.java:67-84 | a concrete filter's own field is set; the inherited fields are untouched |
| Filter.CRUDZillaFilter.Equals | src/main/java/io/github/crudzilla/querybuilder/CRUDZillaFilter.java:87-92 | false for null or another runtime class; otherwise true iff every field, inherited or own, is equal |
| Filter.CRUDZillaFilter.HashCode | src/main/java/io/github/crudzilla/querybuilder/CRUDZillaFilter.java:66-85 | the loop yields the string hash of the decimal hashes of the non-null own fields |
| Filter.EqualFiltersHashEqually | src/main/java/io/github/crudzilla/querybuilder/CRUDZillaFilter.java:66-92 | equal filters hash equally |
| Filter.EqualsIsEquivalence | src/main/java/io/github/crudzilla/querybuilder/CRUDZillaFilter.java:87-92 | `equals` is reflexive, symmetric and transitive |
| Filter.PagingDoesNotAffectHash | src/main/java/io/github/crudzilla/querybuilder/CRUDZillaFilter.java:67-84 | filters differing only in page size are unequal but hash alike: the inherited fields do not take part |
| Filter.AllNullHashesToZero | src/main/java/io/github/crudzilla/querybuilder/CRUDZillaFilter.java:67-84 | all-null own fields hash to 0 |
| QueryBuilder.JpaSqlQuery.Where | src/main/java/io/github/crudzilla/querybuilder/QueryBuilderJPASQL.java:102 | appends one predicate, nothing else changes |
| QueryBuilder.JpaSqlQuery.Having | src/main/java/io/github/crudzilla/querybuilder/QueryBuilderJPASQL.java:126 | appends one having clause |
| QueryBuilder.JpaSqlQuery.GroupBy | src/main/java/io/github/crudzilla/querybuilder/QueryBuilderJPASQL.java:67 | appends one grouping |
| QueryBuilder.JpaSqlQuery.AddJoin | src/main/java/io/github/crudzilla/querybuilder/QueryBuilderJPASQL.java:90 | appends one join |
| QueryBuilder.JpaSqlQuery.OrderBy | src/main/java/io/github/crudzilla/querybuilder/QueryBuilderJPASQL.java:142 | appends one order specification |
| QueryBuilder.JpaSqlQuery.LimitOffset | src/main/java/io/github/crudzilla/querybuilder/QueryBuilderJPASQL.java:132-133 | sets limit and offset |
| QueryBuilder.IsColumnSelected | src/main/java/io/github/crudzilla/querybuilder/QueryBuilderJPASQL.java:57-59 | a null selection selects nothing; otherwise a column is selected iff the list holds it |
| QueryBuilder.AddIfColumnSelected | src/main/java/io/github/crudzilla/querybuilder/QueryBuilderJPASQL.java:151-209 | same alias and column kind either way; the path iff the column is selected, else the kind's null sentinel |
| QueryBuilder.AddIfAnyColumnSelected | src/main/java/io/github/crudzilla/querybuilder/QueryBuilderJPASQL.java:188-200 | the path iff any of the columns is selected, else the numeric null sentinel |
| QueryBuilder.AnySelectedSingle | src/main/java/io/github/crudzilla/querybuilder/QueryBuilderJPASQL.java:188-200 | for one column, "any selected" is `isColumnSelected` |
| QueryBuilder.GroupIfColumnSelected | src/main/java/io/github/crudzilla/querybuilder/QueryBuilderJPASQL.java:61-69 | groups iff the column is selected (never for a null selection) |
| QueryBuilder.GroupIfAllColumnsSelected | src/main/java/io/github/crudzilla/querybuilder/QueryBuilderJPASQL.java:71-86 | groups iff every named column is selected, vacuously for none |
| QueryBuilder.AddJoinIfNeeded | src/main/java/io/github/crudzilla/querybuilder/QueryBuilderJPASQL.java:88-98 | an inner or left join is added iff the rendered SQL mentions the table |
| QueryBuilder.FilterIfNotEmpty | src/main/java/io/github/crudzilla/querybuilder/QueryBuilderJPASQL.java:100-104 | an `in` predicate iff the collection is non-null and non-empty |
| QueryBuilder.FilterIfNotEmptyWith | src/main/java/io/github/crudzilla/querybuilder/QueryBuilderJPASQL.java:106-110 | the given predicate iff the collection is non-null and non-empty |
| QueryBuilder.FilterIfNotBlank | src/main/java/io/github/crudzilla/querybuilder/QueryBuilderJPASQL.java:112-116 | the predicate iff the string is not blank |
| QueryBuilder.FilterIfPresent | src/main/java/io/github/crudzilla/querybuilder/QueryBuilderJPASQL.java:118-122 | the predicate iff the item is non-null |
| QueryBuilder.HavingIfPresent | src/main/java/io/github/crudzilla/querybuilder/QueryBuilderJPASQL.java:124-128 | the having clause iff the item is non-null |
| QueryBuilder.AddOrderBy | src/main/java/io/github/crudzilla/querybuilder/QueryBuilderJPASQL.java:137-143 | exactly one order is appended: null direction is ASC, null column is `""` |
| QueryBuilder.AddPaging | src/main/java/io/github/crudzilla/querybuilder/QueryBuilderJPASQL.java:130-135 | limit and offset set iff the page size is not negative |
| QueryBuilder.Build | src/main/java/io/github/crudzilla/querybuilder/QueryBuilderJPASQL.java:43-55 | the rows of the ordered and paged query, with the count of the query before ordering and paging |
| QueryBuilder.CountIgnoresSortAndPaging | src/main/java/io/github/crudzilla/querybuilder/QueryBuilderJPASQL.java:43-47 | filters giving the same filtered query give the same count, whatever their sort and paging |
| QueryBuilder.PagedLimitAtMostMax | src/main/java/io/github/crudzilla/querybuilder/QueryBuilderJPASQL.java:130-135 | after a clamped filter, a limit is set iff the size is not negative, and it is at most 100; predicates and groupings are kept |
| Persistence.EntityManager.constructor | src/main/java/io/github/crudzilla/persistency/RepositoryJpa.java:13-14 | an empty persistence context |
| Persistence.EntityManager.Persist | src/main/java/io/github/crudzilla/persistency/AbstractRepositoryJPA.java:134-137 | a new object is stored under a fresh identifier at the same reference, and is managed |
| Persistence.EntityManager.Merge | src/main/java/io/github/crudzilla/persistency/AbstractRepositoryJPA.java:138 | the managed instance of the identifier takes the object's state; with none, a new managed copy is stored |
| Persistence.EntityManager.MergeOnto | src/main/java/io/github/crudzilla/persistency/AbstractRepositoryJPA.java:138 | the stored instance takes over the object's state; the tables do not change |
| Persistence.EntityManager.MergeAsNew | src/main/java/io/github/crudzilla/persistency/AbstractRepositoryJPA.java:138 | a fresh copy is stored under a generated identifier |
| Persistence.EntityManager.Remove | src/main/java/io/github/crudzilla/persistency/AbstractRepositoryJPA.java:85-87 | a managed object leaves its table, and only its row goes, and it is marked removed; a new or already removed object is ignored; a detached one is IllegalArgument with nothing changed |
| Persistence.RowsFor | src/main/java/io/github/crudzilla/persistency/AbstractRepositoryJPA.java:195-197 | the stored objects of the stored identifiers, in the order given, at matching positions; the object of `ids[i]` at position `i` when all are stored |
| Persistence.StoredIds | src/main/java/io/github/crudzilla/persistency/AbstractRepositoryJPA.java:195-197 | the listed identifiers that are stored, in order; all of them when all are stored |
| Persistence.RowsWithoutAppend | src/main/java/io/github/crudzilla/persistency/AbstractRepositoryJPA.java:99-101 | removing the rows of a list and then of one more object removes the rows of the longer list |
| Persistence.RemoveIdsOutcome | src/main/java/io/github/crudzilla/persistency/AbstractRepositoryJPA.java:92-94 | removing a list succeeds iff its identifiers are stored and distinct, and then removes exactly them |
| Persistence.RemoveIdsStep | src/main/java/io/github/crudzilla/persistency/AbstractRepositoryJPA.java:92-94 | after removing the first stored identifier, the rest are stored and distinct iff the whole list was |
| Persistence.RepositoryJpa.GetEntityManager | src/main/java/io/github/crudzilla/persistency/RepositoryJpa.java:17 | the injected entity manager |
| Persistence.RepositoryJpa.ConvertId | src/main/java/io/github/crudzilla/persistency/RepositoryJpa.java:24-27 | succeeds iff the text is a signed decimal numeral within the int range, with its value; otherwise NumberFormat |
| Persistence.ConvertIdRoundTrip | src/main/java/io/github/crudzilla/persistency/RepositoryJpa.java:24-27 | `convertId(Integer.toString(n)) == n` for every int |
| Persistence.RepositoryJpa.Get | src/main/java/io/github/crudzilla/persistency/AbstractRepositoryJPA.java:43-49 | succeeds iff the identifier is stored, with the stored object of that class and identifier; otherwise EntityNotFound |
| Persistence.RepositoryJpa.GetEagerLoaded | src/main/java/io/github/crudzilla/persistency/AbstractRepositoryJPA.java:59-64 | the same outcome and object as `get` |
| Persistence.RepositoryJpa.RemoveById | src/main/java/io/github/crudzilla/persistency/AbstractRepositoryJPA.java:73-76 | an absent identifier is EntityNotFound and nothing changes; otherwise exactly that row leaves the table |
| Persistence.RepositoryJpa.RemoveEntity | src/main/java/io/github/crudzilla/persistency/AbstractRepositoryJPA.java:85-87 | the entity manager's remove: a managed object's table loses exactly its identifier, the other tables are unchanged, an error leaves the rows as they were, the object is no longer managed, and the set of detached objects is unchanged |
| Persistence.RepositoryJpa.RemoveByIds | src/main/java/io/github/crudzilla/persistency/AbstractRepositoryJPA.java:92-94 | removes in list order until the first missing identifier; the table is the one `RemoveIds` gives; other tables unchanged |
| Persistence.TablesWithoutAppend | src/main/java/io/github/crudzilla/persistency/AbstractRepositoryJPA.java:99-101 | removing the rows of a list of objects and then those of one more object removes the rows of the longer list, in every table |
| Persistence.NoneManaged | src/main/java/io/github/crudzilla/persistency/AbstractRepositoryJPA.java:99-101 | once the rows of a list of objects have left every table, none of those objects is managed |
| Persistence.RepositoryJpa.RemoveEntities | src/main/java/io/github/crudzilla/persistency/AbstractRepositoryJPA.java:99-101 | fails iff some listed object is detached, at the first one, having removed the rows of the objects before it; on success exactly the rows of the listed objects are gone and none of them is managed |
| Persistence.RepositoryJpa.GetQEntity | src/main/java/io/github/crudzilla/persistency/AbstractRepositoryJPA.java:169-178 | succeeds iff `<package>.Q<SimpleName>` exists with a field named by the uncapitalized simple name; otherwise EntityNotMapped |
| Persistence.RepositoryJpa.GetAll | src/main/java/io/github/crudzilla/persistency/AbstractRepositoryJPA.java:108-110 | EntityNotMapped iff the metamodel is missing; otherwise every stored object of the class, each once |
| Persistence.RepositoryJpa.Validate | src/main/java/io/github/crudzilla/persistency/AbstractRepositoryJPA.java:149-154 | fails iff there are violations, with their messages |
| Persistence.RepositoryJpa.Put | src/main/java/io/github/crudzilla/persistency/AbstractRepositoryJPA.java:132-139 | validates first and leaves the store unchanged on violations; a new object is stored under a fresh identifier and returned itself; a managed one is returned unchanged; a detached one is copied onto the stored instance of its identifier, which is returned, or, with none, stored as a fresh copy under a new identifier |
| Persistence.RepositoryJpa.GetByTerm | src/main/java/io/github/crudzilla/persistency/AbstractRepositoryJPA.java:191-193 | NotImplemented unless overridden; an override returns stored objects |
| Persistence.RepositoryJpa.GetByTermActive | src/main/java/io/github/crudzilla/persistency/AbstractRepositoryJPA.java:199-201 | NotImplemented unless overridden; an override returns stored objects |
| Persistence.RepositoryJpa.GetByIds | src/main/java/io/github/crudzilla/persistency/AbstractRepositoryJPA.java:195-197 | NotImplemented unless overridden; an override (a parameter of the model, as for the term queries) selects identifiers, and the result is the stored objects of the stored ones among them, position by position |
| Persistence.RepositoryJpa.GetByIdsIn | src/main/java/io/github/crudzilla/persistency/AbstractRepositoryJPA.java:195-197 | the same answer, with the same override, over given stored rows, as the relationship strategies see them |
| EagerLoading.IsClassInPackage | src/main/java/io/github/crudzilla/persistency/JPAUtils.java:115-135 | the byte loop answers true iff the class has a package whose name starts with the given text |
| EagerLoading.NoPackageNeverInside | src/main/java/io/github/crudzilla/persistency/JPAUtils.java:116-119 | a class without a package is never inside |
| EagerLoading.PrefixIgnoresSegments | src/main/java/io/github/crudzilla/persistency/JPAUtils.java:126-134 | every package whose name extends the text counts as inside, whatever follows it (`br.govx` is inside `br.gov`): the test ignores package segments |
| EagerLoading.Traversal.Visit | src/main/java/io/github/crudzilla/persistency/JPAUtils.java:26-88 | the object joins the visited set before its getters are walked; on success every object walked in the call is fully explored |
| EagerLoading.Traversal.WalkMethods | src/main/java/io/github/crudzilla/persistency/JPAUtils.java:29-86 | the loop explores every method of the object, each getter returning and each qualifying child visited |
| EagerLoading.Traversal.VisitMethod | src/main/java/io/github/crudzilla/persistency/JPAUtils.java:31-85 | only public non-static zero-argument `get` methods are invoked; a throwing one is a RuntimeException; null, seen and leaf results are skipped |
| EagerLoading.Traversal.VisitChild | src/main/java/io/github/crudzilla/persistency/JPAUtils.java:72-80 | a child in the package or a Hibernate collection is initialized, then walked |
| EagerLoading.Traversal.RecordCall | src/main/java/io/github/crudzilla/persistency/JPAUtils.java:57 | the invocation of a getter is recorded, nothing else changes |
| EagerLoading.InitializeObjectIn | src/main/java/io/github/crudzilla/persistency/JPAUtils.java:21-24 | from an empty set: each object (by equality) is walked at most once, the walked ones are the root and the initialized ones, only descendable children are initialized, only getters are invoked |
| EagerLoading.InitializeObject | src/main/java/io/github/crudzilla/persistency/JPAUtils.java:17-19 | the walk restricted to `br.gov` |
| EntityBuilding.StrategyOf | src/main/java/io/github/crudzilla/EntityBuilder.java:44-52 | simple iff the field has no relationship annotation; otherwise the first annotation present in the order ManyToMany, OneToMany (with its `mappedBy`), ManyToOne, ElementCollection |
| EntityBuilding.FormFieldIndex | src/main/java/io/github/crudzilla/EntityBuilder.java:74 | the first declared form field with the name, absent iff none has it |
| EntityBuilding.ModelMap | src/main/java/io/github/crudzilla/EntityBuilder.java:40 | copyable same-named properties take the form's value; the others keep theirs |
| EntityBuilding.ModelMapDisjoint | src/main/java/io/github/crudzilla/EntityBuilder.java:40 | a form declaring none of the entity's properties changes nothing |
| EntityBuilding.MapForm | src/main/java/io/github/crudzilla/EntityBuilder.java:40 | class and identifier are kept, the properties are what ModelMap gives, and a boolean `active` of the form goes through setActive: an override takes it, the interface default stays active; without one the flag is kept |
| EntityBuilding.ElementCollectionOutcome | src/main/java/io/github/crudzilla/EntityBuilder.java:62-67 | without a counterpart the field is skipped; otherwise as written; the new collection is exactly the form's elements |
| EntityBuilding.EmptyListOneValue | src/main/java/io/github/crudzilla/EntityBuilder.java:62-67 | an empty form list is read the same whichever kind it was decoded as, by the scalar view and the sub-form view alike |
| EntityBuilding.ElementCollectionAsWritten | src/main/java/io/github/crudzilla/EntityBuilder.java:62-67 | as written: succeeds iff the entity collection is non-null and the form holds a list of scalars under the name (an empty list of either kind counts), and then yields exactly its elements; a null collection or a missing or null form property is NullPointerException; the rest ClassCastException |
| EntityBuilding.ElementCollectionMissingCounterpart | src/main/java/io/github/crudzilla/EntityBuilder.java:62-67 | as written, a form without the property fails the build with a NullPointerException; the corrected outcome skips it |
| EntityBuilding.ElementCollectionCopiesElements | src/main/java/io/github/crudzilla/EntityBuilder.java:62-67 | after the strategy the entity collection holds exactly the form's elements |
| EntityBuilding.EntityBuilder.ManyToOneOutcome | src/main/java/io/github/crudzilla/EntityBuilder.java:73-92 | skipped without a counterpart or on an id-type mismatch; a null id sets null; otherwise the stored referenced object of the given rows, whose absence is EntityNotFound |
| EntityBuilding.EntityBuilder.IdsOf | src/main/java/io/github/crudzilla/EntityBuilder.java:132 | the identifiers of an all-int list, one per element in order |
| EntityBuilding.EntityBuilder.ManyToManyOutcome | src/main/java/io/github/crudzilla/EntityBuilder.java:116-135 | reads `ids<Name>`; skipped without it or on an element-type mismatch; a value that is not a list is ClassCast, and without an override any list is NotImplemented; an empty list is one value whichever kind carries it; otherwise exactly what `getByIds` returns over the given rows |
| EntityBuilding.EntityBuilder.SetField | src/main/java/io/github/crudzilla/EntityBuilder.java:144-149 | sets exactly one property of the object in place |
| EntityBuilding.EntityBuilder.ProcessManyToOne | src/main/java/io/github/crudzilla/EntityBuilder.java:73-92 | the reference becomes what ManyToOneOutcome says over the current rows; on an error nothing changes |
| EntityBuilding.EntityBuilder.ProcessManyToMany | src/main/java/io/github/crudzilla/EntityBuilder.java:116-135 | the collection becomes what ManyToManyOutcome says; a null or non-collection property fails with nothing changed, and every later error leaves the collection cleared, as the clear comes before the repository lookup and `getByIds` |
| EntityBuilding.EntityBuilder.ProcessElementCollection | src/main/java/io/github/crudzilla/EntityBuilder.java:62-67 | the collection becomes what ElementCollectionOutcome says; a null or non-collection property fails with nothing changed, and a null or non-list form value fails with the collection already cleared |
| EntityBuilding.SetPropertyTwice | src/main/java/io/github/crudzilla/EntityBuilder.java:127-133 | clearing a property and then filling it leaves only the filled value |
| EntityBuilding.EntityBuilder.ProcessOneToMany | src/main/java/io/github/crudzilla/EntityBuilder.java:94-114 | skipped iff `<name>Forms` or the element class is missing; then, in the source's order: a single form value is ClassCast, a null entity collection NullPointerException and a non-collection value ClassCast, all with nothing changed; otherwise the step ends as OneToManyStep says, and on success the collection holds the new children |
| EntityBuilding.EntityBuilder.Refill | src/main/java/io/github/crudzilla/EntityBuilder.java:98-113 | the collection is cleared first; a null form list is then NullPointerException and a list of non-forms ClassCastException, each leaving an empty collection; otherwise the children's loop ends as Refilled says: one saved child per sub-form in order, or a failed child with the earlier ones in the collection |
| EntityBuilding.EntityBuilder.SaveChildren | src/main/java/io/github/crudzilla/EntityBuilder.java:103-113 | each sub-form is saved without persisting, with its `mappedBy` property set to the parent, and added to the collection before the next is saved; on success the collection holds one child per sub-form in order; a failing save stops the loop with the earlier children in the collection |
| EntityBuilding.HoldsSavedAdd | src/main/java/io/github/crudzilla/EntityBuilder.java:103-113 | adding the child saved from the next sub-form keeps the collection holding saved children in sub-form order |
| EntityBuilding.EntityBuilder.SaveChild | src/main/java/io/github/crudzilla/EntityBuilder.java:103-113 | one sub-form is saved without storing it, with its `mappedBy` property set to the parent |
| EntityBuilding.EntityBuilder.ProcessField | src/main/java/io/github/crudzilla/EntityBuilder.java:42-55 | the field is handled as its strategy says: a simple field is left alone, and each relationship field gets its strategy's outcome or its error; a many-to-one error changes nothing, and a many-to-many or element-collection error after the clear leaves the collection empty |
| EntityBuilding.EntityBuilder.ProcessFields | src/main/java/io/github/crudzilla/EntityBuilder.java:42-56 | the loop handles the fields in declaration order, each as ProcessField says, continuing past skipped fields; it stops at the first error, which is its outcome, and completes otherwise |
| EntityBuilding.EntityBuilder.TracedAllSimple | src/main/java/io/github/crudzilla/EntityBuilder.java:42-56 | when every field is simple, the loop completes and changes nothing |
| EntityBuilding.EntityBuilder.TracedKeepsIdentity | src/main/java/io/github/crudzilla/EntityBuilder.java:42-56 | no field handled changes the class or identifier of an object |
| EntityBuilding.EntityBuilder.BuildNew | src/main/java/io/github/crudzilla/EntityBuilder.java:38-59 | the model-mapped object, then each field in order as ProcessField says, until the first error, which is the outcome; otherwise the same object is returned; with only simple fields it is exactly the model-mapped object |
| EntityBuilding.EntityBuilder.BuildExisting | src/main/java/io/github/crudzilla/EntityBuilder.java:69-71 | the same contract as buildNew |
| EntityBuilding.EntityBuilder.ApplyHook | src/main/java/io/github/crudzilla/CRUDZilla.java:67-69 | no hook changes nothing; the `mappedBy` hook sets that property to the parent |
| EntityBuilding.EntityBuilder.Finish | src/main/java/io/github/crudzilla/CRUDZilla.java:67-71 | the hook runs on the built object; with skip-persist it is returned unstored, otherwise `put` stores it |
| EntityBuilding.EntityBuilder.BuildFresh | src/main/java/io/github/crudzilla/CRUDZilla.java:59-61 | a new instance of the class, with no identifier, is added and built, its trace as BuildNew states it |
| EntityBuilding.EntityBuilder.SaveNew | src/main/java/io/github/crudzilla/CRUDZilla.java:59-61 | a fresh object of the class is added and built as BuildNew says, a stopped build being the outcome; no stored object changes identity; the hook applies and the result is stored unless skipped |
| EntityBuilding.EntityBuilder.SaveExisting | src/main/java/io/github/crudzilla/CRUDZilla.java:62-65 | the stored object of the identifier is built onto as BuildNew says, a stopped build being the outcome; a missing one is EntityNotFound with nothing changed |
| EntityBuilding.EntityBuilder.Save | src/main/java/io/github/crudzilla/CRUDZilla.java:53-72 | NoSuchBean without repository or builder; a null id builds a fresh object and a non-null id the stored one, each with its build trace; the hook applies; skip-persist stores nothing, otherwise the result is managed |
| Facade.Entries | src/main/java/io/github/crudzilla/CRUDZilla.java:101-106 | one `(id text, label)` entry per object in order; a null id is a NullPointerException |
| Facade.EntryIdsConvertBack | src/main/java/io/github/crudzilla/CRUDZilla.java:124-136 | every identifier text an option list shows converts back to the object's id |
| Facade.AutocompleteOptions | src/main/java/io/github/crudzilla/CRUDZilla.java:100-107 | one new option per entry, same order and length |
| Facade.MultiselectOptions | src/main/java/io/github/crudzilla/CRUDZilla.java:140-142 | one new option per entry, same order and length |
| Facade.GetTypes | src/main/java/io/github/crudzilla/CRUDZilla.java:145-150 | one SelectOption `(id, descricao)` per enum constant in order; a non-enum is a NullPointerException |
| Facade.GetTypesAsMultiselect | src/main/java/io/github/crudzilla/CRUDZilla.java:152-157 | one MultiselectOption per enum constant in order |
| Facade.DecodedFilterPageBounded | src/main/java/io/github/crudzilla/querybuilder/CRUDZillaFilter.java:21-53 | a decoded filter pages 15 rows by default, at most 100, and leaves the query unlimited only for a negative size |
| Facade.BindFilter | src/main/java/io/github/crudzilla/CRUDZilla.java:163 | the new filter holds the decoded values |
| Facade.FirstProjection | src/main/java/io/github/crudzilla/CRUDZilla.java:171-178 | the first declared method with the name and no parameters |
| Facade.ProjectionOfFirstMatch | src/main/java/io/github/crudzilla/CRUDZilla.java:167-182 | succeeds iff such a method exists and its invocation does, with its result; otherwise CRUDZillaProjectionNotFound |
| Facade.InvokeProjection | src/main/java/io/github/crudzilla/CRUDZilla.java:167-182 | the loop gives the projection outcome |
| Facade.ToggleFlipsAndReverts | src/main/java/io/github/crudzilla/CRUDZilla.java:189 | an override flips the flag and toggling twice restores it; with the interface defaults the object is unchanged and stays active |
| Facade.CRUDZilla.Target | src/main/java/io/github/crudzilla/CRUDZilla.java:76-85 | the repository of the key and the parsed id; KeyNotFound, NoSuchBean or NumberFormat otherwise |
| Facade.CRUDZilla.DecodedForm | src/main/java/io/github/crudzilla/CRUDZilla.java:41-44 | KeyNotFound, then FormNotFound, then the decoder's outcome |
| Facade.CRUDZilla.SaveFromString | src/main/java/io/github/crudzilla/CRUDZilla.java:41-51 | decoding errors change nothing; otherwise the form is saved with no hook and persisted |
| Facade.CRUDZilla.Delete | src/main/java/io/github/crudzilla/CRUDZilla.java:76-79 | exactly the row of the parsed id leaves the table; an absent id is EntityNotFound |
| Facade.CRUDZilla.GetById | src/main/java/io/github/crudzilla/CRUDZilla.java:81-85 | the stored object of the parsed id, or EntityNotFound |
| Facade.CRUDZilla.GetAllSource | src/main/java/io/github/crudzilla/CRUDZilla.java:87-92 | a disabled get-all is EntityNotFound before any repository is looked up |
| Facade.CRUDZilla.GetAll | src/main/java/io/github/crudzilla/CRUDZilla.java:87-94 | every stored object of the class, each once, unless disabled |
| Facade.CRUDZilla.GetAllMultiselect | src/main/java/io/github/crudzilla/CRUDZilla.java:138-143 | getAll's errors, else one option per stored object |
| Facade.CRUDZilla.GetAutocompleteByTerm | src/main/java/io/github/crudzilla/CRUDZilla.java:96-108 | one option per object of the term query, in order; NotImplemented without an override |
| Facade.CRUDZilla.GetAutocompleteByTermActive | src/main/java/io/github/crudzilla/CRUDZilla.java:110-122 | the same for the active-only query |
| Facade.CRUDZilla.GetAutocompleteByIds | src/main/java/io/github/crudzilla/CRUDZilla.java:124-136 | every id text is converted first (NumberFormat otherwise), then one option per object found |
| Facade.ConvertIds | src/main/java/io/github/crudzilla/CRUDZilla.java:127 | succeeds iff every text converts, with the converted ids in order |
| Facade.CRUDZilla.SearchSetup | src/main/java/io/github/crudzilla/CRUDZilla.java:160-163 | the filter class, its query builder and the decoded filter |
| Facade.CRUDZilla.Search | src/main/java/io/github/crudzilla/CRUDZilla.java:160-165 | the query builder's result for the decoded filter, paging at most 100 rows |
| Facade.CRUDZilla.GetProjection | src/main/java/io/github/crudzilla/CRUDZilla.java:167-182 | the projection outcome over the repository's declared methods |
| Facade.CRUDZilla.ToggleActive | src/main/java/io/github/crudzilla/CRUDZilla.java:185-191 | the stored object takes the toggled flag, then `put` validates it; tables are unchanged |

## Left out

- Classpath scanning, the application context and `Class.forName` are given as data:
  the scanned types, the set of loadable class names, and bean maps by class and by name.
- `Reflections.NewEntity`: the reflective no-argument constructor call is modelled as
  the declared initial field values; its failure (a class without a public
  constructor) is not modelled.
- Jackson decoding of a form and of the search parameters, bean validation, the Spring
  expression evaluator behind `@` rules, `getLabel`, and the overridden repository
  queries are function parameters.
- `Facade.Entries`: labels come from a given function of the object rather than from
  each entity class's own `getLabel`.
- Custom entity builders: `getEntityBuilder` is modelled, but `save` always runs the
  default `EntityBuilder`.
- ModelMapper copies only same-named simple properties whose form value is a scalar or
  a scalar list. Its deep and fuzzy matching is not modelled.
- `getDeclaredMethod("getId")` is assumed to exist; the class's id type is a given field.
- Hibernate lazy loading is not modelled. `EagerLoading` walks an abstract object graph
  on its own, and `Persistence.RepositoryJpa.GetEagerLoaded` returns the `get` result.
- JPA semantics beyond persist/merge/remove/find over the heap: flushing, merge
  cascades, proxies and dirty checking.
- Transactions and rollback. In particular a `put` rejected inside `toggleActive`
  leaves the flipped flag on the managed object, as the contract says.
- Collections are sequences; `Set`-typed associations and aliasing between collections
  are not modelled.
- QueryDSL SQL rendering, execution and `getCount`'s subquery are parameters of the
  query builder.
- `EntityBuilding.EntityBuilder.Save`: the before-save hook is either absent or the
  `mappedBy` setter that `processFieldOneToMany` passes. An arbitrary consumer passed
  by other callers is not modelled, and neither is the setter exception it logs and
  swallows.
- `getProjection` ignores its `params` argument in the source too. Exceptions its
  invocation swallows are an error outcome of the declared method.
- `getFormClass`/`getFilterClassFromKey` casts that fail with `ClassCastException` are
  not modelled.
- Exception causes, log output, and the charset of `getBytes` in `JPAUtils`. Strings
  are sequences of characters compared one by one.
- `Text.ParseInt` accepts ASCII digits only. `Integer.parseInt` also accepts other
  Unicode decimal digits.
- `Text.Capitalize`: only an ASCII initial is upper-cased. Java's `StringUtils`
  title-cases any letter.
- `Text.Uncapitalize`: only an ASCII initial is lower-cased. Java's `StringUtils`
  lower-cases any letter.
- `Text.StringHash`: characters are hashed as code points. Java hashes UTF-16 units, so
  the two differ for characters outside the Basic Multilingual Plane.
- `EntityBuilding.EntityBuilder.ProcessElementCollection`: the field loop runs the
  corrected outcome, which skips a field without a form counterpart. So `save` does not
  raise the NullPointerException that the as-written lines throw (see "## Findings"), and
  such a field keeps its collection, which the as-written lines empty before failing.
- `EntityBuilding.EntityBuilder.ManyToManyOutcome`: a `getByIds` override is a function
  from identifiers to identifiers. One handed a null list is taken to raise
  NullPointerException, and one handed elements that are not ints ClassCastException.
- `Persistence.EntityManager.Merge`: merging an object removed in the same context is
  not rejected. JPA raises IllegalArgumentException there; the model merges it as a
  detached object.
- The query builder reads a filter through `getSortOrder`, `getSortColumn` and
  `getPageSize` (QueryBuilderJPASQL.java:131-140), which no class of the library
  declares. The model assumes they return the filter's `direcaoOrdenacao`,
  `colunaOrdenacao` and `tamanhoPagina`.
- Identifiers are ints only: entity ids, stored tables (`map<int, Ref>`) and form
  identifiers. The repositories are generic in their key type, and `convertId` is meant
  to be overridden for other keys; neither is modelled. A many-to-one form identifier
  that is not an int is IllegalArgument in the model, where Java passes it to
  `repository.get`.
- `EntityBuilding.ElementCollectionAsWritten`: a non-empty list of sub-forms where a
  list of scalars is expected is ClassCast. Java's raw `(Collection)` cast lets
  `addAll` copy the form objects in. An empty list is accepted whichever kind it was
  decoded as. `ManyToManyOutcome` treats lists the same way when an override exists.
- `EntityBuilding.EntityBuilder.SaveChildren`: the entity collection is a value. Each
  `add` writes the children saved so far back into the property. A nested save that
  replaces or clears the parent's own collection between two adds is overwritten, where
  Java would append to the shared collection object.
- The Hibernate dialect glue, the controller and the SpEL wiring are outside the core.

Behaviour of the code a reader might not expect:

- A later scanned type with a duplicate key silently replaces the earlier one.
- The registry's collaborators are looked up on every call, not remembered.
- `addOrderBy` passes `""` for a null column; `DEFAULT_SORTING` is never used.
- The offset is stored unchecked and may be negative.
- The JPAUtils visited set is a `HashSet`, so it compares objects by `equals` (the
  model's `eqKey`), not by identity.
- The package test is a byte prefix test, not aware of package segments.

## Findings

| source | as written | input that shows it | evidently intended | confidence | as-written member | corrected member |
|---|---|---|---|---|---|---|
| src/main/java/io/github/crudzilla/EntityBuilder.java:62-67 | `invokeGetter(form, name)` asks BeanUtils for a property descriptor, which is null when the form has no such property, so a NullPointerException escapes `buildNew`. The other strategies look the form field up with `getDeclaredField`, whose NoSuchFieldException `buildNew` catches and skips. | an entity with an `@ElementCollection` field `tags` bound from a form that declares no `tags` property | the field is skipped and the other fields are still processed | not executed | EntityBuilding.ElementCollectionAsWritten (shown by EntityBuilding.ElementCollectionMissingCounterpart) | EntityBuilding.ElementCollectionOutcome (proved by EntityBuilding.ElementCollectionCopiesElements) |
