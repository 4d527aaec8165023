/** QueryBuilderJPASQL: the search pipeline shared by every query builder (create the
    filtered query, count it, order it, page it, fetch it) and the helpers that let a
    query project, group, filter and join only what the caller selected.

    The query object is modelled by its abstract contents (`QueryState`); rendering it
    to SQL, running it and counting its rows belong to QueryDSL and the database and are
    parameters of a `QueryBuilder`. */
module QueryBuilder {
  import opened Wrappers
  import opened Text
  import opened Filter

  /** Declared for subclasses; the pipeline does not use it and passes `""` for a null
      sort column instead. */
  const DefaultSorting: string := "nenhumaColunaSelecionada"

  /** The SQL type of a projected column, which picks its null sentinel. */
  datatype ColumnKind = StringColumn | DateColumn | DateTimeColumn | NumberColumn | BooleanColumn

  /** The typed null that stands in for a column that was not selected. */
  function NullSentinel(kind: ColumnKind): string
  {
    match kind
    case StringColumn => "CAST(NULL AS VARCHAR(1))"
    case NumberColumn => "CAST(NULL AS BIGINT)"
    case BooleanColumn => "CAST(NULL AS SMALLINT)"
    case DateColumn => "CAST (NULL AS DATE)"
    case DateTimeColumn => "CAST (NULL AS TIMESTAMP)"
  }

  /** A typed column expression: a path into a table, or a SQL template. */
  datatype Expr =
    | Path(kind: ColumnKind, path: string)
    | Template(kind: ColumnKind, sql: string)

  /** An expression under an alias, as it appears in the select list. */
  datatype Projection = Projection(expr: Expr, alias: string)

  /** A where or having condition. */
  datatype Predicate =
    | In(path: string, values: seq<string>)
    | Condition(sql: string)

  datatype Table = Table(name: string)

  datatype JoinKind = InnerJoin | LeftJoin

  datatype Join = Join(kind: JoinKind, table: Table, on: Predicate)

  datatype OrderSpec = OrderSpec(direction: Order, expr: Expr)

  /** The contents of a QueryDSL query, clause by clause. */
  datatype QueryState = QueryState(
    where: seq<Predicate>,
    having: seq<Predicate>,
    groupBy: seq<seq<Expr>>,
    joins: seq<Join>,
    orderBy: seq<OrderSpec>,
    limit: Option<int>,
    offset: Option<int>)

  /** QueryResult: the fetched rows and the total row count. */
  datatype QueryResult<T> = QueryResult(data: seq<T>, count: nat)

  /** The parts of a concrete query builder and of the engine below it. */
  datatype QueryBuilder<T> = QueryBuilder(
    createQuery: FilterState -> QueryState,   // the subclass's filtered query
    orderByExpression: string -> Expr,        // the subclass's column for a sort key
    render: QueryState -> string,             // QueryDSL's SQL rendering
    fetch: QueryState -> seq<T>,              // running the query
    countRows: QueryState -> nat)             // counting the rows of the query as a subquery

  /** A query under construction. */
  class JpaSqlQuery {
    var state: QueryState
    const render: QueryState -> string

    constructor (state: QueryState, render: QueryState -> string)
      ensures this.state == state && this.render == render
    {
      this.state := state;
      this.render := render;
    }

    /** The SQL the query currently renders to. */
    function Sql(): string
      reads this
    {
      render(state)
    }

    method Where(p: Predicate)
      modifies this
      ensures state == old(state).(where := old(state).where + [p])
    {
      state := state.(where := state.where + [p]);
    }

    method Having(p: Predicate)
      modifies this
      ensures state == old(state).(having := old(state).having + [p])
    {
      state := state.(having := state.having + [p]);
    }

    method GroupBy(paths: seq<Expr>)
      modifies this
      ensures state == old(state).(groupBy := old(state).groupBy + [paths])
    {
      state := state.(groupBy := state.groupBy + [paths]);
    }

    method AddJoin(j: Join)
      modifies this
      ensures state == old(state).(joins := old(state).joins + [j])
    {
      state := state.(joins := state.joins + [j]);
    }

    method OrderBy(spec: OrderSpec)
      modifies this
      ensures state == old(state).(orderBy := old(state).orderBy + [spec])
    {
      state := state.(orderBy := state.orderBy + [spec]);
    }

    method LimitOffset(limit: int, offset: int)
      modifies this
      ensures state == old(state).(limit := Some(limit), offset := Some(offset))
    {
      state := state.(limit := Some(limit), offset := Some(offset));
    }
  }

  // ---------------------------------------------------------------------------
  // Column selection
  // ---------------------------------------------------------------------------

  /** isColumnSelected: a null selection selects nothing; otherwise list membership. */
  predicate IsColumnSelected(column: string, selected: Option<seq<string>>)
    ensures selected.None? ==> !IsColumnSelected(column, selected)
    ensures selected.Some? ==>
      (IsColumnSelected(column, selected) <==> exists i :: 0 <= i < |selected.value| && selected.value[i] == column)
  {
    selected.Some? && column in selected.value
  }

  /** Every named column is selected (true for no names). */
  predicate AllSelected(columns: seq<string>, selected: Option<seq<string>>)
  {
    forall i :: 0 <= i < |columns| ==> IsColumnSelected(columns[i], selected)
  }

  /** Some named column is selected. */
  predicate AnySelected(columns: seq<string>, selected: Option<seq<string>>)
  {
    exists i :: 0 <= i < |columns| && IsColumnSelected(columns[i], selected)
  }

  /** addIfColumnSelected, one overload per column kind: the path under the alias when
      the column is selected, the kind's null sentinel under the same alias otherwise. */
  function AddIfColumnSelected(column: string, selected: Option<seq<string>>, alias: string, path: Expr)
    : (p: Projection)
    ensures p.alias == alias && p.expr.kind == path.kind
    ensures IsColumnSelected(column, selected) ==> p.expr == path
    ensures !IsColumnSelected(column, selected) ==> p.expr == Template(path.kind, NullSentinel(path.kind))
  {
    if IsColumnSelected(column, selected) then Projection(path, alias)
    else Projection(Template(path.kind, NullSentinel(path.kind)), alias)
  }

  /** addIfAnyColumnSelected: the number path when one of the columns is selected, the
      decimal null sentinel otherwise; the alias is the same either way. */
  method AddIfAnyColumnSelected(columns: seq<string>, selected: Option<seq<string>>, alias: string, path: Expr)
    returns (p: Projection)
    requires path.kind == NumberColumn
    ensures p.alias == alias && p.expr.kind == NumberColumn
    ensures AnySelected(columns, selected) ==> p.expr == path
    ensures !AnySelected(columns, selected) ==> p.expr == Template(NumberColumn, NullSentinel(NumberColumn))
  {
    for i := 0 to |columns|
      invariant forall k :: 0 <= k < i ==> !IsColumnSelected(columns[k], selected)
    {
      if IsColumnSelected(columns[i], selected) {
        return Projection(path, alias);
      }
    }
    return Projection(Template(NumberColumn, NullSentinel(NumberColumn)), alias);
  }

  /** With a single column, the any-of projection is the plain one. */
  lemma AnySelectedSingle(column: string, selected: Option<seq<string>>)
    ensures AnySelected([column], selected) <==> IsColumnSelected(column, selected)
  {
    if IsColumnSelected(column, selected) {
      assert [column][0] == column;
    }
  }

  /** groupIfColumnSelected for one column: group by the paths when it is selected. */
  method GroupIfColumnSelected(query: JpaSqlQuery, column: string, selected: Option<seq<string>>, paths: seq<Expr>)
    modifies query
    ensures query.state == if IsColumnSelected(column, selected)
                           then old(query.state).(groupBy := old(query.state).groupBy + [paths])
                           else old(query.state)
  {
    if IsColumnSelected(column, selected) {
      query.GroupBy(paths);
    }
  }

  /** groupIfColumnSelected for several columns: group by the paths only when every
      column is selected, which holds vacuously for an empty list. */
  method GroupIfAllColumnsSelected(query: JpaSqlQuery, columns: seq<string>, selected: Option<seq<string>>, paths: seq<Expr>)
    modifies query
    ensures query.state == if AllSelected(columns, selected)
                           then old(query.state).(groupBy := old(query.state).groupBy + [paths])
                           else old(query.state)
  {
    var all := true;
    for i := 0 to |columns|
      invariant all <==> forall k :: 0 <= k < i ==> IsColumnSelected(columns[k], selected)
    {
      if !IsColumnSelected(columns[i], selected) {
        all := false;
        break;
      }
    }
    if all {
      query.GroupBy(paths);
    }
  }

  // ---------------------------------------------------------------------------
  // Conditional joins and conditions
  // ---------------------------------------------------------------------------

  /** addJoinIfNeeded / addLeftJoinIfNeeded: join the table only when the SQL rendered
      so far mentions it. */
  method AddJoinIfNeeded(query: JpaSqlQuery, kind: JoinKind, table: Table, on: Predicate)
    modifies query
    ensures Contains(old(query.Sql()), table.name) ==>
      query.state == old(query.state).(joins := old(query.state).joins + [Join(kind, table, on)])
    ensures !Contains(old(query.Sql()), table.name) ==> query.state == old(query.state)
  {
    if Contains(query.Sql(), table.name) {
      query.AddJoin(Join(kind, table, on));
    }
  }

  /** filterIfNotEmpty with a path: `path IN values` when the collection is non-null and non-empty. */
  method FilterIfNotEmpty(query: JpaSqlQuery, values: Option<seq<string>>, path: string)
    modifies query
    ensures values.Some? && |values.value| > 0 ==>
      query.state == old(query.state).(where := old(query.state).where + [In(path, values.value)])
    ensures values.None? || |values.value| == 0 ==> query.state == old(query.state)
  {
    if values.Some? && |values.value| > 0 {
      query.Where(In(path, values.value));
    }
  }

  /** filterIfNotEmpty with a condition supplier: the condition when the collection is non-empty. */
  method FilterIfNotEmptyWith<C>(query: JpaSqlQuery, values: Option<seq<C>>, condition: Predicate)
    modifies query
    ensures values.Some? && |values.value| > 0 ==>
      query.state == old(query.state).(where := old(query.state).where + [condition])
    ensures values.None? || |values.value| == 0 ==> query.state == old(query.state)
  {
    if values.Some? && |values.value| > 0 {
      query.Where(condition);
    }
  }

  /** filterIfPresent for a string: the condition when the string is not blank. */
  method FilterIfNotBlank(query: JpaSqlQuery, item: Option<string>, condition: Predicate)
    modifies query
    ensures !IsBlank(item) ==> query.state == old(query.state).(where := old(query.state).where + [condition])
    ensures IsBlank(item) ==> query.state == old(query.state)
  {
    if !IsBlank(item) {
      query.Where(condition);
    }
  }

  /** filterIfPresent for any object: the condition when the item is non-null. */
  method FilterIfPresent<V>(query: JpaSqlQuery, item: Option<V>, condition: Predicate)
    modifies query
    ensures item.Some? ==> query.state == old(query.state).(where := old(query.state).where + [condition])
    ensures item.None? ==> query.state == old(query.state)
  {
    if item.Some? {
      query.Where(condition);
    }
  }

  /** havingIfPresent: the having condition when the item is non-null. */
  method HavingIfPresent<V>(query: JpaSqlQuery, item: Option<V>, condition: Predicate)
    modifies query
    ensures item.Some? ==> query.state == old(query.state).(having := old(query.state).having + [condition])
    ensures item.None? ==> query.state == old(query.state)
  {
    if item.Some? {
      query.Having(condition);
    }
  }

  // ---------------------------------------------------------------------------
  // Ordering, paging and the pipeline
  // ---------------------------------------------------------------------------

  /** The order addOrderBy appends: a null direction is ascending and a null column is "". */
  function SortSpec<T>(qb: QueryBuilder<T>, filter: FilterState): OrderSpec
  {
    OrderSpec(filter.direcaoOrdenacao.GetOr(Asc), qb.orderByExpression(filter.colunaOrdenacao.GetOr("")))
  }

  /** The query after paging: limited and offset only for a non-negative page size. */
  function Paged(s: QueryState, filter: FilterState): QueryState
  {
    if filter.tamanhoPagina >= 0 then s.(limit := Some(filter.tamanhoPagina as int), offset := Some(filter.offset as int))
    else s
  }

  /** addOrderBy: exactly one order specification is appended. */
  method AddOrderBy<T>(qb: QueryBuilder<T>, filter: CRUDZillaFilter, query: JpaSqlQuery)
    modifies query
    ensures query.state == old(query.state).(orderBy := old(query.state).orderBy + [SortSpec(qb, filter.State())])
  {
    var direction := if filter.direcaoOrdenacao.None? then Asc else filter.direcaoOrdenacao.value;
    var column := if filter.colunaOrdenacao.Some? then filter.colunaOrdenacao.value else "";
    var expr := qb.orderByExpression(column);
    query.OrderBy(OrderSpec(direction, expr));
  }

  /** addPaging: limit to the page size and skip `offset` rows, unless the page size is negative. */
  method AddPaging(filter: CRUDZillaFilter, query: JpaSqlQuery)
    modifies query
    ensures query.state == Paged(old(query.state), filter.State())
  {
    if filter.tamanhoPagina >= 0 {
      query.LimitOffset(filter.tamanhoPagina as int, filter.offset as int);
    }
  }

  /** What `build` returns for a filter: the rows of the filtered query once ordered and
      paged, and the count of the filtered query before either. */
  function BuildResult<T>(qb: QueryBuilder<T>, filter: FilterState): QueryResult<T>
  {
    var q := qb.createQuery(filter);
    QueryResult(qb.fetch(Paged(q.(orderBy := q.orderBy + [SortSpec(qb, filter)]), filter)), qb.countRows(q))
  }

  /** build: create, count, order, page, fetch; `postProcessResults` does nothing by default. */
  method Build<T>(qb: QueryBuilder<T>, filter: CRUDZillaFilter) returns (r: QueryResult<T>)
    ensures r == BuildResult(qb, filter.State())
  {
    var query := new JpaSqlQuery(qb.createQuery(filter.State()), qb.render);
    var total := qb.countRows(query.state);
    AddOrderBy(qb, filter, query);
    AddPaging(filter, query);
    r := QueryResult(qb.fetch(query.state), total);
  }

  /** The count does not depend on sorting or paging: two filters that produce the same
      filtered query get the same count whatever their sort and page settings. */
  lemma CountIgnoresSortAndPaging<T>(qb: QueryBuilder<T>, f1: FilterState, f2: FilterState)
    requires qb.createQuery(f1) == qb.createQuery(f2)
    ensures BuildResult(qb, f1).count == BuildResult(qb, f2).count
  {
  }

  /** A query that had no limit of its own never asks for more than 100 rows once paged by
      a filter whose page size went through the clamping setter; a negative size leaves it unlimited. */
  lemma PagedLimitAtMostMax(s: QueryState, filter: FilterState)
    requires s.limit.None? && filter.tamanhoPagina <= MaxPageSize
    ensures Paged(s, filter).limit.Some? <==> filter.tamanhoPagina >= 0
    ensures Paged(s, filter).limit.Some? ==> 0 <= Paged(s, filter).limit.value <= 100
    ensures Paged(s, filter).where == s.where && Paged(s, filter).groupBy == s.groupBy
  {
  }
}
