/** The SQL Server limit handler: how a row limit is written into the SQL text
    (`OFFSET ? ROWS FETCH NEXT ? ROWS ONLY`) and how its two parameters are bound. */
module LimitHandler {
  import opened Wrappers
  import opened Text

  // The handler's capability flags, all switched on.
  const SupportsLimit: bool := true
  const SupportsLimitOffset: bool := true
  const SupportsVariableLimit: bool := true
  const UseMaxForLimit: bool := true

  const OrderByMarker: string := " order by "
  const DefaultOrderBy: string := OrderByMarker + "1 asc "
  const OffsetFetch: string := " offset " + "?" + " rows " + "fetch " + "next " + "?" + " rows only "

  /** Hibernate's row selection: the first row and the maximum number of rows, each nullable. */
  class RowSelection {
    var firstRow: Option<Int32>
    var maxRows: Option<Int32>

    constructor (firstRow: Option<Int32>, maxRows: Option<Int32>)
      ensures this.firstRow == firstRow && this.maxRows == maxRows
    {
      this.firstRow := firstRow;
      this.maxRows := maxRows;
    }
  }

  /** A prepared statement, seen through the integer parameters bound on it. */
  class Statement {
    var parameters: map<int, Int32>

    constructor ()
      ensures parameters == map[]
    {
      parameters := map[];
    }

    method SetInt(index: int, value: Int32)
      modifies this
      ensures parameters == old(parameters)[index := value]
    {
      parameters := parameters[index := value];
    }
  }

  /** LimitHelper.hasMaxRows: a selection is present and asks for a positive number of rows. */
  predicate HasMaxRows(selection: RowSelection?)
    reads selection
    ensures HasMaxRows(selection) <==> selection != null && selection.maxRows.GetOr(0) > 0
  {
    selection != null && selection.maxRows.Some? && selection.maxRows.value > 0
  }

  /** The number of '?' placeholders in a SQL text. */
  function Placeholders(sql: string): nat
  {
    multiset(sql)['?']
  }

  /** processSql: without a row limit the SQL is unchanged; with one, the offset/fetch
      clause is appended, preceded by a default ordering when the SQL has no " order by ". */
  function ProcessSql(sql: string, selection: RowSelection?): (r: string)
    reads selection
    ensures !HasMaxRows(selection) ==> r == sql
    ensures HasMaxRows(selection) ==> |sql| <= |r| && r[..|sql|] == sql
    ensures HasMaxRows(selection) ==> |OffsetFetch| <= |r| && r[|r| - |OffsetFetch|..] == OffsetFetch
    ensures HasMaxRows(selection) ==> Contains(r[..|r| - |OffsetFetch|], OrderByMarker)
    ensures HasMaxRows(selection) ==>
      (r == sql + OffsetFetch <==> Contains(sql, OrderByMarker))
    ensures HasMaxRows(selection) && !Contains(sql, OrderByMarker) ==> r == sql + DefaultOrderBy + OffsetFetch
  {
    if HasMaxRows(selection) then
      var ordered := if Contains(sql, OrderByMarker) then sql else sql + DefaultOrderBy;
      assert ordered + OffsetFetch != sql + OffsetFetch ==> !Contains(sql, OrderByMarker);
      assert !Contains(sql, OrderByMarker) ==> OccursAt(ordered, OrderByMarker, |sql|);
      assert Contains(sql, OrderByMarker) ==> Contains(ordered, OrderByMarker);
      assert (ordered + OffsetFetch)[..|ordered|] == ordered;
      ordered + OffsetFetch
    else
      sql
  }

  /** The rewritten SQL carries exactly as many new placeholders as the binding fills. */
  lemma ProcessSqlPlaceholders(sql: string, selection: RowSelection?)
    ensures Placeholders(ProcessSql(sql, selection))
            == Placeholders(sql) + (if HasMaxRows(selection) then 2 else 0)
  {
    if HasMaxRows(selection) {
      var ordered := if Contains(sql, OrderByMarker) then sql else sql + DefaultOrderBy;
      assert ProcessSql(sql, selection) == ordered + OffsetFetch;
      DefaultOrderByPlaceholders();
      PlaceholdersAppend(sql, DefaultOrderBy);
      OffsetFetchPlaceholders();
      PlaceholdersAppend(ordered, OffsetFetch);
    }
  }

  /** Placeholders add up over a concatenation. */
  lemma PlaceholdersAppend(a: string, b: string)
    ensures Placeholders(a + b) == Placeholders(a) + Placeholders(b)
  {
    assert multiset(a + b) == multiset(a) + multiset(b);
  }

  lemma OffsetFetchPlaceholders()
    ensures Placeholders(OffsetFetch) == 2
  {
    FixedTextHasNoPlaceholders();
    assert multiset(OffsetFetch) == multiset(" offset ") + multiset("?") + multiset(" rows ")
      + multiset("fetch ") + multiset("next ") + multiset("?") + multiset(" rows only ");
  }

  lemma FixedTextHasNoPlaceholders()
    ensures Placeholders(" offset ") == Placeholders(" rows ") == Placeholders("fetch ") == 0
    ensures Placeholders("next ") == Placeholders(" rows only ") == 0
  {
    NoPlaceholdersInOffset();
    NoPlaceholdersInRows();
    NoPlaceholdersInFetch();
    NoPlaceholdersInNext();
    NoPlaceholdersInRowsOnly();
  }

  lemma DefaultOrderByPlaceholders()
    ensures Placeholders(DefaultOrderBy) == 0
  {
    NoPlaceholdersInOrderBy();
    NoPlaceholdersInAsc();
    PlaceholdersAppend(OrderByMarker, "1 asc ");
  }

  // Each fixed piece of text is checked on its own: the solver's cost grows quickly
  // with the length of a literal whose multiset it inspects.
  lemma NoPlaceholdersInOffset() ensures Placeholders(" offset ") == 0 {}
  lemma NoPlaceholdersInRows() ensures Placeholders(" rows ") == 0 {}
  lemma NoPlaceholdersInFetch() ensures Placeholders("fetch ") == 0 {}
  lemma NoPlaceholdersInNext() ensures Placeholders("next ") == 0 {}
  lemma NoPlaceholdersInRowsOnly() ensures Placeholders(" rows only ") == 0 {}
  lemma NoPlaceholdersInOrderBy() ensures Placeholders(OrderByMarker) == 0 {}
  lemma NoPlaceholdersInAsc() ensures Placeholders("1 asc ") == 0 {}

  /** bindLimitParametersAtStartOfQuery binds nothing. */
  method BindAtStart(selection: RowSelection?, statement: Statement, index: int) returns (bound: int)
    ensures bound == 0
  {
    bound := 0;
  }

  /** bindLimitParametersAtEndOfQuery: with a row limit, a missing first row becomes 0 on
      the selection, the first row is bound at `index` and the row limit at `index + 1`,
      and two parameters are reported; otherwise nothing is bound or changed. */
  method BindAtEnd(selection: RowSelection?, statement: Statement, index: int) returns (bound: int)
    modifies selection, statement
    ensures bound == (if old(HasMaxRows(selection)) then 2 else 0)
    ensures !old(HasMaxRows(selection)) ==>
      unchanged(statement) && (selection != null ==> unchanged(selection))
    ensures old(HasMaxRows(selection)) ==>
      && selection.maxRows == old(selection.maxRows)
      && selection.firstRow == Some(old(selection.firstRow).GetOr(0))
      && statement.parameters
         == old(statement.parameters)[index := selection.firstRow.value][index + 1 := selection.maxRows.value]
  {
    if HasMaxRows(selection) {
      if selection.firstRow.None? {
        selection.firstRow := Some(0);
      }
      statement.SetInt(index, selection.firstRow.value);
      statement.SetInt(index + 1, selection.maxRows.value);
      bound := 2;
    } else {
      bound := 0;
    }
  }
}
