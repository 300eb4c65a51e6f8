/** The WHERE clause of a telemetry query: named parameters, and the rows it accepts. */
module WhereClause {
  import opened Basics
  import opened Paging

  datatype Value = Millis(ms: int) | One(text: string) | AnyOf(texts: seq<string>)

  /** A column filter; an array value is matched with IN, any other with `=`. */
  datatype QueryFilter = QueryFilter(column: string, parameter: string, value: Value)

  datatype Clause =
    | NotBefore(parameter: string)
    | Before(parameter: string)
    | In(column: string, parameter: string)
    | Equals(column: string, parameter: string)
    | BelowCursor(msParameter: string, idParameter: string)

  /** What the database makes of a clause, given the values bound to the parameters. */
  predicate Holds(clause: Clause, params: map<string, Value>, row: Row) {
    match clause
    case NotBefore(p) => p in params && params[p].Millis? && row.key.timestamp >= params[p].ms
    case Before(p) => p in params && params[p].Millis? && row.key.timestamp < params[p].ms
    case In(column, p) =>
      column in row.columns && p in params && params[p].AnyOf? && row.columns[column] in params[p].texts
    case Equals(column, p) =>
      column in row.columns && p in params && params[p] == One(row.columns[column])
    case BelowCursor(m, i) =>
      && m in params && params[m].Millis? && i in params && params[i].One?
      && Below(row.key, Key(params[m].ms, params[i].text))
  }

  predicate Accepts(clauses: seq<Clause>, params: map<string, Value>, row: Row) {
    forall i :: 0 <= i < |clauses| ==> Holds(clauses[i], params, row)
  }

  /** What a filter asks for, without parameters. */
  predicate Passes(filter: QueryFilter, row: Row) {
    filter.column in row.columns &&
    match filter.value
    case AnyOf(texts) => row.columns[filter.column] in texts
    case One(text) => row.columns[filter.column] == text
    case Millis(_) => false
  }

  predicate PassesAll(filters: seq<QueryFilter>, row: Row) {
    forall i :: 0 <= i < |filters| ==> Passes(filters[i], row)
  }

  const RESERVED := {"startMs", "endMs", "cursorMs", "cursorEventId"}

  /** No two filters bind one parameter, and none binds a name of the range or the cursor. */
  predicate DistinctParameters(filters: seq<QueryFilter>) {
    && (forall i :: 0 <= i < |filters| ==> filters[i].parameter !in RESERVED)
    && forall i, j :: 0 <= i < j < |filters| ==> filters[i].parameter != filters[j].parameter
  }

  function ClauseOf(filter: QueryFilter): Clause {
    if filter.value.AnyOf? then In(filter.column, filter.parameter) else Equals(filter.column, filter.parameter)
  }

  predicate Binds(filters: seq<QueryFilter>, params: map<string, Value>) {
    forall i :: 0 <= i < |filters| ==>
      filters[i].parameter in params && params[filters[i].parameter] == filters[i].value
  }

  /** The query the clauses amount to. */
  function QueryOf(filters: seq<QueryFilter>, start: int, end: int): Query {
    Query(start, end, (row: Row) => PassesAll(filters, row), 0)
  }

  lemma BindsMore(filters: seq<QueryFilter>, n: nat, params: map<string, Value>)
    requires n < |filters| && DistinctParameters(filters) && Binds(filters[..n], params)
    ensures Binds(filters[..n + 1], params[filters[n].parameter := filters[n].value])
  {
    forall i | 0 <= i < n
      ensures filters[..n][i].parameter in params && params[filters[..n][i].parameter] == filters[i].value
    {
    }
  }

  method BuildWhere(filters: seq<QueryFilter>, start: int, end: int, cursor: Option<Key>)
    returns (clauses: seq<Clause>, params: map<string, Value>)
    ensures DistinctParameters(filters) ==>
              forall row :: Accepts(clauses, params, row) <==> Where(QueryOf(filters, start, end), cursor)(row)
  {
    hide Below, Passes, Holds;
    params := map["startMs" := Millis(start), "endMs" := Millis(end)];
    clauses := [NotBefore("startMs"), Before("endMs")];
    var n := 0;
    while n < |filters|
      invariant 0 <= n <= |filters|
      invariant clauses == [NotBefore("startMs"), Before("endMs")] + Map(ClauseOf, filters[..n])
      invariant DistinctParameters(filters) ==> Binds(filters[..n], params)
      invariant DistinctParameters(filters) ==> params.Keys >= {"startMs", "endMs"}
      invariant DistinctParameters(filters) ==> params["startMs"] == Millis(start) && params["endMs"] == Millis(end)
    {
      var filter := filters[n];
      if DistinctParameters(filters) {
        BindsMore(filters, n, params);
      }
      params := params[filter.parameter := filter.value];
      clauses := clauses + [ClauseOf(filter)];
      n := n + 1;
    }
    assert filters[..n] == filters;
    ghost var base := clauses;
    if cursor.Some? {
      params := params["cursorMs" := Millis(cursor.value.timestamp)];
      params := params["cursorEventId" := One(cursor.value.eventId)];
      clauses := clauses + [BelowCursor("cursorMs", "cursorEventId")];
    }
    if DistinctParameters(filters) {
      forall row
        ensures Accepts(clauses, params, row) <==> Where(QueryOf(filters, start, end), cursor)(row)
      {
        ClausesMean(filters, start, end, cursor, clauses, params, row);
      }
    }
  }

  lemma FilterClauseMeans(filter: QueryFilter, params: map<string, Value>, row: Row)
    requires filter.parameter in params && params[filter.parameter] == filter.value
    ensures Holds(ClauseOf(filter), params, row) <==> Passes(filter, row)
  {
  }

  /** Clauses over bound parameters accept exactly the rows of the query below the cursor. */
  lemma ClausesMean(filters: seq<QueryFilter>, start: int, end: int, cursor: Option<Key>,
                    clauses: seq<Clause>, params: map<string, Value>, row: Row)
    requires {"startMs", "endMs"} <= params.Keys
    requires params["startMs"] == Millis(start) && params["endMs"] == Millis(end) && Binds(filters, params)
    requires cursor.Some? ==> "cursorMs" in params && params["cursorMs"] == Millis(cursor.value.timestamp)
    requires cursor.Some? ==> "cursorEventId" in params && params["cursorEventId"] == One(cursor.value.eventId)
    requires clauses == [NotBefore("startMs"), Before("endMs")] + Map(ClauseOf, filters)
                        + (if cursor.Some? then [BelowCursor("cursorMs", "cursorEventId")] else [])
    ensures Accepts(clauses, params, row) <==> Where(QueryOf(filters, start, end), cursor)(row)
  {
    hide Below, Passes, ClauseOf;
    forall i | 0 <= i < |filters|
      ensures Holds(clauses[i + 2], params, row) <==> Passes(filters[i], row)
    {
      assert clauses[i + 2] == ClauseOf(filters[i]);
      FilterClauseMeans(filters[i], params, row);
    }
    var k := |filters| + 2;
    assert cursor.Some? ==> clauses[k] == BelowCursor("cursorMs", "cursorEventId");
    assert clauses[0] == NotBefore("startMs") && clauses[1] == Before("endMs");
    if Accepts(clauses, params, row) {
      assert Holds(clauses[0], params, row) && Holds(clauses[1], params, row);
      forall i | 0 <= i < |filters|
        ensures Passes(filters[i], row)
      {
        assert Holds(clauses[i + 2], params, row);
      }
    } else {
      var i :| 0 <= i < |clauses| && !Holds(clauses[i], params, row);
      if 2 <= i < k {
        assert !Passes(filters[i - 2], row);
      }
    }
  }
}
