/** The prepared statement of the Supabase adapter: it classifies a SQL text
    once (target table and operation), and on execution turns the text and its
    positional parameters into one of a few fixed backend requests.

    The backend (the Supabase client and the network behind it) is a
    parameter: a function from the request the statement issues to the
    response `{data, count, error}` it gets back. */
module PreparedStatement {
  import opened Wrappers
  import opened JsText

  // ---------------------------------------------------------------------------
  // Values, rows, statements

  /** A JavaScript value passed as a positional parameter or stored in a row. */
  datatype Value = Undefined | Null | Bool(b: bool) | Num(n: int) | Str(s: string)

  /** A row as the backend returns or receives it: column name to value. */
  type Row = map<string, Value>

  datatype Op = Select | Insert | Update | Delete | Unknown

  /** A prepared statement: its text, and the table and operation read from
      the text when it was prepared. */
  datatype Statement = Statement(sql: string, table: string, op: Op)

  /** `params[i]`, which is `undefined` past the end of the argument list. */
  function Arg(params: seq<Value>, i: nat): Value {
    if i < |params| then params[i] else Undefined
  }

  // ---------------------------------------------------------------------------
  // Errors

  datatype Call = RunCall | GetCall | AllCall

  datatype AdapterError =
    | Unsupported(op: Op)            // run() on SELECT or UNKNOWN
    | GetUnsupported(op: Op)         // get() on anything but SELECT
    | AllUnsupported(op: Op)         // all() on anything but SELECT
    | UpdateNotImplemented
    | DeleteNotImplemented
    | SynchronousCall(call: Call)    // the synchronous run/get/all
    | IterateNotImplemented
    | NotAString(arg: Value)         // TypeError from `params[0].replace`
    | Remote(error: string)          // the backend's error, passed on unchanged

  function OpName(op: Op): string {
    match op
    case Select => "SELECT"
    case Insert => "INSERT"
    case Update => "UPDATE"
    case Delete => "DELETE"
    case Unknown => "UNKNOWN"
  }

  function CallName(c: Call): string {
    match c
    case RunCall => "run"
    case GetCall => "get"
    case AllCall => "all"
  }

  /** The message each error carries (the TypeError texts are those of V8).
      A backend error is passed on unchanged. */
  function Message(e: AdapterError): (r: string)
    ensures e.Remote? ==> r == e.error
  {
    match e
    case Unsupported(op) => "Unsupported operation: " + OpName(op)
    case GetUnsupported(op) => "get() not supported for operation: " + OpName(op)
    case AllUnsupported(op) => "all() not supported for operation: " + OpName(op)
    case UpdateNotImplemented => "UPDATE not implemented yet for Supabase adapter"
    case DeleteNotImplemented => "DELETE not implemented yet for Supabase adapter"
    case SynchronousCall(c) =>
      "Synchronous " + CallName(c) + "() not supported with Supabase. Use async operations."
    case IterateNotImplemented => "iterate() not implemented for Supabase adapter"
    case NotAString(v) =>
      if v == Undefined then "Cannot read properties of undefined (reading 'replace')"
      else if v == Null then "Cannot read properties of null (reading 'replace')"
      else "params[0].replace is not a function"
    case Remote(error) => error
  }

  // ---------------------------------------------------------------------------
  // Target table: /(?:FROM|INTO|UPDATE)\s+(\w+)/i

  /** One alternative `kw\s+(\w+)` tried at position i; the captured word. */
  function KeywordThenWord(s: string, i: nat, kw: string): (r: Option<string>)
    ensures r.Some? ==> |r.value| > 0 && AllWordChars(r.value)
  {
    if !MatchesAt(s, i, kw) then None
    else
      var k := RunEnd(IsSpace, s, i + |kw|);
      var e := RunEnd(IsWordChar, s, k);
      if k == i + |kw| || e == k then None
      else
        assert forall t :: 0 <= t < e - k ==> s[k..e][t] == s[k + t];
        Some(s[k..e])
  }

  /** The table reference starting at position i, if one does. */
  function TableRefAt(s: string, i: nat): (r: Option<string>)
    ensures r.Some? ==> |r.value| > 0 && AllWordChars(r.value)
  {
    var from := KeywordThenWord(s, i, "FROM");
    if from.Some? then from
    else
      var into := KeywordThenWord(s, i, "INTO");
      if into.Some? then into else KeywordThenWord(s, i, "UPDATE")
  }

  /** The backend's name for a SQLite table. */
  function BackendTable(name: string): string {
    if name == "nodes" then "n8n_nodes" else name
  }

  /** `extractTableName`: the word after the leftmost FROM, INTO or UPDATE
      (any case) and white space, `nodes` when there is none, renamed for the
      backend. The result is a non-empty word and never the SQLite name. */
  function TableName(sql: string): (r: string)
    ensures r != "nodes"
    ensures |r| > 0 && AllWordChars(r)
  {
    N8nNodesIsAWord();
    match FirstMatch(TableRefAt, sql, 0)
    case Some((_, w)) => BackendTable(w)
    case None => BackendTable("nodes")
  }

  lemma N8nNodesIsAWord()
    ensures AllWordChars("n8n_nodes")
  {
    var t := "n8n_nodes";
    forall i | 0 <= i < |t| ensures IsWordChar(t[i]) {
      assert t[i] in t;
    }
  }

  // ---------------------------------------------------------------------------
  // Operation: trim, upper-case, test the prefix

  /** The keyword that introduces a statement of each kind. */
  function Keyword(op: Op): string
    requires op != Unknown
  {
    OpName(op)
  }

  /** The operation whose keyword begins t; the four keywords begin with
      different letters, so at most one can. */
  function Classify(t: string): (op: Op)
    ensures forall o :: o != Unknown ==> (op == o <==> Keyword(o) <= t)
  {
    assert forall o :: o != Unknown && Keyword(o) <= t ==> t[0] == Keyword(o)[0];
    if "SELECT" <= t then Select
    else if "INSERT" <= t then Insert
    else if "UPDATE" <= t then Update
    else if "DELETE" <= t then Delete
    else Unknown
  }

  /** `extractOperation`. */
  function Operation(sql: string): (op: Op)
    ensures forall o :: o != Unknown ==> (op == o <==> Keyword(o) <= Upper(Trim(sql)))
  {
    Classify(Upper(Trim(sql)))
  }

  /** `new SupabasePreparedStatement(client, sql)`: never fails. */
  function Prepare(sql: string): (s: Statement)
    ensures s.sql == sql && s.op == Operation(sql) && s.table == TableName(sql)
    ensures s.table != "nodes" && |s.table| > 0 && AllWordChars(s.table)
  {
    Statement(sql, TableName(sql), Operation(sql))
  }

  // ---------------------------------------------------------------------------
  // SELECT routing

  const NodeTypeFilter := "WHERE node_type = ?"
  const AiToolFilter := "WHERE is_ai_tool = 1"
  const CountStar := "COUNT(*)"
  const LikePredicate := "LIKE"

  /** The query a SELECT is translated to. */
  datatype SelectPlan =
    | EqNodeType(nodeType: Value)      // .eq('node_type', params[0])
    | EqAiTool                         // .eq('is_ai_tool', true)
    | CountAll                         // exact head count
    | Search(term: Option<string>)     // .or(... ilike ...) when a term is given
    | ListOrdered(limit: Option<nat>)  // .order('display_name') and .limit(n)

  /** `LIMIT\s+(\d+)` under the `i` flag, tried at position i; the decimal
      value of the digits. */
  function LimitAt(s: string, i: nat): (r: Option<nat>)
    ensures r.Some? ==> MatchesAt(s, i, "LIMIT") && i + 5 < |s|
  {
    if !MatchesAt(s, i, "LIMIT") then None
    else
      var k := RunEnd(IsSpace, s, i + 5);
      var e := RunEnd(IsDigit, s, k);
      if k == i + 5 || e == k then None
      else
        assert forall t :: 0 <= t < e - k ==> s[k..e][t] == s[k + t];
        Some(DecimalValue(s[k..e]))
  }

  /** The row cap of the leftmost LIMIT clause, if any. */
  function LimitOf(sql: string): Option<nat> {
    match FirstMatch(LimitAt, sql, 0)
    case Some((_, n)) => Some(n)
    case None => None
  }

  /** The choice `handleSelect` makes: first matching case-sensitive
      substring wins. Only the LIKE case can fail, when `params[0]` is not a
      string and has no `replace`. */
  function PlanSelect(sql: string, params: seq<Value>): (r: Result<SelectPlan, AdapterError>)
    ensures r.Failure? ==> |params| > 0 && !params[0].Str? && r.error == NotAString(params[0])
    ensures r.Success? && r.value.Search? ==> (r.value.term.Some? <==> |params| > 0)
  {
    if Contains(sql, NodeTypeFilter) then Success(EqNodeType(Arg(params, 0)))
    else if Contains(sql, AiToolFilter) then Success(EqAiTool)
    else if Contains(sql, CountStar) then Success(CountAll)
    else if Contains(sql, LikePredicate) then
      if |params| == 0 then Success(Search(None))
      else if params[0].Str? then Success(Search(Some(RemoveAll(params[0].s, '%'))))
      else Failure(NotAString(params[0]))
    else Success(ListOrdered(LimitOf(sql)))
  }

  // ---------------------------------------------------------------------------
  // Backend requests

  /** A filter added to a query: `.eq(column, value)` or `.or(conditions)`. */
  datatype Filter = Eq(column: string, value: Value) | AnyOf(conditions: string)

  /** A query built with `from(table).select(columns, ...)` and the
      filter, order and limit calls chained after it. `countOnly` is
      `{count: 'exact', head: true}`: the exact count and no rows. */
  datatype Query = Query(
    table: string,
    columns: string,
    filters: seq<Filter>,
    orderBy: Option<string>,
    limit: Option<nat>,
    countOnly: bool)

  datatype Request = Read(query: Query) | Upsert(table: string, row: Row)

  /** What the backend answers: `{data, count, error}`. */
  datatype Response = Response(data: Option<seq<Row>>, count: Option<nat>, error: Option<string>)

  type Backend = Request -> Response

  /** `from(table).select('*')`. */
  function AllColumns(table: string): Query {
    Query(table, "*", [], None, None, false)
  }

  /** `column.ilike.%term%`. */
  function IlikeCondition(column: string, term: string): string {
    column + ".ilike.%" + term + "%"
  }

  /** The text handed to `.or(...)` for a search term. */
  function SearchConditions(term: string): string {
    IlikeCondition("node_type", term) + "," + IlikeCondition("display_name", term)
    + "," + IlikeCondition("description", term)
  }

  /** The query issued for each plan. */
  function SelectQuery(table: string, plan: SelectPlan): (q: Query)
    ensures q.table == table && q.columns == "*"
    ensures q.countOnly <==> plan.CountAll?
    ensures q.orderBy.Some? <==> plan.ListOrdered?
    ensures plan.ListOrdered? ==> q.orderBy == Some("display_name") && q.limit == plan.limit
    ensures q.limit.Some? ==> plan.ListOrdered?
    ensures plan.EqNodeType? ==> q.filters == [Eq("node_type", plan.nodeType)]
    ensures plan.EqAiTool? ==> q.filters == [Eq("is_ai_tool", Bool(true))]
    ensures plan.Search? && plan.term.Some? ==> q.filters == [AnyOf(SearchConditions(plan.term.value))]
    ensures plan.CountAll? || plan.ListOrdered? || plan == Search(None) ==> q.filters == []
  {
    match plan
    case EqNodeType(v) => AllColumns(table).(filters := [Eq("node_type", v)])
    case EqAiTool => AllColumns(table).(filters := [Eq("is_ai_tool", Bool(true))])
    case CountAll => AllColumns(table).(countOnly := true)
    case Search(None) => AllColumns(table)
    case Search(Some(t)) => AllColumns(table).(filters := [AnyOf(SearchConditions(t))])
    case ListOrdered(l) => AllColumns(table).(orderBy := Some("display_name"), limit := l)
  }

  function CountRow(n: nat): Row {
    map["count" := Num(n)]
  }

  /** What `handleSelect` makes of the response: the error, re-thrown; the
      one synthetic row `{count: count || 0}` for a count; else `data || []`. */
  function RowsOf(plan: SelectPlan, resp: Response): (r: Result<seq<Row>, AdapterError>)
    ensures r.Failure? <==> resp.error.Some?
    ensures r.Failure? ==> r.error == Remote(resp.error.value)
    ensures r.Success? && plan.CountAll? ==> |r.value| == 1 && r.value[0] == CountRow(resp.count.GetOr(0))
    ensures r.Success? && !plan.CountAll? ==> r.value == resp.data.GetOr([])
  {
    if resp.error.Some? then Failure(Remote(resp.error.value))
    else if plan.CountAll? then Success([CountRow(resp.count.GetOr(0))])
    else Success(resp.data.GetOr([]))
  }

  /** The outcome of `handleSelect`. */
  function SelectRows(stmt: Statement, params: seq<Value>, backend: Backend): (r: Result<seq<Row>, AdapterError>)
    ensures PlanSelect(stmt.sql, params).Failure? ==> r == Failure(PlanSelect(stmt.sql, params).error)
    ensures r.Success? <==>
      PlanSelect(stmt.sql, params).Success?
      && backend(Read(SelectQuery(stmt.table, PlanSelect(stmt.sql, params).value))).error.None?
    ensures r.Success? && !PlanSelect(stmt.sql, params).value.CountAll? ==>
      r.value == backend(Read(SelectQuery(stmt.table, PlanSelect(stmt.sql, params).value))).data.GetOr([])
  {
    match PlanSelect(stmt.sql, params)
    case Failure(e) => Failure(e)
    case Success(plan) => RowsOf(plan, backend(Read(SelectQuery(stmt.table, plan))))
  }

  /** `handleSelect`, building its query step by step. */
  method HandleSelect(stmt: Statement, params: seq<Value>, backend: Backend)
    returns (r: Result<seq<Row>, AdapterError>)
    ensures r == SelectRows(stmt, params, backend)
    ensures r.Success? && PlanSelect(stmt.sql, params) == Success(CountAll) ==> |r.value| == 1
  {
    var sql := stmt.sql;
    if Contains(sql, NodeTypeFilter) {
      ghost var plan := EqNodeType(Arg(params, 0));
      assert PlanSelect(sql, params) == Success(plan);
      var query := AllColumns(stmt.table).(filters := [Eq("node_type", Arg(params, 0))]);
      assert query == SelectQuery(stmt.table, plan);
      var resp := backend(Read(query));
      if resp.error.Some? {
        return Failure(Remote(resp.error.value));
      }
      return Success(resp.data.GetOr([]));
    }
    if Contains(sql, AiToolFilter) {
      assert PlanSelect(sql, params) == Success(EqAiTool);
      var query := AllColumns(stmt.table).(filters := [Eq("is_ai_tool", Bool(true))]);
      assert query == SelectQuery(stmt.table, EqAiTool);
      var resp := backend(Read(query));
      if resp.error.Some? {
        return Failure(Remote(resp.error.value));
      }
      return Success(resp.data.GetOr([]));
    }
    if Contains(sql, CountStar) {
      assert PlanSelect(sql, params) == Success(CountAll);
      var query := AllColumns(stmt.table).(countOnly := true);
      assert query == SelectQuery(stmt.table, CountAll);
      var resp := backend(Read(query));
      if resp.error.Some? {
        return Failure(Remote(resp.error.value));
      }
      return Success([CountRow(resp.count.GetOr(0))]);
    }
    if Contains(sql, LikePredicate) {
      var query := AllColumns(stmt.table);
      if |params| > 0 {
        if !params[0].Str? {
          return Failure(NotAString(params[0]));
        }
        var searchTerm := RemoveAll(params[0].s, '%');
        query := query.(filters := query.filters + [AnyOf(SearchConditions(searchTerm))]);
        assert PlanSelect(sql, params) == Success(Search(Some(searchTerm)));
        assert query == SelectQuery(stmt.table, Search(Some(searchTerm)));
      } else {
        assert PlanSelect(sql, params) == Success(Search(None));
      }
      var resp := backend(Read(query));
      if resp.error.Some? {
        return Failure(Remote(resp.error.value));
      }
      return Success(resp.data.GetOr([]));
    }
    ghost var plan := ListOrdered(LimitOf(sql));
    assert PlanSelect(sql, params) == Success(plan);
    var query := AllColumns(stmt.table);
    query := query.(orderBy := Some("display_name"));
    var limitMatch := FirstMatch(LimitAt, sql, 0);
    if limitMatch.Some? {
      query := query.(limit := Some(limitMatch.value.1));
    }
    assert query == SelectQuery(stmt.table, plan);
    var resp := backend(Read(query));
    if resp.error.Some? {
      return Failure(Remote(resp.error.value));
    }
    return Success(resp.data.GetOr([]));
  }


  // ---------------------------------------------------------------------------
  // INSERT

  /** The columns the 17 positional parameters of an insert fill, in order. */
  const NodeColumns: seq<string> := [
    "node_type", "package_name", "display_name", "description", "category",
    "development_style", "is_ai_tool", "is_trigger", "is_webhook", "is_versioned",
    "version", "documentation", "properties_schema", "operations",
    "credentials_required", "outputs", "output_names"]

  lemma NodeColumnsDistinct()
    ensures |NodeColumns| == 17
    ensures forall i, j :: 0 <= i < j < |NodeColumns| ==> NodeColumns[i] != NodeColumns[j]
  {
  }

  /** The `nodeData` object `handleInsert` builds. */
  function NodeRow(params: seq<Value>): (row: Row)
    ensures row.Keys == set i | 0 <= i < |NodeColumns| :: NodeColumns[i]
    ensures forall i :: 0 <= i < |NodeColumns| ==> row[NodeColumns[i]] == Arg(params, i)
  {
    NodeColumnsDistinct();
    map i | 0 <= i < |NodeColumns| :: NodeColumns[i] := Arg(params, i)
  }

  /** `handleInsert`: one upsert of the node row; `{changes: 1,
      lastInsertRowid: 0}` unless the backend reports an error. */
  function HandleInsert(stmt: Statement, params: seq<Value>, backend: Backend): (r: Result<RunResult, AdapterError>)
    ensures r.Success? <==> backend(Upsert(stmt.table, NodeRow(params))).error.None?
    ensures r.Success? ==> r.value == RunResult(1, 0)
    ensures r.Failure? ==> r.error == Remote(backend(Upsert(stmt.table, NodeRow(params))).error.value)
  {
    var resp := backend(Upsert(stmt.table, NodeRow(params)));
    if resp.error.Some? then Failure(Remote(resp.error.value)) else Success(RunResult(1, 0))
  }

  /** `{changes, lastInsertRowid}`. */
  datatype RunResult = RunResult(changes: nat, lastInsertRowid: nat)

  // ---------------------------------------------------------------------------
  // run / get / all: the asynchronous declarations

  /** The asynchronous `run`: INSERT upserts, UPDATE and DELETE throw "not
      implemented", SELECT and UNKNOWN throw "Unsupported operation". */
  function AsyncRun(stmt: Statement, params: seq<Value>, backend: Backend): (r: Result<RunResult, AdapterError>)
    ensures r.Success? ==> stmt.op == Insert && r.value == RunResult(1, 0)
    ensures stmt.op == Insert ==> r == HandleInsert(stmt, params, backend)
    ensures stmt.op == Update ==> r == Failure(UpdateNotImplemented)
    ensures stmt.op == Delete ==> r == Failure(DeleteNotImplemented)
    ensures stmt.op == Select || stmt.op == Unknown ==> r == Failure(Unsupported(stmt.op))
  {
    match stmt.op
    case Insert => HandleInsert(stmt, params, backend)
    case Update => Failure(UpdateNotImplemented)
    case Delete => Failure(DeleteNotImplemented)
    case _ => Failure(Unsupported(stmt.op))
  }

  /** The asynchronous `get`: the first selected row, or `undefined` (None)
      when there is none; any other operation fails before a request. */
  function AsyncGet(stmt: Statement, params: seq<Value>, backend: Backend): (r: Result<Option<Row>, AdapterError>)
    ensures stmt.op != Select ==> r == Failure(GetUnsupported(stmt.op))
    ensures stmt.op == Select ==>
      match SelectRows(stmt, params, backend)
      case Success(rows) => r == Success(if |rows| > 0 then Some(rows[0]) else None)
      case Failure(e) => r == Failure(e)
  {
    if stmt.op == Select then
      match SelectRows(stmt, params, backend)
      case Success(rows) => Success(if |rows| > 0 then Some(rows[0]) else None)
      case Failure(e) => Failure(e)
    else Failure(GetUnsupported(stmt.op))
  }

  /** The asynchronous `all`: every selected row; any other operation fails
      before a request. */
  function AsyncAll(stmt: Statement, params: seq<Value>, backend: Backend): (r: Result<seq<Row>, AdapterError>)
    ensures stmt.op != Select ==> r == Failure(AllUnsupported(stmt.op))
    ensures stmt.op == Select ==> r == SelectRows(stmt, params, backend)
  {
    if stmt.op == Select then SelectRows(stmt, params, backend)
    else Failure(AllUnsupported(stmt.op))
  }

  // ---------------------------------------------------------------------------
  // run / get / all as a JavaScript class keeps them, and iterate

  /** The synchronous `run`, declared after the asynchronous one and so the
      one the class keeps: it throws for every statement. */
  function Run(stmt: Statement, params: seq<Value>): (r: Result<RunResult, AdapterError>)
    ensures r == Failure(SynchronousCall(RunCall))
  {
    Failure(SynchronousCall(RunCall))
  }

  function Get(stmt: Statement, params: seq<Value>): (r: Result<Option<Row>, AdapterError>)
    ensures r == Failure(SynchronousCall(GetCall))
  {
    Failure(SynchronousCall(GetCall))
  }

  function All(stmt: Statement, params: seq<Value>): (r: Result<seq<Row>, AdapterError>)
    ensures r == Failure(SynchronousCall(AllCall))
  {
    Failure(SynchronousCall(AllCall))
  }

  function Iterate(stmt: Statement, params: seq<Value>): (r: Result<seq<Row>, AdapterError>)
    ensures r == Failure(IterateNotImplemented)
  {
    Failure(IterateNotImplemented)
  }
}
