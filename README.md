# Supabase adapter: the prepared-statement translator

This project models the part of the MCP server's Supabase database adapter that
has its own logic. `SupabasePreparedStatement` reads a SQL text once, taking
the target table from the first `FROM`/`INTO`/`UPDATE` clause and the
operation from the leading keyword. On execution it turns the text and its
positional parameters into one of a few fixed requests to the Supabase
client. The model also covers the advisory in-transaction flag that
`SupabaseAdapter.transaction` keeps.

Layout:

- `wrappers.dfy`: `Option` and `Result`.
- `js_text.dfy` (module `JsText`): hand-written scanners for the JavaScript
  string operations and regular expressions the statement applies. These are
  `trim()`, `toUpperCase()`, `includes()`, `replace(/%/g, '')`, `parseInt` of
  a digit run, and the patterns `\s+`, `\w+`, `\d+` and an ASCII keyword
  under the `i` flag, scanned leftmost-first as `String.prototype.match` does.
- `statement.dfy` (module `PreparedStatement`): the statement.
  - Table name, operation, SELECT routing and the INSERT row are functions.
  - `handleSelect` is a method that builds its query step by step and is
    proved equal to the function `SelectRows`.
  - The Supabase client is a parameter `backend: Request -> Response`. It
    takes the request the statement issues and gives back the
    `{data, count, error}` it answers.
- `statement_properties.dfy` (module `StatementProperties`): lemmas over the
  whole input space.
- `adapter.dfy` (module `Adapter`): class `SupabaseAdapter` with the
  `inTransaction` field and `Transaction`.

JavaScript semantics the model fixes:

- White space for `\s` and `trim()` is the ECMAScript WhiteSpace and
  LineTerminator set.
- Under `/i` without `/u`, an ASCII keyword matches only its ASCII case
  variants.
- `toUpperCase()` is modelled per code point for every code point whose
  upper case begins with an ASCII letter (`ı`, `ſ`, `ß`, the `ﬀ`–`ﬆ`
  ligatures, …). Every other code point is kept unchanged; none of them can
  change whether the text starts with `SELECT`, `INSERT`, `UPDATE` or
  `DELETE`.

The class declares a synchronous `run`/`get`/`all` after each asynchronous
one, and in a JavaScript class body the later member replaces the earlier
one. Both forms are modelled (see Findings). A text with no table reference
targets `nodes`, which is then renamed to `n8n_nodes`.

## Model

| member | source | states |
|---|---|---|
| JsText.Trim | src/database/supabase-adapter.ts:91 | `trim()`: the result is a slice of the input, with only white space cut from each side, and it neither starts nor ends with white space |
| JsText.TrimIgnoresPadding | src/database/supabase-adapter.ts:91 | trimming ignores any white space added around the text |
| JsText.TrimCommutesWithLower | src/database/supabase-adapter.ts:91 | folding ASCII case commutes with `trim()` |
| JsText.UpperConcat | src/database/supabase-adapter.ts:91 | `toUpperCase()` works code point by code point: the upper case of a concatenation is the concatenation of the upper cases |
| JsText.UpperOfCapitals | src/database/supabase-adapter.ts:91 | a text of ASCII capitals is its own upper case |
| JsText.UpperIgnoresAsciiCase | src/database/supabase-adapter.ts:91 | `toUpperCase()` forgets the ASCII case of its input |
| JsText.Contains | src/database/supabase-adapter.ts:190 | `includes(p)` holds exactly when p occurs at some position of the text |
| JsText.FirstMatch | src/database/supabase-adapter.ts:79 | a non-global `match` reports the leftmost position where the pattern matches, with nothing matching before it; no result means no position matches |
| JsText.RunEnd | src/database/supabase-adapter.ts:79 | a greedy `\s+`/`\w+`/`\d+` run ends at the first character outside the class |
| JsText.RemoveAll | src/database/supabase-adapter.ts:226 | `replace(/%/g, '')` leaves no `%` and keeps every other character as often as before |
| JsText.RemoveAllKeepsOrder | src/database/supabase-adapter.ts:226 | removing `%` keeps the remaining characters in their order |
| JsText.DecimalRoundTrip | src/database/supabase-adapter.ts:244 | `parseInt` of the decimal numeral of n is n |
| PreparedStatement.TableName | src/database/supabase-adapter.ts:77-88 | the table is a non-empty word and never the SQLite name `nodes` |
| PreparedStatement.KeywordThenWord | src/database/supabase-adapter.ts:79 | one alternative `kw\s+(\w+)` captures a non-empty word |
| StatementProperties.KeywordThenWordSpelled | src/database/supabase-adapter.ts:79 | a word captured by `kw\s+(\w+)` at a position is spelled there: kw in some ASCII case, at least one white-space character, and the maximal word |
| PreparedStatement.TableRefAt | src/database/supabase-adapter.ts:79 | a table reference captured at a position is a non-empty word |
| StatementProperties.TableRefAtSpelled | src/database/supabase-adapter.ts:79 | a reference found at a position is FROM, INTO or UPDATE spelled there, white space, and the maximal word that is the reference |
| StatementProperties.BackendTableRenamesOnlyNodes | src/database/supabase-adapter.ts:82-87 | `BackendTable` renames the SQLite name `nodes` and keeps every other name; its result is never `nodes` |
| StatementProperties.TableNameWithoutReference | src/database/supabase-adapter.ts:79-84 | a text in which no reference starts anywhere targets `n8n_nodes` |
| StatementProperties.TableNameOfReference | src/database/supabase-adapter.ts:77-88 | FROM/INTO/UPDATE in any ASCII case, white space and a word, with no reference earlier, give that word as the table, or `n8n_nodes` for `nodes` |
| StatementProperties.TableNameAt | src/database/supabase-adapter.ts:77-88 | the same, stated over positions in the text |
| StatementProperties.TableRefAtKeyword | src/database/supabase-adapter.ts:79 | whichever of FROM, INTO, UPDATE is spelled at a position, followed by at least one white-space character and a word, the reference there is that maximal word |
| StatementProperties.NoReferenceAt | src/database/supabase-adapter.ts:79 | no reference starts at a letter other than f, i or u |
| StatementProperties.SelectFromNodesTargetsN8nNodes | src/database/supabase-adapter.ts:77-88 | `SELECT * FROM nodes` targets `n8n_nodes` |
| StatementProperties.SelectFromNodesThen | src/database/supabase-adapter.ts:77-88 | `SELECT * FROM nodes` followed by any text that does not continue the word targets `n8n_nodes` |
| PreparedStatement.Classify | src/database/supabase-adapter.ts:92-96 | the operation is X exactly when X's keyword is a prefix of the upper-cased text |
| PreparedStatement.Operation | src/database/supabase-adapter.ts:90-97 | the same, for the trimmed and upper-cased SQL |
| PreparedStatement.Prepare | src/database/supabase-adapter.ts:70-75 | a statement keeps its text, its table is `TableName(sql)` and its operation is `Operation(sql)`; the table is a backend table name |
| StatementProperties.OperationOfLeadingKeyword | src/database/supabase-adapter.ts:90-97 | a text that starts, after white space, with an operation keyword in any ASCII case is that operation, whatever follows |
| StatementProperties.OperationIgnoresAsciiCase | src/database/supabase-adapter.ts:90-97 | classification is insensitive to ASCII case |
| StatementProperties.OperationIgnoresPadding | src/database/supabase-adapter.ts:90-97 | classification ignores surrounding white space |
| StatementProperties.UpperOfSpelling | src/database/supabase-adapter.ts:91-95 | every ASCII-case spelling of a word of capitals, such as a keyword, upper-cases to that word |
| StatementProperties.LeadingSpelling | src/database/supabase-adapter.ts:91-95 | a text that begins, after white space, with any ASCII-case spelling of a word of capitals is, trimmed and upper-cased, a text that begins with that word |
| PreparedStatement.PlanSelect | src/database/supabase-adapter.ts:190-236 | planning fails only on a present, non-string first parameter, with that parameter as the error; a search has a term exactly when a parameter is given |
| StatementProperties.RoutingOrder | src/database/supabase-adapter.ts:190-236 | routing is first-match-wins over case-sensitive substrings, in the order node_type filter, is_ai_tool filter, `COUNT(*)`, `LIKE`, default list; the default is chosen exactly when none occurs |
| StatementProperties.LowerCaseTextIsNotRouted | src/database/supabase-adapter.ts:190-236 | a text without capital letters always takes the default list: the tests are case-sensitive |
| StatementProperties.PlanningFailsOnlyOnNonStringTerm | src/database/supabase-adapter.ts:221-226 | planning fails exactly for a LIKE query whose first parameter is present and not a string, and the error names that parameter |
| StatementProperties.SearchTermStripsWildcards | src/database/supabase-adapter.ts:225-226 | the search term is the first parameter without `%`; every other character is kept, as often and in order |
| StatementProperties.SearchWithoutTermHasNoFilter | src/database/supabase-adapter.ts:221-229 | a text routed to the LIKE case with no parameters plans a search without a term, whose query reads `*` from the table with no filter, order or limit |
| StatementProperties.LikeSearchesStrippedTerm | src/database/supabase-adapter.ts:221-227 | a LIKE query whose first parameter is a string searches for it without `%`, with one `.or` filter of the three conditions on that term |
| StatementProperties.WildcardsStrippedFromHttp | src/database/supabase-adapter.ts:221-227 | a LIKE query with parameter `%http%` plans a search for `http`, and its one `.or` filter is `node_type.ilike.%http%`, `display_name.ilike.%http%`, `description.ilike.%http%` |
| StatementProperties.SearchConditionsAreThree | src/database/supabase-adapter.ts:227 | for a comma-free term, the `.or` text is three `ilike` conditions on node_type, display_name and description |
| StatementProperties.SearchConditionCount | src/database/supabase-adapter.ts:227 | each comma in the term adds three conditions to the `.or` text |
| PreparedStatement.LimitAt | src/database/supabase-adapter.ts:242 | a match of `LIMIT\s+(\d+)` at a position begins with LIMIT spelled there |
| StatementProperties.LimitAtSpelled | src/database/supabase-adapter.ts:242-244 | a match at a position is LIMIT in some ASCII case, at least one white-space character and a maximal digit run, and its value is those digits' decimal value |
| StatementProperties.LimitPresentIffClause | src/database/supabase-adapter.ts:242-245 | the list is capped exactly when a `LIMIT`, white space, digits clause occurs somewhere in the text |
| StatementProperties.DefaultListLimit | src/database/supabase-adapter.ts:236-245 | the default list is ordered by display_name and is capped exactly when a `LIMIT`, white space, digits clause occurs; the cap comes from the leftmost clause |
| StatementProperties.LimitOfLeftmost | src/database/supabase-adapter.ts:242-245 | the cap is present exactly when some position starts a `LIMIT` clause, and it is the value of the leftmost such clause |
| StatementProperties.LimitAtClause | src/database/supabase-adapter.ts:242-244 | `LIMIT` in any ASCII case, white space and a maximal digit run match at that position, with the value of the digits |
| StatementProperties.LimitOfClause | src/database/supabase-adapter.ts:242-245 | the cap is the decimal value of the leftmost clause's digits |
| StatementProperties.LimitRoundTrip | src/database/supabase-adapter.ts:242-245 | `LIMIT n` written at the end of a query with no LIMIT clause before it caps the list at n |
| PreparedStatement.SelectQuery | src/database/supabase-adapter.ts:191-244 | every query selects `*` from the statement's table; only COUNT asks for the count alone; only the default list is ordered (by display_name) and limited (by its plan's cap); the node-type lookup filters on node_type with its value, the AI-tool listing on is_ai_tool with `true`, a search with a term by one `.or` of its three conditions, and the COUNT, default-list and termless-search queries carry no filter |
| PreparedStatement.RowsOf | src/database/supabase-adapter.ts:196-249 | a reply fails exactly when the backend reports an error, which is re-thrown unchanged; a COUNT reply is the one row `{count: N}`; any other reply is the backend's `data`, or no rows when it sends none |
| PreparedStatement.SelectRows | src/database/supabase-adapter.ts:186-250 | a planning error is thrown as is; otherwise the result succeeds exactly when the backend answers the plan's query without error, and a successful non-COUNT result is that answer's `data`, or no rows |
| StatementProperties.CountQueryReturnsOneRow | src/database/supabase-adapter.ts:211-218 | a COUNT query answers exactly one row `{count: N}`, or `{count: 0}` when the count is absent |
| StatementProperties.NodeTypeLookup | src/database/supabase-adapter.ts:190-194 | the node-type lookup text `SELECT * FROM nodes WHERE node_type = ?` prepares a statement on `n8n_nodes` and issues exactly `*` from that table with one node_type filter on `params[0]`, no order, no limit |
| StatementProperties.AiToolLookup | src/database/supabase-adapter.ts:200-204 | a text with the is_ai_tool filter and no node_type filter issues exactly `*` from the table with one is_ai_tool filter on `true`, for any parameters |
| StatementProperties.AllAnswersBackendRows | src/database/supabase-adapter.ts:186-249 | a SELECT that is not a COUNT makes `all` answer exactly the backend's rows for its query (`data || []`) and `get` the first of them or `undefined` |
| PreparedStatement.HandleSelect | src/database/supabase-adapter.ts:186-250 | the query built step by step gives the rows of `SelectRows`; a COUNT query returns exactly one row |
| StatementProperties.SelectIssuesOneRequest | src/database/supabase-adapter.ts:186-250 | a SELECT issues one request: backends that answer it alike give the same result |
| PreparedStatement.NodeRow | src/database/supabase-adapter.ts:256-274 | the upserted row has exactly the 17 columns, column i holding `params[i]` (`undefined` past the end) |
| PreparedStatement.NodeColumnsDistinct | src/database/supabase-adapter.ts:256-274 | the 17 column names are distinct |
| StatementProperties.NodeRowRoundTrip | src/database/supabase-adapter.ts:256-274 | reading the row back in column order gives the first 17 parameters |
| PreparedStatement.HandleInsert | src/database/supabase-adapter.ts:252-287 | the insert succeeds exactly when the upsert reports no error, then answers `{changes: 1, lastInsertRowid: 0}`; otherwise it fails with the backend's error |
| StatementProperties.InsertReportsOneChange | src/database/supabase-adapter.ts:283-286 | a successful insert reports one change and row id 0 |
| PreparedStatement.AsyncRun | src/database/supabase-adapter.ts:99-115 | INSERT upserts; UPDATE and DELETE fail as not implemented; SELECT and UNKNOWN fail as unsupported; only an INSERT can succeed |
| PreparedStatement.AsyncGet | src/database/supabase-adapter.ts:122-133 | a SELECT answers its first row, or none when there are no rows; any other operation fails |
| PreparedStatement.AsyncAll | src/database/supabase-adapter.ts:140-150 | a SELECT answers every row; any other operation fails |
| StatementProperties.GetIsFirstOfAll | src/database/supabase-adapter.ts:122-150 | for a SELECT, `get` answers the first row of what `all` answers, and fails exactly when `all` does, with the same error |
| StatementProperties.RejectedCallsIssueNoRequest | src/database/supabase-adapter.ts:99-150 | calls rejected on the operation do not depend on the backend |
| PreparedStatement.Run | src/database/supabase-adapter.ts:117-120 | the `run` the class keeps fails for every statement |
| PreparedStatement.Get | src/database/supabase-adapter.ts:135-138 | the `get` the class keeps fails for every statement |
| PreparedStatement.All | src/database/supabase-adapter.ts:152-155 | the `all` the class keeps fails for every statement |
| PreparedStatement.Message | src/database/supabase-adapter.ts:196-197 | a backend error reaches the caller as its own message, unchanged |
| StatementProperties.RunMessages | src/database/supabase-adapter.ts:101-110 | `run` throws "UPDATE not implemented yet for Supabase adapter", "DELETE not implemented yet for Supabase adapter", or "Unsupported operation: " and the operation's name |
| StatementProperties.GetAllMessages | src/database/supabase-adapter.ts:128-158 | `get`/`all` on another operation throw "get() not supported for operation: " / "all() not supported for operation: " and the operation's name; `iterate` throws "iterate() not implemented for Supabase adapter" |
| PreparedStatement.Iterate | src/database/supabase-adapter.ts:157-159 | `iterate` always fails as not implemented |
| StatementProperties.ShadowedRunLosesInsert | src/database/supabase-adapter.ts:99-120 | an insert the asynchronous `run` would complete fails under the kept `run`, with "Synchronous run() not supported with Supabase. Use async operations." |
| StatementProperties.ShadowedGetAllLoseRows | src/database/supabase-adapter.ts:122-155 | rows the asynchronous `get`/`all` would return are lost under the kept ones, which throw "Synchronous get() …" / "Synchronous all() not supported with Supabase. Use async operations." |
| StatementProperties.InsertIntoNodesStatement | src/database/supabase-adapter.ts:70-97 | `INSERT INTO nodes VALUES (?)` prepares an INSERT into `n8n_nodes` |
| StatementProperties.ShadowedRunExample | src/database/supabase-adapter.ts:99-120 | for that statement the asynchronous `run` succeeds and the kept `run` throws |
| Adapter.SupabaseAdapter.constructor | src/database/supabase-adapter.ts:10-14 | a new adapter is not in a transaction |
| Adapter.SupabaseAdapter.Transaction | src/database/supabase-adapter.ts:41-53 | the body runs seeing the flag raised; its value is returned or its error re-thrown unchanged, and the flag is lowered on both paths |

## Left out

- The Supabase client is not modelled: its query semantics (`eq`, `or`/`ilike`, `order`, `limit`, `upsert` conflict handling) and its Promise plumbing. The model stops at the request value a statement issues and takes the response as an input.
- `createSupabaseAdapter` is not modelled: it probes connectivity over the network.
- `exec`, `close`, `pragma` and `checkFTS5Support` are not modelled: they only log or return a constant.
- `prepare` is not modelled as a separate member: it only constructs the statement, which `Prepare` models.
- `pluck`, `expand`, `raw`, `bind` and `columns` are not modelled: they return `this` or `[]`.
- Logger calls, including the log-and-rethrow `catch` blocks of `run`/`get`/`all`, are not modelled: they change no outcome.
- `handleSelect`'s `single` argument is not modelled: the code never reads it.
- `benchmarks/data.js` is not modelled: it is static generated data.
- Parameter values are limited to `undefined`, `null`, booleans, integers and strings. Floating-point numbers, objects and arrays are not modelled; an object with a `replace` method of its own would not fail in the LIKE branch.
- PreparedStatement.LimitAt: a digit run is read as its exact value; `parseInt` loses precision above 2^53.
- JsText.Upper: code points whose upper case does not begin with an ASCII letter are kept unchanged. This cannot change the operation.
- Text is a sequence of Unicode scalar values, so lone UTF-16 surrogates cannot be written.
- Adapter.SupabaseAdapter.Transaction: a body that calls `transaction` again (which lowers the flag early) is not modelled. Nor are the body's other effects or concurrent callers that see the flag; the body sees only the flag's value.
- A backend error is carried as its message text only.

## Findings

| source | as written | input that shows it | evidently intended | confidence | as-written member | corrected member |
|---|---|---|---|---|---|---|
| src/database/supabase-adapter.ts:99-120 | `run` is declared twice; the synchronous declaration comes later and replaces the asynchronous one, so every `run` throws "Synchronous run() not supported" | `prepare("INSERT INTO nodes VALUES (?)").run()` with a backend that accepts the upsert | INSERT upserts and answers `{changes: 1, lastInsertRowid: 0}` | not executed; a TypeScript build also reports the duplicate member | PreparedStatement.Run, StatementProperties.ShadowedRunExample | PreparedStatement.AsyncRun, StatementProperties.InsertReportsOneChange |
| src/database/supabase-adapter.ts:122-155 | `get` and `all` are declared twice in the same way, so both always throw | `prepare("SELECT * FROM nodes WHERE node_type = ?").get("webhook")` when the backend has a matching row | `get` answers the first selected row and `all` every row | not executed; a TypeScript build also reports the duplicate members | PreparedStatement.Get, PreparedStatement.All, StatementProperties.ShadowedGetAllLoseRows | PreparedStatement.AsyncGet, PreparedStatement.AsyncAll, StatementProperties.GetIsFirstOfAll |
