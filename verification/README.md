# NL2SQL chat of the SQL Study Room

A model of the chat feature of the SQL Study Room. A user asks a question in
natural language. The backend asks a language model for a SQL statement and
cleans the reply of Markdown fences. It lets the statement through a
SELECT-only safety gate, runs it, turns each fetched row into a dict of
column name to value, and records the statement in the QUERY table, a write
that never fails the request. The frontend turns its own view of the
response into the text shown in the chat bubble.

Modules:

- `Text`, `Tokens`, `Wrappers`: string helpers and `Option`. These cover
  trimming, ASCII upper-casing, substring search, `' '.join(s.split())`
  (`Collapse`) and splitting into lines.
- `SafeSql`: the gate `is_safe_sql`. It trims, upper-cases, removes `--`
  comments, then removes closed `/* */` comments, collapses whitespace, and
  requires a leading `SELECT` and none of the seven denylisted keywords.
  `SafeSqlExamples` applies it to concrete statements.
- `Fences`: the cleanup of the model's reply. The `re.sub` calls with `\s*`
  are modelled as scanning removals.
- `Rows`: `dict(zip(columns, row))`. A dict is a list of pairs in insertion
  order; a repeated key keeps its first position and its last value.
- `ChatViews`: the `nl2sql` handler as a state machine
  (Received, Translated, Validated, Executed, Responded). The model, the
  database, the audit write and the SQL gate are parameters (`Env`).
  `Nl2Sql` is the handler with the backend's gate.
- `ChatFormat`: `formatNL2SQLResult` over the frontend's own
  `NL2SQLResponse` shape. That shape has `columns` and `rows`, which the
  backend never sends. The two shapes are deliberately kept apart.
- `SqlScan`: a comment scanner that reads `--` and `/* */` comments in one
  left-to-right pass, the
  gate built on it, and the statement on which the two gates disagree (see
  Findings).

Details of the code worth noting:

- The gate trims first and upper-cases second. The order does not change
  the verdict.
- A model failure answers with `"OpenAI API error: "` followed by the
  message, not the bare upstream message.
- An explicit `"account_number": null` is stored as null. The default 1
  applies only when the key is missing.
- The truncation line of the frontend begins with the three characters
  U+00E2 U+20AC U+00A6. That is the mis-decoded UTF-8 of an ellipsis as it
  stands in the file, and it is modelled as written.

## Model

| member | source | states |
|---|---|---|
| SafeSql.IsSafeSql | backend/sqlapi/api/views/chat_views.py:46-64 | a statement is safe exactly when its normalised text starts with SELECT and contains none of the denylisted keywords |
| SafeSql.Normalize | backend/sqlapi/api/views/chat_views.py:48-52 | the text the gate inspects has single spaces between words and none at its edges |
| SafeSql.CloseIndex | backend/sqlapi/api/views/chat_views.py:51 | the non-greedy block-comment match ends at the first `*/` after the opening, and finds none exactly when none exists |
| SafeSql.LineRest | backend/sqlapi/api/views/chat_views.py:50 | a `--` comment runs up to, and not including, the next newline: what remains is the suffix from the first newline on, and nothing when there is no newline |
| SafeSql.LineCommentToNewline | backend/sqlapi/api/views/chat_views.py:50 | a `--` comment is removed up to the newline that ends it; the newline stays and removal goes on after it |
| SafeSql.LineCommentToEnd | backend/sqlapi/api/views/chat_views.py:50 | a `--` comment without a newline is removed to the end of the text |
| SafeSql.LineIdentity | backend/sqlapi/api/views/chat_views.py:50 | text without `--` passes the line-comment removal unchanged |
| SafeSql.BlockCommentGone | backend/sqlapi/api/views/chat_views.py:51 | a block comment is removed up to and including the first `*/` after its opening |
| SafeSql.BlockUnclosed | backend/sqlapi/api/views/chat_views.py:51 | an opening `/*` with no `*/` after it stays, and removal goes on behind it |
| SafeSql.BlockIdentity | backend/sqlapi/api/views/chat_views.py:51 | text without `/*` passes the block-comment removal unchanged |
| SafeSql.CleanNoComments | backend/sqlapi/api/views/chat_views.py:50-52 | on text without comment markers the two removals change nothing and only the whitespace is collapsed |
| SafeSql.CleanPadded | backend/sqlapi/api/views/chat_views.py:50-52 | whitespace around the text never reaches the cleaned result |
| Tokens.CollapseSpec | backend/sqlapi/api/views/chat_views.py:52 | splitting and joining with single spaces gives normal spacing, keeps every non-whitespace character in order, and keeps the words apart: the collapsed text splits into the same words |
| Tokens.WordsJoin | backend/sqlapi/api/views/chat_views.py:52 | words without whitespace joined by single spaces split back into the same words |
| Tokens.CollapseIdentity | backend/sqlapi/api/views/chat_views.py:52 | text already in normal spacing is unchanged |
| Tokens.CollapsePadded | backend/sqlapi/api/views/chat_views.py:52 | whitespace around the text does not change the collapsed form |
| Tokens.CollapseContains | backend/sqlapi/api/views/chat_views.py:52 | a piece of text without whitespace that occurs before collapsing still occurs after it |
| SafeSql.NormalizeSkipsStrip | backend/sqlapi/api/views/chat_views.py:48-52 | trimming before normalising changes nothing, because the collapse drops edge whitespace anyway |
| SafeSql.PaddingIgnored | backend/sqlapi/api/views/chat_views.py:48 | whitespace around a statement does not change the verdict |
| SafeSql.CaseInsensitive | backend/sqlapi/api/views/chat_views.py:48 | the verdict does not depend on letter case |
| SafeSql.WhitespaceOnlyUnsafe | backend/sqlapi/api/views/chat_views.py:55-56 | empty or whitespace-only text is refused |
| SafeSql.KeywordRejected | backend/sqlapi/api/views/chat_views.py:59-62 | a denylisted keyword anywhere in comment-free text refuses the statement, in any case, after a `;` or inside an identifier |
| SafeSql.TrailingLineCommentIgnored | backend/sqlapi/api/views/chat_views.py:50 | a `--` comment running to the end of the text does not change the verdict |
| SafeSql.LeadingLineCommentIgnored | backend/sqlapi/api/views/chat_views.py:50 | a `--` comment line before the statement does not change the verdict |
| SafeSql.BlockCommentIgnored | backend/sqlapi/api/views/chat_views.py:51 | a closed block comment between two pieces of text is read as if the pieces were adjacent |
| SafeSqlExamples.NormalFormFixed | backend/sqlapi/api/views/chat_views.py:48-52 | text that is upper-case, comment-free and singly spaced is its own normal form |
| SafeSqlExamples.PlainSelectSafe | backend/sqlapi/api/views/chat_views.py:55-64 | such text is accepted when it starts with SELECT and lacks the letters A, D, I, N and U, since each denylisted keyword holds one of them |
| SafeSqlExamples.SelectAllExample | backend/sqlapi/api/views/chat_views.py:46-64 | `SELECT * FROM PROBLEM` is accepted |
| SafeSqlExamples.TrailingCommentExample | backend/sqlapi/api/views/chat_views.py:50 | a DROP inside a trailing `--` comment is ignored |
| SafeSqlExamples.LeadingCommentExample | backend/sqlapi/api/views/chat_views.py:50 | a statement after a comment line is accepted |
| SafeSqlExamples.BlockCommentExample | backend/sqlapi/api/views/chat_views.py:51 | a DROP inside a block comment is ignored |
| SafeSqlExamples.StackedStatementExample | backend/sqlapi/api/views/chat_views.py:59-62 | a DROP stacked after `;` is refused |
| SafeSqlExamples.IdentifierExample | backend/sqlapi/api/views/chat_views.py:61 | a column named `Created_at` is refused, since the keyword test is a substring test |
| SafeSqlExamples.DeleteExample | backend/sqlapi/api/views/chat_views.py:55-56 | a lower-case `delete` statement is refused for not starting with SELECT |
| Fences.RemoveMarkerAbsent | backend/sqlapi/api/views/chat_views.py:117-118 | a substitution whose marker does not occur leaves the text unchanged |
| Fences.RemoveMarkerSkip | backend/sqlapi/api/views/chat_views.py:117-118 | text in front that holds no back-tick passes through a substitution unchanged |
| Fences.OpeningFence | backend/sqlapi/api/views/chat_views.py:117 | the opening fence with the whitespace after it is removed, up to the first other character |
| Fences.ClosingFence | backend/sqlapi/api/views/chat_views.py:117-118 | a closing fence is left alone by the first substitution and removed by the second |
| Fences.CleanReply | backend/sqlapi/api/views/chat_views.py:114-119 | the extracted statement has no edge whitespace and no fence left in it |
| Fences.NoFenceLeft | backend/sqlapi/api/views/chat_views.py:118 | removing every fence never joins leftover back-ticks into a new fence |
| Fences.PlainReply | backend/sqlapi/api/views/chat_views.py:114-119 | a reply without back-ticks is used as it is, apart from edge whitespace |
| Fences.FencedReply | backend/sqlapi/api/views/chat_views.py:117-119 | a statement wrapped in a sql fence comes out bare |
| Fences.CleanReplyIdempotent | backend/sqlapi/api/views/chat_views.py:114-119 | cleaning a cleaned statement changes nothing |
| Fences.FenceExample | backend/sqlapi/api/views/chat_views.py:114-119 | a fenced `SELECT 1` on its own lines yields `SELECT 1` |
| Rows.Zip | backend/sqlapi/api/views/chat_views.py:139 | pairs column names with values up to the shorter of the two |
| Rows.LastValue | backend/sqlapi/api/views/chat_views.py:139 | names the value paired last with a key, or none when the key is never paired |
| Rows.InsertLookup | backend/sqlapi/api/views/chat_views.py:139 | after an assignment to a key the key holds the new value and every other key its old one |
| Rows.InsertKeys | backend/sqlapi/api/views/chat_views.py:139 | an assignment keeps the place of an existing key and puts a new key last |
| Rows.DictLookup | backend/sqlapi/api/views/chat_views.py:139 | looking a key up in `DictOf` of pairs, Python's `dict(pairs)`, finds the value paired with it last |
| Rows.DictDistinct | backend/sqlapi/api/views/chat_views.py:139 | no key appears twice in a built dict |
| Rows.DictOfDistinct | backend/sqlapi/api/views/chat_views.py:139 | with distinct keys the dict holds exactly the pairs, in order |
| Rows.RowDictExact | backend/sqlapi/api/views/chat_views.py:133-139 | `RowDict`, the dict built from the column names and a row: with distinct column names and a full row, entry i maps column i to value i |
| Rows.RowDictLookup | backend/sqlapi/api/views/chat_views.py:133-139 | a column name holds the value of the last column of that name; columns beyond the row are missing |
| ChatViews.AccountAudited | backend/sqlapi/api/views/chat_views.py:80 | a successful query is stored under account 1 when the key is missing, under null when it is null, and under the number otherwise |
| ChatViews.AuditLogged | backend/sqlapi/api/views/chat_views.py:66-75 | a failed write leaves only its printed line behind and the request still succeeds; a stored one leaves nothing |
| ChatViews.Assemble | backend/sqlapi/api/views/chat_views.py:136-139 | the appending loop yields one dict per fetched row, in order, each built from the column names and that row |
| ChatViews.Step | backend/sqlapi/api/views/chat_views.py:77-163 | a step from an unfinished stage moves strictly closer to the response |
| ChatViews.Run | backend/sqlapi/api/views/chat_views.py:77-163 | every request ends in a response |
| ChatViews.StepKeepsInvariant | backend/sqlapi/api/views/chat_views.py:77-163 | each step keeps the invariant: only gated statements run, each service is used at most once, the audit follows a successful execution |
| ChatViews.RunKeepsInvariant | backend/sqlapi/api/views/chat_views.py:77-163 | the invariant holds at the response |
| ChatViews.Handle | backend/sqlapi/api/views/chat_views.py:77-163 | status 200 exactly when the error is null and exactly when the query is audited; row_count is the number of results; only statements the gate passed are executed; one model call, one execution and one audit at most |
| ChatViews.Nl2Sql | backend/sqlapi/api/views/chat_views.py:77-163 | the same with the backend's gate: nothing runs that `is_safe_sql` refused |
| ChatViews.MissingQuestion | backend/sqlapi/api/views/chat_views.py:82-83 | an empty or missing question gets 400 `question required` and consults nothing |
| ChatViews.ModelFails | backend/sqlapi/api/views/chat_views.py:158-163 | a failing model call gets 500 with an empty statement and the prefixed message, and runs nothing |
| ChatViews.UnsafeRejected | backend/sqlapi/api/views/chat_views.py:121-127 | a statement the gate refuses is echoed with 400 and the fixed message, and is never run |
| ChatViews.DatabaseFails | backend/sqlapi/api/views/chat_views.py:151-156 | a failing execution gets 400 with the statement and the prefixed message, and is not audited |
| ChatViews.Succeeds | backend/sqlapi/api/views/chat_views.py:129-149 | a successful execution gets 200 with one dict per row, a null error, the row count, and one audit of the statement under the request's account |
| ChatViews.AuditIrrelevant | backend/sqlapi/api/views/chat_views.py:66-75 | the outcome of the audit write never changes the response |
| ChatFormat.NatToString | frontend/src/api/chat.ts:77 | a count prints as a non-empty run of decimal digits without a leading zero |
| ChatFormat.DigitsRoundTrip | frontend/src/api/chat.ts:77 | reading the printed digits back gives the count |
| ChatFormat.NatToStringInjective | frontend/src/api/chat.ts:77 | different counts print differently |
| ChatFormat.Cells | frontend/src/api/chat.ts:68-71 | the mapped columns give one cell per column, in column order, each the text of that column's value |
| ChatFormat.CellsReport | frontend/src/api/chat.ts:68-72 | in a row line the cell of a column is empty when the key is missing or null, and the value through `String` otherwise |
| ChatFormat.RowLineDepends | frontend/src/api/chat.ts:70 | a row line depends only on the values the row holds under the columns; a missing key and null print alike |
| ChatFormat.RowLines | frontend/src/api/chat.ts:67-73 | the mapped rows give one line per row, in row order |
| ChatFormat.BodyLines | frontend/src/api/chat.ts:66-73 | one line per row for at most the first 10 rows, in order |
| ChatFormat.FormatShape | frontend/src/api/chat.ts:40-83 | for any text in the fields: an error opens the output; otherwise the statement part and a blank line open it, followed by the no-columns note, the zero-rows note, or the title and header, with the truncation line last when rows were left out |
| ChatFormat.ErrorLeads | frontend/src/api/chat.ts:42-45 | a truthy error opens the output, whatever the detail and the statement hold |
| ChatFormat.ErrorReport | frontend/src/api/chat.ts:41-46 | a truthy error gives the error line, a detail line when there is a detail, and the statement after a blank line when there is one |
| ChatFormat.ErrorIgnoresTable | frontend/src/api/chat.ts:42-46 | with an error, the question, columns and rows do not matter |
| ChatFormat.NoColumnsReport | frontend/src/api/chat.ts:48-57 | no columns gives the statement part, a blank line and the no-columns note |
| ChatFormat.NoRowsReport | frontend/src/api/chat.ts:59-61 | columns without rows gives the statement part, a blank line and the zero-rows note |
| ChatFormat.TableReport | frontend/src/api/chat.ts:63-82 | a table gives the statement part, a blank line, the title, the header, one line per shown row, and a truncation line exactly when there are more than 10 rows |
| ChatFormat.FirstRowsOnly | frontend/src/api/chat.ts:66-78 | rows after the tenth change nothing but the count of hidden rows |
| ChatFormat.TruncationLineInjective | frontend/src/api/chat.ts:75-78 | the truncation line tells apart different numbers of hidden rows |
| SqlScan.HiddenDropPasses | backend/sqlapi/api/views/chat_views.py:50-51 | the backend's gate accepts a statement that holds a DROP outside every comment when `--` and `/* */` comments are read in one left-to-right pass |
| SqlScan.HandlerRunsHiddenDrop | backend/sqlapi/api/views/chat_views.py:122-132 | when the model answers with that statement, the backend's handler executes it |
| SqlScan.IsSafeSqlScanned | backend/sqlapi/api/views/chat_views.py:46-64 | the corrected gate: the same SELECT test and denylist over text with comments read in one pass |
| SqlScan.ScannedRejectsCode | backend/sqlapi/api/views/chat_views.py:50-62 | a denylisted keyword anywhere outside the comments of the one-pass reading makes the corrected gate refuse |
| SqlScan.ScannedAgrees | backend/sqlapi/api/views/chat_views.py:50-51 | without comment markers the corrected gate agrees with the backend's |
| SqlScan.Nl2SqlScanned | backend/sqlapi/api/views/chat_views.py:77-163 | the handler with the corrected gate never executes a denylisted keyword outside the comments of the one-pass reading |
| SqlScan.HiddenDropRejected | backend/sqlapi/api/views/chat_views.py:50-51 | the corrected gate refuses the statement |
| SqlScan.ScannedHandlerRefuses | backend/sqlapi/api/views/chat_views.py:121-127 | the handler with the corrected gate answers 400 to it and runs nothing |

## Left out

- The language-model call is a parameter. The schema text and the prompt are not modelled, and neither are the model name, the token limit or the temperature. The model's answer is either a reply or a failure message.
- Statement execution is a parameter. It yields column names and rows, or a failure message. A statement without a result set, where the cursor description is null, shows up as such a failure, just as it raises in Python.
- The QUERY-table insert and its timestamp are left out. Only the outcome of the write (stored or failed) and the line printed on failure are modelled.
- Python's `str.upper()`, `str.split()` and `\s` are modelled over ASCII: the letters a-z, plus space, tab, newline, vertical tab, form feed, carriage return and the separators U+001C to U+001F. Unicode case mapping and the other Unicode whitespace are left out.
- A question that is not a string, such as a number in the JSON body, is not modelled. The question is a string or missing.
- The upper-case fence "```SQL" is not special in the cleanup, and the model treats it the same way as the code: only "```" is removed from it.
- The frontend's `String(value)` is a parameter `show`. A missing field and `undefined` are the same `None`. An empty string counts as falsy, as in JavaScript.
- `callNL2SQL` and the HTTP transport are left out. So are the other views and components of the repository, which are not part of this model.
- ChatFormat.CellText: a key missing from the row object shows as the empty string. In JavaScript, `row[c]` for a missing key such as `constructor`, `toString` or `__proto__` finds the value inherited from `Object.prototype` and prints it; the model does not model the prototype chain.
- ChatFormat.ErrorReport: the line structure is stated only for an error, detail and statement without newlines of their own, since a newline inside them would split a line.
- ChatFormat.NoColumnsReport: stated for a statement without newlines, for the same reason.
- ChatFormat.NoRowsReport: stated for a statement without newlines, for the same reason.
- ChatFormat.TableReport: stated for tables whose statement, column names and shown values hold no newlines. Each body line is stated through `Cells`, not by splitting it again on ` | `, since a value may itself contain ` | `.
- ChatViews.Nl2Sql: carries the gate guarantee and the status and audit facts, but not the trace-ordering facts that `Handle` states for any gate.
- SqlScan.StripComments: reads only `--` and `/* */` comments in one pass, which is not all of how MySQL, the backend's database, reads comments. Comment openers inside string literals are still read as comments, since SQL string literals are not modelled. `--` opens a comment even when no whitespace follows it, whereas MySQL reads `1 --1` as `1 - -1`, so both gates accept `SELECT 1 --1; DROP TABLE PROBLEM;`. MySQL's `#` comments are not read. MySQL's `/*! ... */` comments, which MySQL executes as code, are removed like any other block comment.

## Findings

| source | as written | input that shows it | evidently intended | confidence | as-written member | corrected member |
|---|---|---|---|---|---|---|
| backend/sqlapi/api/views/chat_views.py:50-51 | All `--` comments are removed before the block comments, so a `--` inside a block comment also removes the `*/` that closes it, together with the rest of that line. | `SELECT 1 /* -- */; DROP TABLE PROBLEM;` followed by a newline and `/* */`: the gate sees `SELECT 1` and accepts it. Read in one left-to-right pass, as MySQL reads this statement, `; DROP TABLE PROBLEM;` is code. | `--` and `/* */` comments are read in one left-to-right pass, so every keyword outside them is checked against the denylist. | not executed | SqlScan.HiddenDropPasses | SqlScan.IsSafeSqlScanned |

The exhibit also shows that the backend's handler executes this statement
when the model answers with it (`SqlScan.HandlerRunsHiddenDrop`). The
handler built on the corrected gate, `SqlScan.Nl2SqlScanned`, never
executes a denylisted keyword outside the comments of the one-pass reading.
It refuses this statement
with 400 (`SqlScan.ScannedHandlerRefuses`). `ChatViews.Nl2Sql` keeps the
backend's gate, because it models the code as written.
