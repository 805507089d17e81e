# Task manager chatbot: a Dafny model of its core

This project models the logic of a small kanban board with an LLM chat front-end and proves
properties about it. The board is a React client with an Express and PostgreSQL server. The
model covers:

- **Board** (`src/components/Board/Board.jsx`): grouping fetched tasks into columns by
  status, the z-index stacking pass, the `{id, position}` payload, and the insert index and
  splices of a drag-and-drop. It also covers the per-id priority, assignee and delete updates,
  and the component state those handlers change (a class `BoardState`).
- **AiService** (`src/services/aiService.js`): the validator of generated tasks with its
  ordered error conditions, and the three-step JSON extraction, with `JSON.parse` as a
  parameter. It also covers the prompt and provider gating of `generateTasks`, with each
  provider's reply as a parameter.
- **Server** (`server.js`): the `.env` update, which parses lines into an insertion-ordered
  map (a class `OrderedMap` built by a loop), overwrites the two API keys and serialises the
  result. Also the API-key masking, the priority and bulk-delete input checks, and the
  normalisation of the create-tasks body.
- **Db** (`src/utils/db.js`): `buildWhereClause` (a loop numbering placeholders), the
  `paginate` arithmetic, and the BEGIN/COMMIT/ROLLBACK/release protocol of `transaction` on
  a logging client (a class `PoolClient`).
- **ChatBot** (`src/components/Chat/ChatBot.jsx`): the keyword classifier, the send guard
  and the generation summary, and the chat state (a class `ChatSession`).
- **AssignmentModal** (`src/components/Board/TaskAssignmentModal.jsx`): the user search
  filter and the modal state.
- **Avatar** (`src/components/ui/Avatar.jsx`): initials, and the string hash to hue.

Helper modules: `Wrappers` (Option, Result), `Seqs` (filter, splice, subsequence lemmas),
`Text` (the JavaScript string operations used: `trim`, ASCII case mapping, `includes`,
`split`, `join`, decimal rendering) and `Js` (JavaScript values, truthiness, property reads,
`ToInt32`, the truncating remainder).

## Model

| member | source | states |
|---|---|---|
| Board.OrganizeByStatus | src/components/Board/Board.jsx:81-89 | a status has a group exactly when some task has it; each group is that status's tasks in input order (the corrected grouping, with a dictionary that knows only its own keys) |
| Board.TaskInItsGroup | src/components/Board/Board.jsx:81-89 | every task lands in the group of its own status |
| Board.GroupsCountAll | src/components/Board/Board.jsx:81-89 | over distinct statuses covering all tasks, the group sizes add up to the number of tasks: nothing lost, nothing duplicated |
| Board.OrganizeAsWritten | src/components/Board/Board.jsx:81-89 | the code as written, with a `{}` accumulator, throws exactly when some status names an inherited object property |
| Board.OrganizeAsWrittenGroups | src/components/Board/Board.jsx:81-89 | without such a status, the code as written yields the same grouping as the corrected one |
| Board.InheritedStatusBreaksGrouping | src/components/Board/Board.jsx:81-89 | one task with status "constructor" makes the grouping throw, though its group is well defined |
| Board.Regroup | src/components/Board/Board.jsx:51-56 | each column receives the group named by its id, or no tasks; ids and titles are kept |
| Board.Stack | src/components/Board/Board.jsx:62-70 | stacking changes only each card's z-index, and gives every card one |
| Board.StackOrder | src/components/Board/Board.jsx:62-70 | z-indices strictly decrease down a column, from n on the top card to 1 on the last |
| Board.StackAll | src/components/Board/Board.jsx:62-70 | every column is stacked and keeps its id |
| Board.Payload | src/components/Board/Board.jsx:93-96 | one payload entry per card, carrying that card's id |
| Board.PayloadPositions | src/components/Board/Board.jsx:93-96 | a column of n cards is sent exactly the positions 0 .. n-1, in list order |
| Board.FindColumn | src/components/Board/Board.jsx:240-241 | the first column with the id, or -1 when there is none |
| Board.FindTask | src/components/Board/Board.jsx:245-248 | the first card with the id, or -1 when there is none |
| Board.InsertIndex | src/components/Board/Board.jsx:256-273 | the index lies in [0, len]; it is the end when nothing is hovered, the column end is hovered, or the hovered card is not found |
| Board.InsertIndexAtHovered | src/components/Board/Board.jsx:263-272 | a hovered card found at k gives k for the top half and k+1 for the bottom half, so the dragged card lands just before or just after it |
| Board.WithTasks | src/components/Board/Board.jsx:277-281 | only the column with the id gets the new tasks; ids and titles are kept |
| Board.DropOutcome | src/components/Board/Board.jsx:233-353 | a drop keeps the column ids; it sends nothing exactly when it stops early, and then changes nothing; it sends at most three requests |
| Board.DropUnknownIsNoOp | src/components/Board/Board.jsx:240-248 | an unknown source or target column, or a card absent from the source, changes nothing, sends nothing and keeps the drag state |
| Board.SameColumnDrop | src/components/Board/Board.jsx:252-283 | a drop inside one column permutes it: same length and multiset, the card at the insert index, the other cards in their old order, other columns unchanged, one positions request |
| Board.CrossColumnDrop | src/components/Board/Board.jsx:285-337 | with an OK status reply, the source loses exactly the card, the target gains it at the insert index, other columns are unchanged, and the requests are the status change then both new orders |
| Board.CrossColumnDropRefused | src/components/Board/Board.jsx:312-345 | without an OK status reply the columns are unchanged and only the status request went out |
| Board.DropKeepsAllCards | src/components/Board/Board.jsx:233-353 | for distinct column ids, no drop creates or loses a card: the multiset of all cards is unchanged |
| Board.SameColumnKeepsCards | src/components/Board/Board.jsx:252-281 | a same-column drop keeps the multiset of all cards |
| Board.CrossColumnKeepsCards | src/components/Board/Board.jsx:285-337 | an accepted cross-column drop keeps the multiset of all cards |
| Board.SetPriority | src/components/Board/Board.jsx:368-375 | cards with the id get the new priority and nothing else changes; every other card and column is unchanged |
| Board.SetAssignee | src/components/Board/Board.jsx:469-484 | cards with the id get the user's id, name, email and avatar; every other card and column is unchanged |
| Board.Without | src/components/Board/Board.jsx:436-438 | an order-preserving subsequence holding exactly the cards with another id, each as many times as before; cards with the id are all gone |
| Board.RemoveTask | src/components/Board/Board.jsx:442-446 | every column keeps exactly its cards with another id, in order and with every copy; ids and titles are kept |
| Board.RemoveAbsentTask | src/components/Board/Board.jsx:442-446 | deleting an id that is on no card changes nothing |
| Board.ColumnHolding | src/components/Board/Board.jsx:431-433 | the first column holding a card with the id, or -1 |
| Board.BoardState.constructor | src/components/Board/Board.jsx:28-43 | the three initial columns, no drag; the board is fresh unless the stored flag is exactly "true" |
| Board.BoardState.ApplyFetched | src/components/Board/Board.jsx:45-70 | each column receives its status group, stacked, built with the corrected grouping of the Findings row; the fresh flag is cleared when tasks came back; the column ids and titles never change |
| Board.BoardState.DragStart | src/components/Board/Board.jsx:190-194 | records the dragged card and changes nothing else |
| Board.BoardState.DragOverTask | src/components/Board/Board.jsx:196-210 | hovering the dragged card itself changes nothing; another card is recorded with the half under the pointer |
| Board.BoardState.ColumnDragOver | src/components/Board/Board.jsx:212-218 | with nothing hovered, the column end becomes the target, bottom side; otherwise nothing changes |
| Board.BoardState.DragLeave | src/components/Board/Board.jsx:220-225 | leaving for an element outside clears the hover; otherwise nothing changes |
| Board.BoardState.DragEnd | src/components/Board/Board.jsx:227-231 | clears the dragged card, the hover and the side |
| Board.BoardState.Drop | src/components/Board/Board.jsx:233-353 | the splices yield the columns and requests of the drop outcome; the drag state is cleared only when the drop ran to the end; column ids are kept |
| Board.BoardState.ChangePriority | src/components/Board/Board.jsx:355-381 | an accepted change sets the priority of that card only; a refused one changes nothing |
| Board.BoardState.AssignTask | src/components/Board/Board.jsx:459-492 | success copies the user onto that card and returns true; a declined reply closes the modal and returns nothing; a thrown request returns false |
| Board.BoardState.DeleteTask | src/components/Board/Board.jsx:420-457 | success removes the id from every column and sends the new order of the first column that held it; failure changes nothing |
| AiService.FirstMissing | src/services/aiService.js:115-121 | the index of the first required field that is falsy, or -1 exactly when all are truthy |
| AiService.CheckTask | src/services/aiService.js:114-131 | a task passes the checks exactly when it is well formed (readable, all fields truthy, a valid priority, a positive number of minutes) |
| AiService.CheckTaskOrder | src/services/aiService.js:114-131 | a missing field is reported first, naming the first one in field order; then a bad priority; then a bad estimated time |
| AiService.FirstFailure | src/services/aiService.js:114-132 | no error exactly when every task is well formed; otherwise the error of a bad task after only good ones |
| AiService.Validate | src/services/aiService.js:100-135 | success exactly for an array of well-formed tasks, returning the input unchanged; a non-array is refused as such |
| AiService.FirstBadTaskDecides | src/services/aiService.js:114-132 | the lowest-numbered bad task decides the error |
| AiService.FencedBlock | src/services/aiService.js:25-26 | a captured block fits inside the text with room for both fences, and contains no fence: the lazy match stops at the first closing fence |
| AiService.FencedBlockExists | src/services/aiService.js:25-26 | a fenced block is found exactly when the text holds two fences that do not overlap |
| AiService.FencedPayload | src/services/aiService.js:25-29 | the usual answer (a json fence, a line break, the payload, a line break, a closing fence) yields the payload once trimmed |
| AiService.BracketSpan | src/services/aiService.js:33-35 | a span is at least "[]" long, fits in the text, and opens with `[` and closes with `]` |
| AiService.BracketSpanShape | src/services/aiService.js:33-35 | a span exists exactly when some `[` precedes some `]`; it runs from the first `[` to the last `]` |
| AiService.Extract | src/services/aiService.js:16-42 | a parse error names text that does not parse; "not found" is reported exactly when the text does not parse and holds neither a fenced block nor a bracket span |
| AiService.DirectParseFirst | src/services/aiService.js:16-18 | text that parses as it stands is returned as parsed, before any block or span is looked for |
| AiService.ExtractSound | src/services/aiService.js:16-42 | whatever is extracted is the parse of a piece of the answer |
| AiService.FenceFailureIsFinal | src/services/aiService.js:24-30 | once a fenced block is found, a parse failure of its content is the result; the bracket span is not tried |
| AiService.FenceSuccessIsFinal | src/services/aiService.js:24-29 | when the text does not parse but its fenced block's trimmed content does, that value is the result |
| AiService.SpanOnlyWithoutFence | src/services/aiService.js:32-40 | the bracket span is tried only when the text neither parses nor holds a block |
| AiService.ChooseRoute | src/services/aiService.js:267-299 | a provider is called only for a valid prompt and only when its key is set; a valid prompt is refused only for a missing key or no provider |
| AiService.RouteRules | src/services/aiService.js:267-299 | the whole decision table: an invalid prompt first; then a requested provider (OpenAI by default) with or without its key; any other request falls back to OpenAI, then Claude |
| AiService.Handle | src/services/aiService.js:138-264 | generated data was extracted from the reply text and validated; conversely a reply whose text extracts to data that passes validation is accepted with that data; every failure names the provider that was called |
| AiService.GenerateTasks | src/services/aiService.js:267-308 | a refused route fails with the route's error; a route to OpenAI or Claude gives exactly that provider's handled reply; generated data comes only for a valid prompt and passes validation unchanged |
| AiService.RejectedBeforeAnyCall | src/services/aiService.js:270-286 | a refused prompt or missing key fails whatever either provider would have answered |
| AiService.GeneratedIsValidated | src/services/aiService.js:267-308 | generated data is a validated array of well-formed tasks, extracted from the answer of a provider whose key is set, for a valid prompt |
| Server.SetEntry | server.js:39-53 | `Map.set`: the key reads the new value, every other key reads as before, an existing key keeps its place and a new one is appended, and keys stay distinct |
| Server.OrderedMap.constructor | server.js:39 | an empty map |
| Server.OrderedMap.Set | server.js:39-53 | the scan-and-update of the entries is `Map.set` and keeps keys distinct |
| Server.ParseLine | server.js:42-45 | a line is skipped exactly when it is empty or starts with `=`; otherwise the key is the trimmed text before the first `=` (the whole line when it has none) and the value the trimmed rest after the first `=`, so later `=` signs stay in the value ("" when there is no `=`) |
| Server.SpacesOnlyKeyIsKept | server.js:42-45 | the line " =x" stores the empty key, since the emptiness test is on the untrimmed key |
| Server.LoadLines | server.js:38-46 | loading lines into a map with distinct keys keeps the keys distinct and loses none |
| Server.LastLineWins | server.js:38-46 | after loading, a key reads its last value in the file, or its previous value when no line sets it |
| Server.FirstLineOrders | server.js:38-46 | the loaded keys are in order of first appearance |
| Server.LoadEnvLines | server.js:38-46 | the loop over the kept lines builds the fold of `Map.set` over them |
| Server.Merge | server.js:48-53 | the two overwrites keep keys distinct |
| Server.MergeSpec | server.js:48-53 | a provided key takes its new value, an omitted one keeps the file's, every other entry is unchanged, and existing keys keep their order with only the two key names appended |
| Server.ParseEnv | server.js:32-46 | the entries read from any file text have distinct keys |
| Server.Serialise | server.js:55-58 | the written text is never empty and ends with a line break, so the last entry line is complete |
| Server.ParseSerialise | server.js:38-58 | reading back the written text gives the same entries, for distinct trimmed keys without `=` or line breaks and trimmed values without line breaks |
| Server.UpdateEnvFile | server.js:27-58 | the new file text is the serialised merge of the parsed old text, or of the empty text when there is no file |
| Server.SaveThenRead | server.js:27-58 | reading the written file gives the merged entries back |
| Server.Mask | server.js:103-116 | "" for a missing or empty key; otherwise the first 3 characters (or all of a shorter key), "...", then the last 4 (or all of a shorter key) |
| Server.ShortKeyDisclosed | server.js:103-116 | a key of at most 7 characters can be rebuilt from its mask |
| Server.LongKeyMiddleHidden | server.js:103-116 | two keys sharing their first 3 and last 4 characters have the same mask |
| Server.PriorityRequest | server.js:323-340 | refused with "Invalid priority value" exactly when the priority is not high, medium or low; otherwise the update of that task to exactly the priority in the body |
| Server.BulkDeleteRequest | server.js:293-302 | refused with "Invalid task IDs provided" exactly when `taskIds` is not a non-empty array; otherwise a delete of those ids |
| Server.NormaliseCreate | server.js:173-195 | succeeds exactly when every item can be destructured, with one row per item in input order; otherwise reports the first item that cannot |
| Server.SingleObjectCreate | server.js:175-186 | a single object becomes a one-item list, and a missing status defaults to "todo" |
| Db.Placeholder | src/utils/db.js:86 | `$` followed by digits that read back as n |
| Db.PlaceholderInjective | src/utils/db.js:86 | different numbers give different placeholders |
| Db.Condition | src/utils/db.js:86 | the key, " = ", then the placeholder |
| Db.WhereOf | src/utils/db.js:93 | the clause is empty exactly when there are no conditions |
| Db.BuildWhereClause | src/utils/db.js:79-96 | the loop yields the conditions `key = $i` of the kept filters numbered from 1, and their values in the same order |
| Db.FilterBinding | src/utils/db.js:81-90 | a usable filter with r usable filters before it is bound to `$(r+1)` and its value is the r-th value |
| Db.AbsentFilterSkipped | src/utils/db.js:85 | an undefined or null filter adds nothing |
| Db.EmptyClauseIff | src/utils/db.js:93 | the clause is empty exactly when no filter is usable |
| Db.Offset | src/utils/db.js:53 | from the first page on, the offset is never negative, and it is 0 only on the first page |
| Db.PagesTile | src/utils/db.js:53 | page 1 starts at row 0 and each page starts `limit` rows after the previous one |
| Db.PlanPage | src/utils/db.js:52-62 | page and limit default to 1 and 10; the count query wraps the text; the data query's parameters are the caller's, then limit and offset |
| Db.PagePlaceholders | src/utils/db.js:55-62 | LIMIT and OFFSET use placeholders n+1 and n+2 for n caller parameters, bound to the limit and the offset, and the caller's values keep their places |
| Db.TotalPages | src/utils/db.js:70 | the ceiling of total / limit for a non-zero limit; a zero limit gives Infinity, or NaN when the total is 0 |
| Db.LastPageHoldsLastRow | src/utils/db.js:70 | with rows and a positive limit, the last page holds the last row |
| Db.PoolClient.constructor | src/utils/db.js:37 | a client fresh from the pool: nothing sent, not released |
| Db.PoolClient.Query | src/utils/db.js:39-44 | logs the statement; only an unreleased client may be used |
| Db.PoolClient.Release | src/utils/db.js:47 | logs the release; a client can be released only once |
| Db.Transaction | src/utils/db.js:36-49 | the client sees exactly the protocol's steps and is released; the result is the protocol's result |
| Db.TxSteps | src/utils/db.js:36-49 | the client sees BEGIN first and the release last |
| Db.TxResult | src/utils/db.js:36-49 | the transaction succeeds exactly when BEGIN, the callback and COMMIT all succeed, and then returns the callback's value |
| Db.TxFramed | src/utils/db.js:36-49 | BEGIN is sent first and the release comes last, once |
| Db.TxCommitOrRollback | src/utils/db.js:36-49 | COMMIT is sent exactly when BEGIN and the callback succeed; ROLLBACK exactly when BEGIN, the callback or COMMIT fails; success returns the callback's value |
| Db.TxRethrows | src/utils/db.js:43-45 | when ROLLBACK succeeds, the error rethrown is the one that caused it |
| Db.TxBeginFailure | src/utils/db.js:38-47 | a failed BEGIN runs no callback: BEGIN, ROLLBACK, release |
| ChatBot.IsAssignmentRequest | src/components/Chat/ChatBot.jsx:47-64 | some keyword occurs in the lower-cased input; its properties are the lemmas in the rows below |
| ChatBot.KeywordsLower | src/components/Chat/ChatBot.jsx:48-62 | the keywords are already lower case |
| ChatBot.CaseInsensitive | src/components/Chat/ChatBot.jsx:61-63 | under ASCII case mapping, upper- or lower-casing the input never changes the classification |
| ChatBot.Monotone | src/components/Chat/ChatBot.jsx:61-63 | any text containing a request is a request |
| ChatBot.EssentialKeywordsDecide | src/components/Chat/ChatBot.jsx:47-64 | a message is a request exactly when its lower-cased text contains one of six keywords; the other four contain one of them |
| ChatBot.PutAnywhere | src/components/Chat/ChatBot.jsx:53-63 | any input containing "put" in any case is a request |
| ChatBot.InputIsARequest | src/components/Chat/ChatBot.jsx:47-64 | "Please input the data" and "Fix my computer" are classified as assignment requests |
| ChatBot.TitleLines | src/components/Chat/ChatBot.jsx:116-118 | one "- title" line per task, in order |
| ChatBot.SummaryLines | src/components/Chat/ChatBot.jsx:112-119 | split at line breaks, the reply is the header with the count, then one line per title |
| ChatBot.ReplyKinds | src/components/Chat/ChatBot.jsx:81-138 | the error banner is unset exactly for a generation that succeeded; every error reply starts with "Error: " |
| ChatBot.ReplyText | src/components/Chat/ChatBot.jsx:81-138 | the reply message: the summary for a generation, otherwise "Error: " with the error message or its fallback; ReplyKinds states its shape |
| ChatBot.ReplyError | src/components/Chat/ChatBot.jsx:128-137 | the error banner after a request settles; ReplyKinds states when it is set |
| ChatBot.ChatSession.constructor | src/components/Chat/ChatBot.jsx:11-14 | no messages, empty input, not loading, no error |
| ChatBot.ChatSession.Type | src/components/Chat/ChatBot.jsx:184 | sets the input and nothing else |
| ChatBot.ChatSession.Send | src/components/Chat/ChatBot.jsx:66-79 | a blank input or a request in flight changes nothing; otherwise the message is posted, the box cleared and loading set |
| ChatBot.ChatSession.Settle | src/components/Chat/ChatBot.jsx:81-141 | appends the reply message, sets the error banner on failure, stops loading, and hands over the titles only for a generation |
| AssignmentModal.FilteredUsers | src/components/Board/TaskAssignmentModal.jsx:42-46 | an order-preserving subsequence keeping exactly the users whose lower-cased name or email contains the lower-cased term, each as many times as in the list |
| AssignmentModal.EmptyTermKeepsAll | src/components/Board/TaskAssignmentModal.jsx:42-46 | the empty term keeps every user |
| AssignmentModal.NarrowingTerm | src/components/Board/TaskAssignmentModal.jsx:43-45 | under ASCII case mapping, a longer term containing a shorter one keeps a subset, and filtering twice equals filtering by the longer term |
| AssignmentModal.Modal.constructor | src/components/Board/TaskAssignmentModal.jsx:7-10 | closed, empty term, no users, not loading, no error |
| AssignmentModal.Modal.Open | src/components/Board/TaskAssignmentModal.jsx:12-40 | opening loads the users, or keeps the old list and sets the load error |
| AssignmentModal.Modal.Close | src/components/Board/TaskAssignmentModal.jsx:12-19 | closing resets the term to "" and clears the error |
| AssignmentModal.Modal.Search | src/components/Board/TaskAssignmentModal.jsx:83 | sets the term and nothing else |
| AssignmentModal.Modal.Visible | src/components/Board/TaskAssignmentModal.jsx:42-46 | the list shown is the filter of the loaded users by the current term, so the filter's order, count and narrowing properties apply to it |
| AssignmentModal.Modal.Choose | src/components/Board/TaskAssignmentModal.jsx:48-51 | hands over the task id and user, then closes and resets the term and the error; the users and the loading flag stay |
| Avatar.FirstChars | src/components/ui/Avatar.jsx:5-8 | never more characters than parts |
| Avatar.FirstCharsAreHeads | src/components/ui/Avatar.jsx:5-8 | the first characters are those of the non-empty parts: an empty part contributes nothing |
| Avatar.Initials | src/components/ui/Avatar.jsx:4-10 | under ASCII case mapping, never more initials than space-separated parts |
| Avatar.InitialsOfWords | src/components/ui/Avatar.jsx:4-10 | under ASCII case mapping, the initials are the upper-cased first characters of the non-empty space-separated words, at most one per part |
| Avatar.InitialsUpper | src/components/ui/Avatar.jsx:9 | the initials are upper case |
| Avatar.EmptyNameNoInitials | src/components/ui/Avatar.jsx:4-10 | "" and "  " have no initials |
| Avatar.Utf16 | src/components/ui/Avatar.jsx:14-15 | the string as UTF-16 code units, each below 65536, at least one per character |
| Avatar.Hash | src/components/ui/Avatar.jsx:13-16 | the hash of the code units, `(hash << 5) - hash + code` with the shift on 32 bits; HashBounded and SingleUnitHash state its properties |
| Avatar.HashBounded | src/components/ui/Avatar.jsx:13-16 | after n code units the hash lies within n * (2^31 + 2^16) of 0, so it is exact in a double for names under 2^21 units |
| Avatar.Hue | src/components/ui/Avatar.jsx:17 | the JavaScript remainder by 360: in (-360, 360), with the sign of the hash |
| Avatar.StringToColor | src/components/ui/Avatar.jsx:12-19 | the loop computes the hue of the hash of the code units, formatted as `hsl(h, 65%, 85%)` |
| Avatar.EmptyNameColor | src/components/ui/Avatar.jsx:12-19 | the empty name gives "hsl(0, 65%, 85%)" |
| Avatar.SingleUnitHash | src/components/ui/Avatar.jsx:13-17 | a one-unit name hashes to its code, and its hue is the code modulo 360 |

## Left out

- React rendering, JSX, styles, ripples, confetti and the combo effect are not modelled. The
  top/bottom half under the pointer is an input, not DOM geometry.
- Network calls are not modelled. Each request's outcome is a parameter: the status reply
  of a drop, the success of a priority change, assignment or delete, the users reply, and
  each provider's reply. Refetching after a failed request is not modelled, nor is the
  `Promise.all` of the two position updates.
- `JSON.parse` and the regular-expression engine are not modelled. Parsing is a function
  parameter; the two regular expressions are written out as the substrings they select.
- `toLowerCase` and `toUpperCase` map ASCII letters only.
- Timestamps (`Date.now()`, the error timestamp of `generateTasks`) are parameters or left
  out. So are message texts that depend on status-code tables and the prompt texts.
- File reads and writes and the `process.env` update in `updateEnvFile` are not modelled.
  The old file is an optional text; non-string key values are not modelled.
- `scripts/start.js` and the presentational components are not modelled. Neither is
  `checkApiConfig`, nor the server routes outside the checks named above. The server keeps
  no contiguous positions, and no such invariant is claimed.
- The assignment branch of `handleSend` is not modelled. `ChatBot.jsx` imports
  `processTaskAssignments`, which `aiService.js` does not export. Under native ES module
  linking that import is an error and the chat module never loads. The model assumes a
  CommonJS-style interop instead, where the import is `undefined`, the call throws, and the
  reply is an error text given as a parameter.
- Generated tasks are given to the chat summary as their titles, as text.
- `page`, `limit` and the row count of `paginate` are integers; string coercion and the
  `parseInt` of the count are not modelled.
- Avatar.Hash: the hash is an unbounded integer. `HashBounded` shows it stays exact in a
  double for names under 2^21 code units; longer names, where doubles would round, are not
  modelled.
- Avatar.FirstChars: works on characters, so `part[0]` of a word starting outside the Basic
  Multilingual Plane is the whole character, not its high surrogate.
- Board.BoardState.ApplyFetched: regroups with the corrected `Board.OrganizeByStatus`. As
  written, a fetched task whose status names an inherited object property makes the grouping
  throw inside `fetchTasks`' `try`, and the `catch` leaves the columns and the fresh flag as
  they were (see the Findings row). The model does not capture that case.
- Board.BoardState.Drop: the dragged id and source column come as parameters rather than
  through `dataTransfer`. In a cross-column drop the moved card keeps its old status field
  locally, as in the code.
- Server.PriorityRequest: requires a body that can be destructured; a body that cannot
  makes the route throw, which the route answers with a 500 that is not modelled.
- Server.BulkDeleteRequest: requires a body that can be destructured, for the same reason.
- ChatBot.CaseInsensitive: holds for ASCII case mapping only. With JavaScript's full Unicode
  mapping it fails: `"gıve".toUpperCase()` is `"GIVE"`, a request, while `"gıve"` is not one;
  likewise `"aſſign"` upper-cases to `"ASSIGN"`.
- AssignmentModal.NarrowingTerm: holds for ASCII case mapping only. With full Unicode mapping
  `"ΑΣ".toLowerCase()` is `"ας"` (final sigma), so a user named "ΑΣ" is kept for the term
  "ΑΣ" but not for the shorter term "Σ", which lower-cases to `"σ"`.
- Avatar.Initials: the bound of one initial per part holds for ASCII case mapping only; with
  full Unicode mapping `"ßob"` gives `"SS"`, two initials from one part.
- Avatar.InitialsOfWords: holds for ASCII case mapping only, for the same `"ßob"` reason.
- Avatar.Hue: states the range and sign of the remainder, not its divisibility.
- Db.Offset: states the sign of the offset and when it is zero; `PagesTile` gives the
  arithmetic.

## Findings

| source | as written | input that shows it | evidently intended | confidence | as-written member | corrected member |
|---|---|---|---|---|---|---|
| src/components/Board/Board.jsx:81-89 | the grouping accumulates into a plain object `{}`, so a status naming an inherited property (such as "constructor") finds a non-array value there and `push` throws | one task with status "constructor" | group every task under its status whatever the status text | medium, not executed | Board.OrganizeAsWritten, Board.InheritedStatusBreaksGrouping | Board.OrganizeByStatus |
