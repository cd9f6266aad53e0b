# dear applicant — a verified model of the kanban engine

dear applicant is a job-application tracker. A user keeps a kanban board of
columns ("Bookmarked", "Applied", …). Each column holds applications in position
order. Every move between columns is logged as a transition. A second page lists
job postings synced from the Simplify feed.

This project models, in Dafny:

- **the record store**: the `board_column`, `application`, `contact` and
  `column_transition` tables, the statements the route handlers send and
  `db.batch`; a `Board` class holds the tables and executes one statement at a time;
- **the application routes**: create, update, delete and move (same column and
  across columns);
- **the column routes**: create, rename/recolor, delete with reassignment of the
  column's applications, and reorder;
- **the board loader**: seeding the four default columns for a new user, reading
  the columns and applications in position order, grouping by column, plus the
  color lookup;
- **the small pure pieces**: `escapeHtml`, the feed validation, mapping, batching
  and deactivation of the job sync, and the job board's paging, time buckets,
  page links and location decoding.

## How the model is built

- **Tables and statements.** A table is a map from primary key to row plus the
  order in which a full scan returns the rows (insertion order). A statement is a
  value of `Store.Stmt`. `Store.Apply` gives its effect; `Store.Run` applies a list
  in order. `db.batch` runs its statements one after the other with no rollback, as
  the batch helper of the test database does (tests/helpers/test-db.ts:133-144).
  `Store.Board.Batch` is proved to end in `Run(old, ss)`.
- **Ordered queries.** `ORDER BY position` is a stable insertion sort
  (`Ordering.SortBy`) of the scan order. Rows with equal positions keep the scan
  order. SQL leaves that order unspecified.
- **Handlers.** Each handler is a method on the `Board`. It first computes the
  first failing check, in the handler's order (`…Rejection` functions). It then
  builds its statement list with the source's loops and runs it. Its contract
  ties the new state to a specification function of the old state. Lemmas prove
  what the source promises about that function: dense positions `0..n-1`,
  preserved relative order, clamped insertion indices, exactly one transition, and
  nothing else changed.
- **Invariants.** Every handler preserves five board invariants:
  - `BoardDense`: each column's applications are numbered `0..n-1`;
  - `ColumnsDense`: each user's columns are numbered `0..k-1`;
  - `ColumnsReferenced`: every application's column exists;
  - `ColumnsOwned`: every application's column exists and belongs to the
    application's own user. The ownership checks of create (the column), move
    (the target) and column delete (the destination) are what keep it;
  - `SalariesOrdered`: no stored minimum salary is above the maximum.
- **Oracles.** Fresh ids, the clock, `new Date(string)`, `JSON.parse`, the date
  formatter and the URL encoder are parameters.
- **JavaScript numbers.** Salaries go through `parseInt`. `JsText.ParseInt`
  models it: leading whitespace, an optional sign, a `0x` prefix, then the longest
  digit run; no digits is NaN, modelled as `None`. So `"12abc"` reads as 12.
  `newPosition` must match `^\d+$` before it is used.
- **Whitespace.** `String.prototype.trim` strips the ECMAScript white space and
  line terminators:
  - tab through carriage return, and space;
  - U+00A0, U+1680, U+2000–U+200A;
  - U+2028, U+2029, U+202F, U+205F, U+3000 and U+FEFF.
- **JSON.** Feed JSON numbers are integers in this model.

### Behaviour worth knowing

- A column delete does not check that the destination differs from the column
  being deleted (app/routes/dashboard.columns.tsx:124-146). With
  `destinationColumnId == columnId` and a non-empty column, the applications are
  "moved" into the column, and the column is then deleted under them.
  `Columns.DeleteIntoItself` proves that this request is accepted and leaves
  applications pointing at a missing column. The model keeps this behaviour.
  `Columns.Action` promises `BoardDense`, `ColumnsReferenced` and `ColumnsOwned`
  only for the other requests.
- The destination offset is the destination's application count, not its
  highest position. The moved applications are numbered densely only when the
  destination already was (`Columns.DeleteAppOrders`).
- A page number past the last page yields a backwards summary range: page 3 of
  10 results reads "Showing 51 – 10 of 10" (`Jobs.ShownRangePastLastPage`).
- A same-column move writes only positions: the moved row's `updatedAt` is left
  as it was, and no transition is logged.

## Model

| member | source | states |
|---|---|---|
| Store.Board.Exec | app/db/schema.ts:6-64 | executing one statement changes the tables exactly as `Apply` says: an insert adds a row at the end of the scan order, an update or delete whose key is missing does nothing, and deleting an application also deletes its contacts and transitions |
| Store.Board.Batch | tests/helpers/test-db.ts:133-144 | a batch runs its statements in order, each seeing the previous ones' writes, ending in `Run(old, ss)`; well-formed tables stay well-formed |
| Store.Board.constructor | app/db/schema.ts:6-64 | an empty database is well formed |
| Store.RunWellFormed | tests/helpers/test-db.ts:133-144 | any statement list run on well-formed tables leaves them well formed: one scan entry per key, each row under its own id |
| Store.RunAppend | tests/helpers/test-db.ts:133-144 | running `a + b` is running `a` then `b` |
| Store.RunAppUpdates | app/routes/dashboard.applications.tsx:328-361 | a list of application UPDATEs on distinct ids patches exactly those rows, each once, and leaves every other row and table alone |
| Store.RunColumnUpdates | app/routes/dashboard.columns.tsx:224-227 | a list of column UPDATEs on distinct ids patches exactly those columns and leaves everything else alone |
| Store.RenumberAppsEffect | app/routes/dashboard.applications.tsx:266-269 | renumbering a column's applications in their order gives position `i` to the `i`-th and changes nothing else |
| Store.RenumberColumnsEffect | app/routes/dashboard.columns.tsx:186-189 | renumbering the user's columns in order gives position `i` to the `i`-th; the user's column order is unchanged and becomes dense |
| Store.ColumnOrderIs | app/routes/dashboard.applications.tsx:374-378 | a list without repeats that holds exactly a column's applications, the `i`-th at position `i`, is what the column's position-ordered query returns, and the column is dense |
| Store.UserColumnsIs | app/routes/dashboard.columns.tsx:207-211 | a list without repeats that holds exactly a user's columns, the `i`-th at position `i`, is what the user's position-ordered column query returns, and the user's columns are dense |
| Store.InsertAppAtEnd | app/routes/dashboard.applications.tsx:56-59 | inserting an application with position = the column's count appends it to that column's order and keeps the column dense |
| Store.InsertColumnAtEnd | app/routes/dashboard.columns.tsx:41-57 | inserting a column with position = the user's column count appends it to the user's order and keeps it dense |
| Store.DeleteAppColumnOrder | app/routes/dashboard.applications.tsx:256 | deleting an application removes it from its column's order and leaves the rest of the order as it was |
| Store.DeleteColumnUserColumns | app/routes/dashboard.columns.tsx:169-175 | deleting a column removes it from its owner's column order and leaves the rest in order |
| Schema.ApplyAppPatch | app/db/schema.ts:17-37 | an application `.set({...})` never changes id, owner or `createdAt`; column and position take the patch's value when it gives one and keep the row's otherwise |
| Schema.ApplyColumnPatch | app/db/schema.ts:6-15 | a column `.set({...})` never changes id, owner or `createdAt`; the position takes the patch's value when it gives one and keeps the row's otherwise |
| Schema.EmptyAppPatchIdentity | app/db/schema.ts:17-37 | a patch that sets nothing leaves the row as it was |
| Schema.PositionPatchApply | app/routes/dashboard.applications.tsx:267 | `.set({ position: p })` changes only the position |
| Schema.MovePatchApply | app/routes/dashboard.applications.tsx:352-354 | `.set({ columnId, position, updatedAt })` changes exactly those three fields |
| Schema.CascadeContacts | app/db/schema.ts:42-44 | deleting an application removes exactly its contacts and keeps every other contact |
| Schema.CascadeContactsAppend | app/db/schema.ts:42-44 | the contact cascade distributes over concatenation, so the remaining contacts keep their relative order |
| Schema.CascadeContactsNone | app/db/schema.ts:42-44 | a contact list with no contact of the application is left unchanged by the cascade |
| Schema.CascadeTransitions | app/db/schema.ts:56-58 | deleting an application removes exactly its transitions and keeps every other transition |
| Schema.CascadeTransitionsAppend | app/db/schema.ts:56-58 | the transition cascade distributes over concatenation, so the remaining transitions keep their relative order |
| Schema.CascadeTransitionsNone | app/db/schema.ts:56-58 | a history with no transition of the application is left unchanged by the cascade |
| Forms.NonBlankTextMeaning | app/routes/dashboard.applications.tsx:38-43 | `typeof v === "string" && v.trim()` holds exactly when the key is present with text that is not all white space |
| Forms.TrimmedOrNull | app/routes/dashboard.applications.tsx:106 | `typeof v === "string" && v.trim() ? v.trim() : null` is the trimmed text, which is non-empty, exactly when the text is not blank; otherwise null |
| Forms.FieldNameInjective | app/routes/dashboard.applications.tsx:31-33 | distinct form keys have distinct names |
| JsText.Trim | app/routes/dashboard.applications.tsx:104-105 | `trim()` gives a result no longer than the input that neither starts nor ends with white space |
| JsText.TrimKeepsSlice | app/routes/dashboard.applications.tsx:104-105 | the trimmed text is a contiguous slice of the input |
| JsText.TrimCutsBlank | app/routes/dashboard.applications.tsx:104-105 | what `trim()` cuts off at both ends is white space only |
| JsText.TrimEmptyIffBlank | app/routes/dashboard.applications.tsx:38 | `!s.trim()` holds exactly when `s` is all white space |
| JsText.TrimIdempotent | app/routes/dashboard.applications.tsx:104-105 | trimming twice is trimming once |
| JsText.ParseIntTrimStart | app/routes/dashboard.applications.tsx:81 | `parseInt` ignores leading white space |
| JsText.ParseIntOfDigits | app/routes/dashboard.applications.tsx:342 | `parseInt` of a string of decimal digits (what `^\d+$` admits) is its decimal value |
| JsText.ParseIntPrefix | app/routes/dashboard.applications.tsx:81 | `parseInt` reads the leading digit run and ignores what follows it |
| JsText.ParseIntTrailingText | app/routes/dashboard.applications.tsx:81 | `parseInt("12abc")` is 12 |
| JsText.ParseIntNoDigits | app/routes/dashboard.applications.tsx:82 | a string whose first non-blank character is not a digit or a sign is NaN |
| JsText.ParseIntNegativeDigits | app/routes/dashboard.applications.tsx:81 | `parseInt("-" + d)` is minus the value of the digits `d` |
| JsText.ParseIntHex | app/routes/dashboard.applications.tsx:81 | `parseInt("0x" + h)` reads `h` in base 16 |
| JsText.ParseIntToString | app/routes/dashboard.applications.tsx:187 | `parseInt(String(n)) == n` for every integer |
| JsText.NatToString | app/routes/jobs.tsx:138 | `String(n)` of a natural is a digit string with no leading zero whose value is `n` |
| JsText.Clamp | app/routes/dashboard.applications.tsx:342 | `Math.max(lo, Math.min(x, hi))` lies in `[lo, hi]` when that is non-empty, is `x` inside it, `hi` above it and `lo` below it |
| Ordering.FilterMembers | app/routes/dashboard.applications.tsx:325 | `filter` keeps exactly the elements that satisfy the predicate |
| Ordering.SortBySorted | app/routes/dashboard.applications.tsx:374-378 | `ORDER BY` yields rows sorted by the key |
| Ordering.SortBy | app/routes/dashboard.applications.tsx:374-378 | `ORDER BY` yields a permutation of the scanned rows |
| Ordering.SortIndexed | app/routes/dashboard.applications.tsx:374-378 | sorting rows whose keys are `0..n-1` gives the unique order in which row `i` has key `i` |
| Ordering.FindIndex | app/routes/dashboard.applications.tsx:380 | `findIndex` gives -1 for an absent element, else the first index holding it |
| Ordering.RemoveAll | app/routes/dashboard.applications.tsx:325 | `filter(a => a.id !== id)` drops `id` and keeps every other element |
| Ordering.RemoveAllAt | app/routes/dashboard.applications.tsx:383 | on a list without repeats, dropping the element at `i` is `splice(i, 1)` |
| Ordering.InsertAt | app/routes/dashboard.applications.tsx:342-346 | `splice(clamp(k, 0, n), 0, x)` puts `x` at the clamped index with the elements before and after it kept in order |
| Ordering.InsertAtRemove | app/routes/dashboard.applications.tsx:345-346 | removing the inserted element gives back the original list |
| Ordering.InsertAtDistinct | app/routes/dashboard.applications.tsx:345-346 | inserting a new id into a list without repeats keeps it without repeats |
| Ordering.RemoveAt | app/routes/dashboard.applications.tsx:383 | `splice(i, 1)` shortens the list by one and removes one occurrence of the element at `i` |
| Ordering.Reorder | app/routes/dashboard.applications.tsx:380-384 | remove-then-insert is a permutation that puts the moved element at `clamp(k, 0, n-1)`; the other elements keep their relative order |
| Ordering.ReorderMember | app/routes/dashboard.columns.tsx:213-221 | reordering a list without repeats by an element's own index keeps exactly the same members, without repeats, with the element at the clamped index |
| Ordering.ReorderInPlace | app/routes/dashboard.columns.tsx:219-221 | moving an element to its own index leaves the list unchanged |
| Ordering.ReorderFirstToLast | app/routes/dashboard.columns.tsx:219-221 | moving the first of three elements to index 2 gives `[b, c, a]` |
| Ordering.RemoveAllDistinct | app/routes/dashboard.applications.tsx:325 | filtering out one id of a list without repeats shortens it by one |
| Applications.Action | app/routes/dashboard.applications.tsx:10-28 | "create", "update", "delete" and "move" each give their handler's response and new state: the handler's rejection with no write, or its accepted effect (`CreateEffect`, the patched row, `DeleteResult`, `MoveEffect`); an unknown intent returns 400 "Unknown intent" and writes nothing; every intent keeps the tables well formed, every column dense, every application's column existing and owned by the application's user, and every salary pair ordered |
| Applications.DateField | app/routes/dashboard.applications.tsx:69-76 | an absent or empty date is null; otherwise the request fails exactly when the date does not parse, and stores the parsed date |
| Applications.SalaryField | app/routes/dashboard.applications.tsx:78-91 | an absent or empty salary is null; otherwise the request fails exactly when `parseInt` gives NaN, and stores `parseInt`'s value |
| Applications.SalaryTrailingTextAccepted | app/routes/dashboard.applications.tsx:80-85 | a salary of `"12abc"` is accepted as 12 |
| Applications.ReadDate | app/routes/dashboard.applications.tsx:69-76 | answers 400 "Invalid dateApplied format" exactly when the date field fails, and returns the field's value otherwise |
| Applications.ReadNumber | app/routes/dashboard.applications.tsx:80-91 | answers 400 with the field's message exactly when the salary field fails, and returns the field's value otherwise |
| Applications.CreateRejectionMeaning | app/routes/dashboard.applications.tsx:35-94 | a create that passes every check names a column the user owns and has a non-blank company and role, a valid date and salaries that parse and are ordered; every rejection is a 400 or a 404, and a 404 exactly when the column, company and role are given but the column is not the user's |
| Applications.CreateBatchTables | app/routes/dashboard.applications.tsx:99-125 | the create batch adds exactly the application row and one transition |
| Applications.CreateBatchColumns | app/routes/dashboard.applications.tsx:56-59 | the new application goes to the end of its column, which stays dense; other columns are untouched |
| Applications.CreateBatchInvariants | app/routes/dashboard.applications.tsx:92-125 | creating keeps every application's column existing, keeps it a column of the application's own user when the new row's column is the user's, and keeps every salary pair ordered |
| Applications.CreateBatchEffect | app/routes/dashboard.applications.tsx:99-125 | the create batch stores the trimmed fields, null for blank optional text, "USD" for a blank currency, position = the column's count and timestamps `now`, and logs one transition from null to the column |
| Applications.HandleCreate | app/routes/dashboard.applications.tsx:30-128 | a rejected create answers its error and writes nothing; an accepted one answers 201 with the new id, has the effect above and keeps the board invariants |
| Applications.NullableTextUpdate | app/routes/dashboard.applications.tsx:168-171 | a present url or notes key is written, as null when blank; an absent key is not written |
| Applications.NumberUpdate | app/routes/dashboard.applications.tsx:184-207 | a present salary key is written, null when empty, otherwise `parseInt`'s value; an absent key is not written |
| Applications.DateUpdate | app/routes/dashboard.applications.tsx:172-183 | a present date key is written, null when empty, otherwise the parsed date; an absent key is not written |
| Applications.PatchFromForm | app/routes/dashboard.applications.tsx:152-217 | the update never sets the column or the position, always sets `updatedAt`, and sets no field whose key is absent |
| Applications.ReadTextUpdate | app/routes/dashboard.applications.tsx:154-167 | a present company or role that is blank is a 400; otherwise the trimmed text |
| Applications.ReadDateUpdate | app/routes/dashboard.applications.tsx:172-183 | a present date that does not parse is a 400; otherwise the date update |
| Applications.ReadNumberUpdate | app/routes/dashboard.applications.tsx:184-207 | a present salary that is NaN is a 400; otherwise the salary update |
| Applications.BuildUpdates | app/routes/dashboard.applications.tsx:152-217 | the field loop fails with the first failing field's error, or yields the whole patch |
| Applications.AcceptedUpdatePatch | app/routes/dashboard.applications.tsx:152-228 | an accepted update keeps the row's column and position, never writes an empty company or role, leaves the effective salaries ordered and sets `updatedAt` to `now` |
| Applications.UpdateKeepsColumns | app/routes/dashboard.applications.tsx:230-233 | an update that sets neither column nor position leaves every column's order and density as they were |
| Applications.UpdateStmtEffect | app/routes/dashboard.applications.tsx:230-233 | the update changes only the patched row and keeps the board invariants, same-owner columns included (the update writes neither owner nor column) |
| Applications.HandleUpdate | app/routes/dashboard.applications.tsx:130-236 | a rejected update (missing id 400, not the user's 404, bad field 400, effective salaries inverted 400) writes nothing; an accepted one patches only that row, and no column order changes |
| Applications.DeleteStmtEffect | app/routes/dashboard.applications.tsx:256 | the DELETE removes the row, its contacts and its transitions, drops it from its column and leaves other columns as they were |
| Applications.DeleteEffect | app/routes/dashboard.applications.tsx:256-270 | after a delete the rest of the column keeps its order and is numbered `0..m-1`; only positions in that column change |
| Applications.DeleteInvariants | app/routes/dashboard.applications.tsx:256-270 | deleting keeps the board invariants, same-owner columns included |
| Applications.HandleDelete | app/routes/dashboard.applications.tsx:238-273 | a missing id is 400 and another user's application 404, with no write; otherwise the store becomes the delete result |
| Applications.TargetStmts | app/routes/dashboard.applications.tsx:349-361 | the target loop writes the moved row's column, position `i` and `updatedAt`, and only position `i` for every other row |
| Applications.CrossMoveLists | app/routes/dashboard.applications.tsx:319-346 | the source list is the rest of the source column and the target list is the target column plus the row at the clamped index; neither repeats an id and they share none |
| Applications.CrossMoveRun | app/routes/dashboard.applications.tsx:328-361 | the move's UPDATEs patch exactly the listed rows and change no other table |
| Applications.CrossMoveSourceRows | app/routes/dashboard.applications.tsx:328-331 | the `i`-th remaining source row gets position `i` and nothing else |
| Applications.CrossMoveTargetRows | app/routes/dashboard.applications.tsx:356-359 | every other target row at index `i` gets position `i` and nothing else |
| Applications.CrossMoveMovedRow | app/routes/dashboard.applications.tsx:342-355 | the moved row gets the target column, position `clamp(newPosition, 0, len)` and `updatedAt = now` |
| Applications.CrossMoveOtherRows | app/routes/dashboard.applications.tsx:317-361 | every other row changes at most its position |
| Applications.CrossMoveSourceOrder | app/routes/dashboard.applications.tsx:319-331 | after the move the source column is its old order without the row, numbered densely |
| Applications.CrossMoveTargetOrder | app/routes/dashboard.applications.tsx:335-361 | after the move the target column is its old order with the row spliced in at the clamped index, numbered densely |
| Applications.CrossMoveTargetMembers | app/routes/dashboard.applications.tsx:335-361 | the target column then holds exactly its old applications and the moved one |
| Applications.CrossMoveOtherColumns | app/routes/dashboard.applications.tsx:317-371 | every column other than source and target is untouched |
| Applications.CrossMoveEffect | app/routes/dashboard.applications.tsx:317-371 | the cross-column batch has all the effects above and appends exactly one transition from source to target |
| Applications.SameMoveLists | app/routes/dashboard.applications.tsx:374-384 | the same-column order is the column reordered from the row's index to `clamp(newPosition, 0, len-1)`, with the same members and no repeats |
| Applications.SameMoveEffect | app/routes/dashboard.applications.tsx:386-390 | a same-column move renumbers the column densely in the new order, puts the row at the clamped index, changes only positions and touches no other column |
| Applications.MoveStmtsEffect | app/routes/dashboard.applications.tsx:317-397 | the move batch, in either branch, has the effect stated by `MoveEffect`; only a cross-column move logs a transition |
| Applications.MoveInvariants | app/routes/dashboard.applications.tsx:317-397 | a move keeps the board invariants when the target column exists, and keeps every application in a column of its own user when the target belongs to the moved application's user |
| Applications.RenumberLoop | app/routes/dashboard.applications.tsx:386-390 | the loop pushes `position = i` for the `i`-th id |
| Applications.TargetLoop | app/routes/dashboard.applications.tsx:349-361 | the loop pushes the target statements in order |
| Applications.CrossMoveBatch | app/routes/dashboard.applications.tsx:317-371 | the pushed statements are the cross-column batch |
| Applications.SameMoveBatch | app/routes/dashboard.applications.tsx:373-391 | the pushed statements are the same-column batch |
| Applications.ExecMove | app/routes/dashboard.applications.tsx:393-399 | running the batch gives the move effect and keeps the invariants, same-owner columns included when the target is the application's user's |
| Applications.HandleMove | app/routes/dashboard.applications.tsx:275-400 | missing ids or a `newPosition` that is not `^\d+$` are 400, another user's application or column 404, all with no write; otherwise the store is the move batch's result |
| Columns.Action | app/routes/dashboard.columns.tsx:10-28 | "create", "update", "delete" and "reorder" each give their handler's response and new state: the handler's rejection with no write, or its accepted effect (the inserted column, the patched column, `DeleteResult`, `ReorderResult`); an unknown intent returns 400 "Unknown intent" and writes nothing; the invariants are kept, board density, column references and same-owner columns except for a delete into itself |
| Columns.CreateRejectionMeaning | app/routes/dashboard.columns.tsx:34-39 | a column create is accepted exactly when name and color are present and not blank; every rejection is a 400 |
| Columns.CreateEffect | app/routes/dashboard.columns.tsx:41-57 | the new column stores the trimmed name and color, timestamps `now` and position = the user's column count; it goes to the end of the user's order, and other users are untouched |
| Columns.CreateInvariants | app/routes/dashboard.columns.tsx:41-57 | creating a column keeps the board invariants, same-owner columns included |
| Columns.HandleCreate | app/routes/dashboard.columns.tsx:30-60 | a rejected create writes nothing; an accepted one inserts that column and answers 201 with its id |
| Columns.AcceptedUpdatePatch | app/routes/dashboard.columns.tsx:78-92 | an accepted update sets name and color exactly when present, trimmed and non-empty, never the position, and always `updatedAt` |
| Columns.UpdateEffect | app/routes/dashboard.columns.tsx:94-97 | the update patches that column only, and no user's column order changes |
| Columns.UpdateInvariants | app/routes/dashboard.columns.tsx:94-97 | updating a column keeps the board invariants, same-owner columns included |
| Columns.HandleUpdate | app/routes/dashboard.columns.tsx:62-100 | a missing id is 400, a column the user does not own 404, a present blank name or color 400, all with no write; otherwise the patch is written |
| Columns.ReassignApps | app/routes/dashboard.columns.tsx:163-167 | the `i`-th moved application gets the destination, position `destCount + i` and `updatedAt` |
| Columns.ReassignMoved | app/routes/dashboard.columns.tsx:149-167 | each application of the deleted column, in position order, ends in the destination at `destCount + i` |
| Columns.ReassignColumnOf | app/routes/dashboard.columns.tsx:163-167 | every application of the column moves to the destination and every other application is untouched |
| Columns.ReassignDestKept | app/routes/dashboard.columns.tsx:156-167 | the destination's existing applications keep their positions |
| Columns.ReassignDest | app/routes/dashboard.columns.tsx:149-167 | on a dense destination, the destination becomes its old order followed by the moved applications, still dense |
| Columns.ReassignSource | app/routes/dashboard.columns.tsx:149-167 | the deleted column is left with no application when the destination differs |
| Columns.ReassignOther | app/routes/dashboard.columns.tsx:163-167 | other columns are untouched |
| Columns.ReassignNothing | app/routes/dashboard.columns.tsx:174-175 | deleting an empty column reassigns nothing |
| Columns.DeleteColumnRows | app/routes/dashboard.columns.tsx:168-190 | after the delete exactly that column is gone and the others change at most their positions; other users' columns are untouched |
| Columns.DeleteColumnOrders | app/routes/dashboard.columns.tsx:179-190 | the user's remaining columns keep their old order and are numbered `0..k-1`; other users' orders are unchanged |
| Columns.DeleteAppRows | app/routes/dashboard.columns.tsx:149-173 | only the moved applications change; contacts and transitions are untouched |
| Columns.DeleteAppOrders | app/routes/dashboard.columns.tsx:149-173 | the deleted column ends empty and the destination's order is its old order followed by the moved ones, dense if it was |
| Columns.DeleteColumnIds | app/routes/dashboard.columns.tsx:149-175 | every application of the deleted column now names the destination; no salary changes |
| Columns.DeleteInvariants | app/routes/dashboard.columns.tsx:102-193 | the delete keeps the invariants, density, references and same-owner columns only when the destination differs from the column; ownership also needs the destination to be the user's, as the 404 check ensures |
| Columns.DeleteKeepsOwnership | app/routes/dashboard.columns.tsx:133-146 | when the column's applications go to a different column of the same user, every application still sits in a column of its own user |
| Columns.DeleteIntoItself | app/routes/dashboard.columns.tsx:124-146 | a delete whose destination is the column itself is accepted and leaves applications whose column no longer exists |
| Columns.HandleDelete | app/routes/dashboard.columns.tsx:102-193 | the checks in order (id 400, ownership 404, destination required 400, destination ownership 404) write nothing; otherwise the store is the delete result |
| Columns.ExecDelete | app/routes/dashboard.columns.tsx:148-190 | executing the statements gives the delete result |
| Columns.ReorderRejectionMeaning | app/routes/dashboard.columns.tsx:199-216 | a reorder is accepted exactly when it names a column of the user and `newPosition` matches `^\d+$` |
| Columns.ReorderLists | app/routes/dashboard.columns.tsx:213-221 | the new order is a permutation of the user's columns with the column at `clamp(newPosition, 0, len-1)` |
| Columns.ReorderEffect | app/routes/dashboard.columns.tsx:219-227 | after a reorder the user's columns read in the new order, numbered densely; only positions change |
| Columns.ReorderOthers | app/routes/dashboard.columns.tsx:207-227 | other users' columns are untouched |
| Columns.RenumberDenseUnchanged | app/routes/dashboard.columns.tsx:224-227 | renumbering columns that are already dense changes nothing |
| Columns.ReorderInPlaceUnchanged | app/routes/dashboard.columns.tsx:219-221 | reordering a column to its current index of a dense board changes nothing |
| Columns.ReorderInvariants | app/routes/dashboard.columns.tsx:219-227 | reordering keeps the board invariants, same-owner columns included |
| Columns.ExecReorder | app/routes/dashboard.columns.tsx:224-227 | executing the renumbering gives the reorder result and keeps the invariants |
| Columns.HandleReorder | app/routes/dashboard.columns.tsx:195-230 | a rejected reorder writes nothing; otherwise the store is the reorder result at `parseInt(newPosition)` |
| Dashboard.SeedRows | app/routes/dashboard.tsx:17-45 | the seeded rows are Bookmarked/indigo, Applied/blue, Interview/amber and Offer/green at positions 0..3, owned by the user, timestamped `now` |
| Dashboard.SeedEffect | app/routes/dashboard.tsx:29-48 | seeding a user with no column gives that user exactly the four defaults, in order, numbered densely; every other row and user is untouched |
| Dashboard.SeedPrefix | app/routes/dashboard.tsx:37-47 | after the first `k` inserts the user's columns are the first `k` defaults, dense |
| Dashboard.AppQueryMembers | app/routes/dashboard.tsx:58-62 | the application query returns exactly the selected applications, once each |
| Dashboard.GroupByColumn | app/routes/dashboard.tsx:65-70 | the Map built by the loop gives, for every column id, the fetched applications with that column, in fetched order, and `[]` for ids with none |
| Dashboard.GroupIsColumnApps | app/routes/dashboard.tsx:58-70 | grouping the user's applications gives, for each column, that column's applications of the user in position order |
| Dashboard.ColumnAppsAreColumnOrder | app/routes/dashboard.tsx:58-70 | when a column only holds the user's applications, its group is the column's position order |
| Dashboard.OwnedColumnAppsAreColumnOrder | app/routes/dashboard.tsx:58-70 | on a board where every application sits in a column of its own user, every column of the user has its position order as its group |
| Dashboard.ColumnViewRows | app/routes/dashboard.tsx:72-77 | a column's list holds only rows of the table, each once, the user's and in that column |
| Dashboard.ViewRows | app/routes/dashboard.tsx:72-77 | every column of the view carries only its own applications of the user, none twice |
| Dashboard.ViewComplete | app/routes/dashboard.tsx:65-77 | every application of the user in an existing column of the user appears in the view |
| Dashboard.BoardView | app/routes/dashboard.tsx:51-55 | the view has one entry per column of the user |
| Dashboard.AttachGroups | app/routes/dashboard.tsx:72-77 | attaching the groups to the position-ordered columns gives the board view |
| Dashboard.Loader | app/routes/dashboard.tsx:24-78 | the loader seeds the defaults exactly when the user has no column, leaves the store alone otherwise, keeps every application in a column of its own user, and returns the board view of the result |
| Dashboard.ColorHex | app/routes/dashboard.tsx:84-94 | a known color name maps to its hex value, any other name to `#6B7280`; the result is always `#RRGGBB` |
| Dashboard.ColorHexAgrees | app/routes/dashboard.tsx:124 | the lookup as written agrees with `ColorHex` on every name that is not inherited from `Object.prototype` |
| Dashboard.ColorLookupInherited | app/routes/dashboard.tsx:124 | for the color `"constructor"` the lookup as written yields an inherited member, not a string |
| Dashboard.DefaultColorsKnown | app/routes/dashboard.tsx:17-22 | the four default colors are known colors, never the fallback |
| Auth.EscapeHtmlIsEscape | app/lib/auth.ts:9-16 | the chain of five `replace` calls equals escaping each character on its own |
| Auth.EscapeHtmlChar | app/lib/auth.ts:11-15 | a single character is replaced by its entity, or kept when it is not special |
| Auth.EscapeHtmlGt | app/lib/__tests__/escapeHtml.test.ts:37-39 | `>` becomes `&gt;` |
| Auth.EscapeHtmlQuot | app/lib/__tests__/escapeHtml.test.ts:41-43 | `"` becomes `&quot;` |
| Auth.EscapeHtmlApos | app/lib/__tests__/escapeHtml.test.ts:45-47 | `'` becomes `&#39;` |
| Auth.EscapeHtmlAppend | app/lib/auth.ts:9-16 | escaping distributes over concatenation |
| Auth.EscapeHtmlEscaped | app/lib/auth.ts:11-15 | the output has no raw `<`, `>`, `"` or `'`, and every `&` in it starts one of the five entities |
| Auth.UnescapeEscape | app/lib/auth.ts:9-16 | decoding the five entities gives back the input: escaping loses nothing |
| Auth.EscapeHtmlLength | app/lib/auth.ts:10-15 | the output length is the input length plus 4 per `&`, 3 per `<` or `>`, 5 per `"` and 4 per `'` |
| Auth.EscapeHtmlPlain | app/lib/__tests__/escapeHtml.test.ts:55-61 | a string with none of the five characters, the empty string included, is returned unchanged |
| Auth.EscapeHtmlBetween | app/lib/__tests__/escapeHtml.test.ts:29-47 | one special character between plain text is replaced in place |
| SyncJobs.Validate | app/lib/sync-jobs.ts:25-39 | a non-array fails and an empty array passes; otherwise the result is true exactly when the first entry is a non-null object with string `id`, `company_name`, `title` and `url` |
| SyncJobs.ValidateSpotCheck | app/lib/sync-jobs.ts:29-38 | only the first entry is checked: a valid first entry passes with any rest |
| SyncJobs.ArrayIsNotListing | app/lib/sync-jobs.ts:32-37 | an array as first entry fails the spot check, since its fields are undefined |
| SyncJobs.DatePosted | app/lib/sync-jobs.ts:53 | `datePosted` is null exactly when `date_posted` is falsy, and `date_posted * 1000` ms for a non-zero number |
| SyncJobs.MapListing | app/lib/sync-jobs.ts:42-55 | source "simplify"; `sourceId`, company, title and url are the entry's fields; locations, category, sponsorship and `active` are the entry's value when it is neither null nor undefined, and otherwise `[]`, null, null and true; `datePosted` as `DatePosted` |
| SyncJobs.VisibleMembers | app/lib/sync-jobs.ts:74 | an entry is synced exactly when its `is_visible` is not `false`; a missing one counts as visible |
| SyncJobs.VisibleAll | app/lib/sync-jobs.ts:74 | with no entry hidden, every entry is synced, in order |
| SyncJobs.Upserted | app/lib/sync-jobs.ts:87-107 | an upsert writes every mapped field and `updatedAt = now`; a new row takes key and `createdAt = now`, an existing one keeps its key and `createdAt` |
| SyncJobs.UpsertedTwice | app/lib/sync-jobs.ts:94-107 | upserting the same key twice is upserting the second value |
| SyncJobs.UpsertAllAppend | app/lib/sync-jobs.ts:82-114 | upserting in consecutive batches is upserting the whole list |
| SyncJobs.UpsertAllLookup | app/lib/sync-jobs.ts:82-114 | after the upserts, a key seen in the feed holds the last entry with that key, and any other key is as before |
| SyncJobs.UpsertAllKeysMatch | app/lib/sync-jobs.ts:94-95 | every row stays stored under its own `(source, sourceId)` |
| SyncJobs.Deactivated | app/lib/sync-jobs.ts:117-127 | deactivation keeps the set of rows |
| SyncJobs.IdsMembers | app/lib/sync-jobs.ts:86 | an id is in `sourceIds` exactly when some synced entry has that key |
| SyncJobs.SyncedLookup | app/lib/sync-jobs.ts:82-127 | after a sync a key from the feed holds its last entry's upsert; a Simplify row missing from a non-empty feed gets `active = false` and `updatedAt = now`; any other row is as before |
| SyncJobs.SyncedEmpty | app/lib/sync-jobs.ts:117 | a feed with no visible entry changes nothing |
| SyncJobs.SyncedKeys | app/lib/sync-jobs.ts:82-127 | a sync removes no row and every visible entry has a row afterwards |
| SyncJobs.ListingTable.MapBatch | app/lib/sync-jobs.ts:84-108 | the batch's statements are the mapped entries, and their ids are appended to `sourceIds` in order |
| SyncJobs.ListingTable.UpsertBatch | app/lib/sync-jobs.ts:83-113 | one pass of the loop upserts the listings `i..end` and extends `sourceIds` and `synced` accordingly |
| SyncJobs.ListingTable.UpsertInBatches | app/lib/sync-jobs.ts:81-114 | the loop in chunks of 50 counts every listing, collects their ids in order and upserts them in order |
| SyncJobs.ListingTable.ExecBatch | app/lib/sync-jobs.ts:110-113 | a batch of at most 100 upserts applies them in order |
| SyncJobs.ListingTable.MarkMissingInactive | app/lib/sync-jobs.ts:118-126 | the table becomes the deactivated table |
| SyncJobs.ListingTable.Sync | app/lib/sync-jobs.ts:57-130 | a fetch failure, fetch error or failed validation answers `synced = 0` with its message and writes nothing; a null entry rejects; otherwise `synced` is the number of visible entries and the table is the synced table |
| Jobs.ParsePage | app/routes/jobs.tsx:27 | the page is always at least 1 |
| Jobs.ParsePageMeaning | app/routes/jobs.tsx:27 | a parameter that `parseInt` reads as a positive number is that page; a missing, empty, NaN, zero or negative one is page 1 |
| Jobs.ParsePageOfString | app/routes/jobs.tsx:27 | `String(n)` for a page `n >= 1` reads back as `n` |
| Jobs.Offset | app/routes/jobs.tsx:60-61 | the offset is `(page - 1) * 25` |
| Jobs.PageSlice | app/routes/jobs.tsx:59-61 | a page shows at most 25 rows |
| Jobs.RowOnItsPage | app/routes/jobs.tsx:59-61 | row `i` is row `i % 25` of page `i / 25 + 1`, and that page exists |
| Jobs.PastLastPageEmpty | app/routes/jobs.tsx:59-61 | a page past the last one is empty |
| Jobs.TotalPages | app/routes/jobs.tsx:157 | `max(1, ceil(total / pageSize))`: at least 1, covers all rows, and no page more than needed |
| Jobs.HasNextPageMeaning | app/routes/jobs.tsx:158 | `page < totalPages` holds exactly when the next page has rows |
| Jobs.ShownRangeMatchesPage | app/routes/jobs.tsx:283-296 | on an existing page of a non-empty result the range is `offset + 1` to `offset + rows shown`, inside `1..total` |
| Jobs.ShownRangeEndBounded | app/routes/jobs.tsx:291 | the range's end never passes `total`, and is `page * pageSize` when that fits |
| Jobs.ShownRangePastLastPage | app/routes/jobs.tsx:283-296 | page 3 of 10 results reads "Showing 51 – 10 of 10" |
| Jobs.FormatTimeAgoBuckets | app/routes/jobs.tsx:116-128 | under a minute "just now", then whole minutes 1–59 "m ago", whole hours 1–23 "h ago", whole days 1–29 "d ago", then the formatted date |
| Jobs.FloorDiv | app/routes/jobs.tsx:119-121 | `Math.floor(diff / unit)` counts the whole units elapsed |
| Jobs.Deleted | app/routes/jobs.tsx:136 | `params.delete("page")` removes every pair with that name and keeps the others |
| Jobs.SetParamEffect | app/routes/jobs.tsx:138 | after `params.set` the parameter reads the new value, occurs once, and every other pair is kept |
| Jobs.DeletedTwice | app/routes/jobs.tsx:136 | deleting twice is deleting once |
| Jobs.SearchParams.Delete | app/routes/jobs.tsx:136 | the copy's pairs lose the named ones |
| Jobs.SearchParams.Set | app/routes/jobs.tsx:138 | the copy's pairs get the value set |
| Jobs.SearchParams.constructor | app/routes/jobs.tsx:134 | the copy starts with the page's pairs |
| Jobs.Serialize | app/routes/jobs.tsx:140 | the query string is empty exactly when no pair is left |
| Jobs.BuildPageUrl | app/routes/jobs.tsx:130-142 | the built link is the page link for those pairs |
| Jobs.PageUrlRoundTrip | app/routes/jobs.tsx:130-142 | following the link to `page` lands on `page`, page 1 for `page <= 1`, with every other parameter kept in order |
| Jobs.PageUrlBare | app/routes/jobs.tsx:141 | the link is the bare "/jobs" exactly when no parameter is left |
| Jobs.ParseLocations | app/routes/jobs.tsx:97-105 | invalid JSON gives `[raw]` and a JSON array is returned as is |
| Jobs.ParseLocationsShape | app/routes/jobs.tsx:97-105 | the list is empty exactly when the text parses to `[]`; a JSON string is wrapped as itself, a number as its `String(v)`, and `null`, a boolean or an object as `"null"`, `"true"`/`"false"` or `"[object Object]"` |
| JsonValue.CoalesceLaws | app/lib/sync-jobs.ts:48-52 | `v ?? d` is never null or undefined when `d` is not; `(v ?? d) ?? d` is `v ?? d`; and `v ?? (w ?? d)` is `(v ?? w) ?? d` |
| JsonValue.ToJsString | app/routes/jobs.tsx:101 | `String(v)` of a string is the string, and of a number it reads back through `parseInt` |

## Left out

- Authentication and sessions: `userId` is an input to every handler.
- The React components and every piece of JSX, apart from the numbers of the
  results summary and the color lookup.
- Fresh ids: the application id (`crypto.randomUUID()`,
  app/routes/dashboard.applications.tsx:97) is the `appId` parameter, and must not
  already be in use.
- Ids of `board_column` and `column_transition` rows: the model assumes an id
  generator for these two tables, but the schema has none.
  - `id: text("id").primaryKey()` has no default (app/db/schema.ts:7, 55).
  - The column and transition inserts give no id
    (app/routes/dashboard.columns.tsx:47-57, app/routes/dashboard.tsx:37-46,
    app/routes/dashboard.applications.tsx:119-124, 364-371).
  - The model takes these ids as the fresh parameters `columnId`, `seedIds` and
    `transitionId`. `Columns.HandleCreate` answers 201 with that `columnId`.
- The clock (`new Date()`, `Date.now()`) is a parameter `now`.
- `new Date(string)` is the `DateParser` parameter, which returns `None` for an
  invalid date. Date-string validity is not modelled.
- Timestamps in the model's rows are plain integers of milliseconds. Every
  `mode: "timestamp"` column stores whole seconds (app/db/schema.ts:14, 29, 35,
  36, 50, 63), so a written `now` reads back cut to the second. That cut is not
  modelled: a row holds `now` as given.
- `Jobs.FormatTimeAgo` takes its `timestamp` in seconds, as the raw
  `max(updatedAt)` it receives is, while the model's stored rows hold
  milliseconds. The model does not connect the two.
- `Intl.DateTimeFormat`: the `formatDate` parameter of `Jobs.FormatTimeAgo`.
- `JSON.parse` is the `parse` parameter of `Jobs.ParseLocations`.
- `JSON.stringify` of the locations: `SyncJobs.MapListing` keeps the value that
  would be stringified.
- `URLSearchParams` encoding is the `encode` parameter.
- `fetch` and `response.json()` are the `Fetched` input of
  `SyncJobs.ListingTable.Sync`.
- Floating point: JSON numbers and salaries are integers. `date_posted` values
  that are truthy but not numbers keep their JSON value in place of JavaScript's
  numeric coercion.
- SQL details:
  - query construction;
  - `LIKE` matching;
  - NULL semantics of the upsert key;
  - `NOT IN` with a NULL: `notInArray(sourceId, sourceIds)` is never true when
    the list holds a NULL, so no row is deactivated. An entry with a missing or
    null `id` can reach that list, because `validateSimplifyData` checks only the
    first entry. `SyncJobs.Deactivated` uses plain list membership and does not
    model this;
  - the jobs loader's filter conditions, distinct-value queries and last-synced
    query (app/routes/jobs.tsx:29-50, 68-83).
  `Jobs.PageSlice` takes the rows the query would return, already ordered by
  `datePosted`.
- `ORDER BY` ties: rows with equal positions come back in insertion order. SQL
  does not specify that order.
- Foreign keys are not enforced, so a column delete leaves the column's
  transitions in place. `Columns.DeleteIntoItself` exhibits the dangling
  reference that would otherwise be an error.
- Concurrency: the count-then-insert of a create (app/routes/dashboard.applications.tsx:55)
  can race with another create. Sequential executions cannot express that, so
  density is stated only for sequential runs that start from a dense board.
- A `db.batch` that fails halfway: every statement is assumed to succeed. As
  modelled, the batch is in order and non-atomic.
- `jobListing` is not defined in app/db/schema.ts. `SyncJobs.ListingRow` declares
  only the fields the sync writes.
- `boardColumn` declares no `updatedAt` (app/db/schema.ts:6-15), but the handlers
  write one. `Schema.ColumnRow` has that field.
- Contacts are never written by the modelled routes. They appear only in the
  delete cascade.
- Applications.HandleCreate: the create statement's position is the column's
  count at the moment of the request. The model reads it from the state the
  handler started in, which is the same thing in a sequential run.
- Dashboard.Loader: the returned view is stated only for the database after the
  optional seeding, as the loader reads it.

## Findings

| source | as written | input that shows it | evidently intended | confidence | as-written member | corrected member |
|---|---|---|---|---|---|---|
| app/routes/dashboard.tsx:124 | `COLUMN_COLORS[column.color] ?? "#6B7280"` indexes a plain object literal, so a name inherited from `Object.prototype` finds a function (or the prototype) instead of falling back | a column created with color `constructor` (any trimmed non-blank color is accepted at app/routes/dashboard.columns.tsx:37-52) has its color looked up as the inherited `Object` constructor, a function, instead of `#6B7280` | only the nine own color names map to hex values and every other name maps to `#6B7280` | high; not executed | Dashboard.ColorLookupAsWritten, Dashboard.ColorLookupInherited | Dashboard.ColorHex, Dashboard.ColorHexAgrees |
