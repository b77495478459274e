# quick — a verified model of its core

This project models, in Dafny, the self-contained logic of the Go web
toolkit `quick`:

- the **proxy liveness pool** (`support/proxypool`): an alive store kept in
  a fixed-length buffer up to a logical last index, a candidate store of
  proxies that failed a probe, each with a counter of failed sweeps, and the
  periodic sweep that demotes failing proxies, promotes reviving candidates,
  counts failures and evicts candidates that failed too often;
- the **SMS verification-code validator** (`support/sms`): produce and
  validate codes over a key-to-code store, with expiry, re-send throttling
  and one-shot use;
- the admin module's **menu tree builder** and **role predicates**
  (`contrib/admin`), and the **command-to-model mappers** that turn a
  create or update request into an `Admin` record and its role links;
- the **validation message** formatting of the checker, the **HTTP error
  handler**'s decision table, and the **error values** (`FineErr`, `BizErr`);
- the comma-separated **string list** column codec (`support/sqlex`);
- the small helpers: mobile-number masking, caller formatting, month and
  day boundaries, the page offset, and the **data-permission** applier
  lookup (`support/dataperm`).

Each Go file is one Dafny module. Objects whose fields the Go code updates
in place are classes (`ProxyPool.Pool`, `Sms.Validator`,
`DataPerm.Holder`, `Checks.MessageTable`, `Errors.FineErr`,
`SqlStringList.StringList`, `AdminCommands.Admin`); loops are methods with
invariants, proved against specification functions whose properties are
lemmas. The probe, the clock, the random index, the URL parser, the JSON
decoder, password hashing and the unique-code generator are parameters.

Three behaviours of the code, stated as the model follows them:

- A proxy whose probe keeps failing is demoted by the first sweep, counted
  by `max + 1` further sweeps and dropped by the next one: `max + 3` sweeps
  in all, five for a bound of 2 (`ProxyPool.EvictedAfterRepeatedFailures`).
  The comment at support/proxypool/proxypool_test.go:89-90 speaks of removal
  "after 3 checks", while the test sleeps 24 seconds (line 92), room for
  about five of the 5-second sweeps.
- A malformed address makes `Add` return the error of `url.Parse` as it is
  (support/proxypool/proxypool.go:81-84, `ProxyPool.Pool.Add`).
- A missing database record is answered with status 400 and "Bad Request"
  (error_handler.go:62-68), while error_handler_test.go:32 expects 404 "Not
  Found" (`ErrorHandler.RecordNotFoundIsBadRequest`).

## Model

| member | source | states |
|---|---|---|
| ProxyPool.Pool.constructor | support/proxypool/proxypool.go:54-65 | a configured bound below 1 becomes 10; the pool starts with a 32-slot buffer, last index -1 and no candidates |
| ProxyPool.Pool.Insert | support/proxypool/proxypool.go:212-220 | `add` with the growth guard on the slot to be written: the alive store gains the proxy at its end, the buffer doubles exactly when full, candidates are untouched, the pool invariant holds |
| ProxyPool.Pool.Add | support/proxypool/proxypool.go:80-94 | a parse error is returned as is and a failing probe gives ErrURLInvalid, both leaving the pool unchanged; otherwise no error and the proxy is appended to the alive store |
| ProxyPool.Pool.Get | support/proxypool/proxypool.go:96-105 | ErrNoValid exactly when the alive store is empty; otherwise an alive proxy, the one at the random index |
| ProxyPool.Pool.All | support/proxypool/proxypool.go:107-122 | a copy equal to the alive store (empty when nothing is alive) |
| ProxyPool.Pool.Failing | support/proxypool/proxypool.go:147-155 | the recorded dead slots are exactly the alive slots whose probe fails, ascending |
| ProxyPool.Triage | support/proxypool/proxypool.go:157-177 | the candidate loop: reviving proxies in order, the positions to drop (revived or over the bound), and every staying candidate's counter increased by one |
| ProxyPool.Pool.Classify | support/proxypool/proxypool.go:143-178 | the classify phase leaves the alive store as it was and yields the dead slots, revived proxies, drop positions and aged candidates above |
| ProxyPool.AgedAt | support/proxypool/proxypool.go:165-172 | aging changes each candidate on its own, in place |
| ProxyPool.AgedBounded | support/proxypool/proxypool.go:165-172 | every counter stays within 0 .. max + 1 after a sweep |
| ProxyPool.Pool.DemoteSlot | support/proxypool/proxypool.go:188-192 | one demotion: the slot's proxy becomes a candidate with counter 0, the last alive proxy fills the hole, the store shrinks by one |
| ProxyPool.Pool.Demote | support/proxypool/proxypool.go:187-193 | the demotion batch by recorded slot, largest first: the alive store loses exactly the recorded slots, which are appended as candidates |
| ProxyPool.Pool.Promote | support/proxypool/proxypool.go:195-197 | the reviving proxies are appended to the alive store in order; candidates untouched |
| ProxyPool.Pool.Evict | support/proxypool/proxypool.go:199-204 | the drop batch by recorded position, largest first: the candidate store loses exactly the recorded positions |
| ProxyPool.Pool.Apply | support/proxypool/proxypool.go:180-205 | the apply phase: alive store without the dead slots plus the revived proxies; candidate store plus the demoted proxies, without the dropped positions |
| ProxyPool.Pool.Sweep | support/proxypool/proxypool.go:143-205 | after a sweep the alive store holds the passing alive proxies and the revived candidates, and the candidate store the aged staying candidates and the failing alive proxies with counter 0 (as multisets) |
| ProxyPool.AliveAccounting | support/proxypool/proxypool.go:148-197 | the alive-store half of the sweep accounting |
| ProxyPool.CandidateAccounting | support/proxypool/proxypool.go:157-204 | the candidate-store half: revived and evicted candidates are gone, stayers are aged, demoted proxies enter with counter 0 |
| ProxyPool.DemotedFromMultiset | support/proxypool/proxypool.go:187-193 | the demoted candidates are the removed alive proxies, each with counter 0 |
| ProxyPool.AgedSplit | support/proxypool/proxypool.go:157-177 | the aged store is the dropped candidates, untouched, together with the aged stayers |
| ProxyPool.EvictedAfterRepeatedFailures | support/proxypool/proxypool.go:165-171 | a candidate that keeps failing gains one per sweep and is marked for dropping exactly when its counter has passed the bound |
| SwapRemoval.SwapRemove | support/proxypool/proxypool.go:189-192 | swap-with-last removal: one shorter, other slots kept, the hole holds the former last element |
| SwapRemoval.SwapRemoveMultiset | support/proxypool/proxypool.go:188-192 | swap-with-last removal loses exactly the removed element |
| SwapRemoval.RemoveAllMultiset | support/proxypool/proxypool.go:187-204 | removing a batch of recorded slots loses exactly the elements at those slots |
| SwapRemoval.IndicesWhereMembers | support/proxypool/proxypool.go:148-155 | a position is recorded exactly when it is in range and its element satisfies the test |
| ProxyPool.DemoteAsWritten | support/proxypool/proxypool.go:187-193 | the demotion loop as written, by position in the dead list: buffer length kept, last index lowered by the number of failures |
| ProxyPool.DropAsWritten | support/proxypool/proxypool.go:199-204 | the drop loop as written, by position in the drop list, with the out-of-range panic as `None`; on success the list shrinks by the number of drops |
| ProxyPool.FailingSlotsExample | support/proxypool/proxypool.go:148-155 | with "a", "b", "c" alive and only "a" passing, slots 1 and 2 are recorded |
| ProxyPool.DemoteAsWrittenDemotesHealthy | support/proxypool/proxypool.go:187-193 | on that input the loop as written demotes "a" and "b" and keeps "c" alive |
| ProxyPool.DemoteCorrectedKeepsHealthy | support/proxypool/proxypool.go:187-193 | on that input demotion by recorded slot keeps "a" and demotes "c" and "b" |
| ProxyPool.DropSlotsExample | support/proxypool/proxypool.go:157-169 | a failing "x" then a reviving "y": only position 1 is recorded for dropping |
| ProxyPool.DropAsWrittenDropsWrongCandidate | support/proxypool/proxypool.go:165-204 | on that input classify ages "x" to counter 1, then the loop as written drops "x" and keeps "y"; dropping by recorded position keeps the aged "x" |
| ProxyPool.DropAsWrittenPanics | support/proxypool/proxypool.go:199-204 | three candidates dropped in one sweep make the loop as written index past the shrunk list; dropping by recorded position empties the store |
| ProxyPool.AddAsWrittenPanicsWhenFull | support/proxypool/proxypool.go:212-220 | under the pool invariant `add` as written fails exactly when the buffer is full |
| ProxyPool.ThirtyThirdAdd | support/proxypool/proxypool.go:59 | the 33rd proxy overflows the 32-slot buffer as written, while `Insert` doubles it and appends |
| Sms.Key | support/sms/validator.go:169 | the store key is the scene id, a dash and the number |
| Sms.KeyInjective | support/sms/validator.go:169 | for scene ids without a dash the key determines the scene and the number |
| Sms.KeyCollision | support/sms/validator.go:169 | with a dash in the scene id two different pairs share a key |
| Sms.CheckCases | support/sms/validator.go:211-218 | invalid exactly when absent or expired, wrong exactly when valid but different, accepted exactly when valid and equal |
| Sms.Validator.constructor | support/sms/validator.go:50-57 | no skip hook, the given generator and store |
| Sms.Validator.SetFnSkip | support/sms/validator.go:226-228 | installs the skip hook |
| Sms.Validator.SetGenCode | support/sms/validator.go:231-233 | replaces the code generator |
| Sms.Validator.Produce | support/sms/validator.go:168-198 | throttled: the stored code and the remaining wait, store unchanged; a scene or store error changes nothing; a send error deletes the key; otherwise the new code, made at `now` with the scene's durations, is stored |
| Sms.Validator.Validate | support/sms/validator.go:201-223 | the skip hook accepts without touching the store; otherwise the check's answer, and the key is deleted exactly when accepted |
| Sms.FreshCode | support/sms/validator.go:72-79 | a code made now is valid exactly when its duration is positive, and its wait is the whole re-send interval |
| Sms.ProduceThenProduceThrottled | support/sms/validator.go:170-173 | producing again at once after a success is throttled when both durations are positive |
| Sms.ProduceThenValidate | support/sms/validator.go:211-218 | a valid stored code accepts exactly its own text and answers wrong otherwise |
| Sms.WrongKeepsCode | support/sms/validator.go:216-218 | a wrong attempt keeps the code, so the right one is still accepted |
| Sms.ValidateOnce | support/sms/validator.go:220-222 | after an accepted check the same code is invalid |
| Sms.ExpiredIsInvalid | support/sms/validator.go:72-74 | a code is invalid from `produceAt + validDuration` on |
| AdminModel.ContainsKey | contrib/admin/model.go:69-76 | true exactly when some role has the key |
| AdminModel.BelongGroup | contrib/admin/model.go:79-86 | true exactly when some role is in the group |
| AdminModel.IsCFDGroup | contrib/admin/model.go:89-91 | true exactly when some role is in the "cleanfood" group |
| AdminModel.LessIsStrictTotalOrder | contrib/admin/model.go:297-305 | irreflexive, asymmetric, transitive, and total on menus with different ids |
| AdminModel.LeTransitive | contrib/admin/model.go:297-305 | "not after" is transitive |
| AdminModel.SortMenus | contrib/admin/model.go:250 | the caller's list is sorted in place by parent, sort key and id, and is a permutation of the original |
| AdminModel.SwapAdjacent | contrib/admin/model.go:306 | exchanges two neighbours and nothing else |
| AdminModel.AsNode | contrib/admin/model.go:249-294 | sorts the list in place, builds the tree of the sorted list, and with distinct ids the tree has the exact shape below |
| AdminModel.BuildNodes | contrib/admin/model.go:252-291 | the loop builds the state the one-menu-at-a-time definition gives |
| AdminModel.LinkMenu | contrib/admin/model.go:278-290 | a menu is linked under the root (parent id 0), under its parent when seen, or left pending for it |
| AdminModel.AdoptAll | contrib/admin/model.go:266-275 | the pending menus are linked under the new node in order, actions as actions |
| AdminModel.BuildShape | contrib/admin/model.go:256-291 | with distinct ids every node holds exactly its child menus and its actions, whether they came before or after it; the root holds the top-level menus; the pending lists are exact |
| AdminModel.KidsMembers | contrib/admin/model.go:281-286 | a node's children are exactly the non-action menus with its id as parent, in list order |
| AdminModel.SiblingsInOrder | contrib/admin/model.go:297-305 | a node's children come in (sort, id) order |
| AdminModel.RootKidsMembers | contrib/admin/model.go:278-279 | the root's children are exactly the menus with parent id 0, actions included |
| AdminModel.OrphanLinkedNowhere | contrib/admin/model.go:287-289 | a menu whose parent id matches no menu is nobody's child |
| AdminModel.ActionsNeverChildren | contrib/admin/model.go:282-284 | an action menu is among its parent's actions and never a child |
| Checks.ErrorText | checker.go:72-85 | the loop writes the buffer of all entries and trims one trailing ", " |
| Checks.TrimSuffix | checker.go:84 | drops the suffix exactly when present, else returns the text |
| Checks.EntryEnd | checker.go:76-80 | an entry contributes nothing exactly when it has no errors, otherwise text ending in ", " |
| Checks.BufferEnd | checker.go:75-82 | the buffer ends in ", " when some entry has errors and is empty otherwise |
| Checks.TextTrimsOne | checker.go:84 | the text is the buffer without exactly one trailing ", ", and empty without errors |
| Checks.SilentEntryContributesNothing | checker.go:75-76 | an entry without errors changes neither buffer nor text, wherever it stands |
| Checks.ThreeFields | checker.go:77-79 | three fields render as title, ": " and the messages joined by ", " |
| Checks.ThreeFieldExample | checker_test.go:27 | the test's three fields render as "编号: 不能为空, 姓名: 不能为空, 密码: 不能为空, 太小了" |
| Checks.FmtErrArr | checker.go:127-155 | the loop collects the messages of the recognised kinds in order |
| Checks.FormattedPicksKnown | checker.go:127-155 | one message per recognised kind, in input order, unknown kinds skipped, so never more messages than errors |
| Checks.MessageTable.constructor | checker.go:24-32 | a table object holding the given entries |
| Checks.Checker.constructor | checker.go:54-59 | keeps the tag names and the table it is given |
| Checks.NewChecker | checker.go:43-60 | as written: the checker keeps the package table itself, and overrides are merged into that shared table |
| Checks.OverrideLeaksIntoDefault | checker.go:44-49 | a checker built with an override changes the message the default checker reports |
| Checks.NewCheckerCopying | checker.go:43-60 | corrected: the overrides are merged into a fresh copy and the package table is untouched |
| Checks.OverrideStaysLocal | checker.go:44-49 | with the copy the default checker keeps its message |
| ErrorHandler.StatusTable | error_handler.go:25-73 | duplicate key and BadArgs give 400, other driver and business errors 500, validation and missing record 400, FineErr its own code; only unrecognised errors are delegated |
| ErrorHandler.MessageTable | error_handler.go:25-61 | the driver's message for a duplicate key, "Internal Server Error" for other driver errors, the error's text for validation and business errors, FineErr its message |
| ErrorHandler.ValidationMessage | error_handler.go:39-42 | a validation error is answered with its buffer minus the trailing ", " |
| ErrorHandler.HeadHasNoBody | error_handler.go:78-83 | a HEAD request never gets a JSON body, and once the response is committed the handler either delegates or sends nothing |
| ErrorHandler.RecordNotFoundIsBadRequest | error_handler.go:63-68 | a missing record is answered 400 "Bad Request" |
| ErrorHandler.ExampleCases | error_handler_test.go:26-33 | the test's duplicate-key, validation, FineErr and plain-error cases |
| Errors.FineErr.constructor | err.go:19-23 | code, message and caller as given, nothing wrapped, so its text is the message |
| Errors.FineErr.SetError | err.go:33-36 | wraps the error, nil included, and returns the same object; its text is now the wrapped error's, or the message again after a nil |
| Errors.TraceError | err.go:38-40 | status 500, message and wrapped text both the error's text |
| Errors.FineErrText | err.go:25-30 | the wrapped text wins over the message; the message shows when nothing is wrapped |
| Errors.BizErrConstructors | err.go:58-84 | the two constructors differ only in type; both keep the code as text, the cause as unwrapped error and the caller |
| Errors.IsIgnoresContents | err.go:86-92 | `Is` holds exactly for business-error targets, whatever their contents |
| SqlStringList.Split | support/sqlex/string_list.go:37 | splitting never yields the empty list |
| SqlStringList.StringList.constructor | support/sqlex/string_list.go:12 | a list holding the given elements |
| SqlStringList.StringList.Scan | support/sqlex/string_list.go:20-40 | any type but text or bytes is refused and the list kept; otherwise the list is the trimmed text split on ",", empty for blank text |
| SqlStringList.StringList.UnmarshalJSON | support/sqlex/string_list.go:42-55 | input starting with '[' takes the JSON decoder's answer or error; other input is split on "," untrimmed |
| SqlStringList.SplitJoin | support/sqlex/string_list.go:15-17 | splitting joined comma-free elements gives them back |
| SqlStringList.JoinSplit | support/sqlex/string_list.go:37 | joining the pieces gives back the text |
| SqlStringList.JoinEmpty | support/sqlex/string_list.go:15-17 | the stored value is empty only for the empty list and [""] |
| SqlStringList.TrimShape | support/sqlex/string_list.go:32 | trimming removes leading and trailing spaces and nothing else |
| SqlStringList.TrimmedIsFixed | support/sqlex/string_list.go:32 | text without surrounding spaces is not changed by trimming |
| SqlStringList.ScanValueRoundTrip | support/sqlex/string_list.go:15-38 | scanning the stored value gives the list back, for comma-free elements, no surrounding spaces, and a list other than [""] |
| SqlStringList.EmptyElementLost | support/sqlex/string_list.go:34-35 | [""] is stored as "" and read back as the empty list |
| SqlStringList.ValueExample | support/sqlex/string_list_test.go:12-20 | ["aaa", "bbb"] is stored as "aaa,bbb" and reads back |
| SqlStringList.EmptyInputs | support/sqlex/string_list_test.go:44-50 | empty or all-space text scans to the empty list; "" unmarshals as plain text to [""] |
| Util.MaskMobile | util/s.go:3-9 | "" stays ""; otherwise the first three characters, "****" and the last four |
| Util.MaskElevenDigits | util/s.go:8 | an eleven-digit number keeps every digit except the middle four |
| Util.MaskIdempotent | util/s.go:3-9 | masking a masked number changes nothing |
| Util.Decimal | util/caller.go:26 | the decimal text of the line: digits, with a leading '-' when negative |
| Util.WrapCaller | util/caller.go:17-27 | the part of the file the backward scan keeps, ":", and the line; `fn` is unused |
| Util.ShortFromShape | util/caller.go:19-24 | with no '/' at position 1 or later the file is kept whole, otherwise a proper suffix with no '/' |
| Util.WrapCallerNoSlash | util/caller.go:17-27 | the result holds no '/' except possibly as its first character |
| Util.DaysIn | util/time.go:25-26 | a Gregorian month has 28 to 31 days |
| Util.BeginningOfMonth | util/time.go:19-21 | a valid time |
| Util.EndOfMonth | util/time.go:24-28 | a valid time |
| Util.BeginningOfDay | util/time.go:31-33 | a valid time |
| Util.EndOfDay | util/time.go:36-38 | a valid time |
| Util.BoundariesKeepFields | util/time.go:19-38 | year, month and location kept; day 1 at 00:00:00.0, the month's last day at 23:59:59.0, or the same date at those times |
| Util.BoundariesIdempotent | util/time.go:19-38 | each boundary is idempotent, and the start of a month's end is the start of the month |
| Util.BoundariesBracket | util/time.go:19-38 | start of month, start of day and the time come in order, and the end of the day comes no later than the end of the month; the time is no later than the end of its day exactly when it is not inside the fraction after 23:59:59 |
| Util.MonthLengthExamples | util/time_test.go:10-30 | August 2020 runs from the 1st to the 31st; leap-year Februaries |
| Paging.Offset | support/page.go:26-28 | non-negative for pages from 1 and sizes from 0; negative for a page below 1 with a positive size |
| Paging.OffsetSteps | support/page.go:27 | page 1 starts at row 0 and each next page `size` rows further |
| Paging.OffsetCountsPages | support/page.go:27 | the offset of page `p` is the rows of the `p - 1` pages before it |
| DataPerm.Domain | support/dataperm/dataperm.go:24-26 | "nop" for the no-op applier, the configured domain otherwise |
| DataPerm.Apply | support/dataperm/dataperm.go:21-23 | the no-op applier returns the query unchanged |
| DataPerm.Holder.constructor | support/dataperm/dataperm.go:32-37 | an empty holder |
| DataPerm.Holder.Set | support/dataperm/dataperm.go:38-40 | the domain now gives the applier, every other domain what it gave before |
| DataPerm.Holder.Get | support/dataperm/dataperm.go:41-44 | found exactly when the domain has an entry, and then that entry |
| DataPerm.Wrap | support/dataperm/dataperm.go:47-54 | the holder's applier for the domain; the no-op applier without holder or entry |
| DataPerm.SetAppliers | support/dataperm/dataperm.go:57-63 | a fresh holder with the appliers set in order, carried by the new context |
| DataPerm.LatestIsLast | support/dataperm/dataperm.go:59-61 | the latest applier of a domain is one after which no other has it |
| DataPerm.TableHoldsLatest | support/dataperm/dataperm.go:59-61 | the filled holder maps each domain to the last applier with that domain |
| DataPerm.WrapAfterSetAppliers | support/dataperm/dataperm.go:47-62 | after `SetAppliers`, wrapping gives the last applier with the domain, or the no-op applier |
| DataPerm.LaterOverrides | support/dataperm/dataperm.go:59-61 | a later applier for a domain replaces an earlier one; other domains keep theirs |
| AdminCommands.Admin.constructor | contrib/admin/model.go:15-25 | an admin with the given fields and an empty password |
| AdminCommands.Admin.SetPassword | contrib/admin/model.go:33-41 | stores the hash; a hashing error is returned and the password kept |
| AdminCommands.AdminRole.constructor | contrib/admin/model.go:48-52 | a link to the role with zero id and admin id |
| AdminCommands.RoleIDs | contrib/admin/create_admin_cmd.go:16-21 | the role ids of the links, position by position |
| AdminCommands.NewRoleLinks | contrib/admin/create_admin_cmd.go:16-21 | one fresh, distinct, unsaved link per role id, in order |
| AdminCommands.CreateToModel | contrib/admin/create_admin_cmd.go:15-33 | admin id 0 with the command's fields, the generated code and the hash (empty when hashing fails); one link per role id; error always nil |
| AdminCommands.UpdateToModel | contrib/admin/update_admin_cmd.go:13-30 | the command's id and fields, empty password and code; one link per role id; error always nil |

## Left out

- Locking, the self-rescheduling timer, `Stop`, the goroutine started by `New`, and verbose logging of the pool: concurrency and I/O. The model runs one sweep at a time.
- The pool's default HTTP probe, `url.Parse` and `rand.Intn`: the probe is a function parameter, the parse result a `Parsed` value, and the random index a caller-supplied number taken modulo the alive count.
- ProxyPool.Pool.Sweep: states the effect on the two stores as multisets, not their order, which swap-with-last removal scrambles.
- ProxyPool.Pool.Insert, ProxyPool.Pool.Demote, ProxyPool.Pool.Evict and their callers model the corrected code of the findings below; the code as written is modelled by `DemoteAsWritten`, `DropAsWritten` and `AddAsWritten`.
- The storage, scene lookup, SMS agency and message template of the validator: their answers are parameters. The text of `ErrReproduceRemain` and `Code`'s binary (JSON) encoding are left out.
- Sms.Validator.Produce: the clock is one `now` for the whole call; Go reads it separately for each check.
- The checker's `Check` and `extractStructFields`: reflection and the validator library.
- The HTTP error handler's logging, the framework's default handler, and the runtime caller lookup `util.Caller`: outside the program's own logic. The handler's answer to a delegated error is not modelled.
- Errors.FineErr.constructor: the caller location is a parameter; `NewFineErr` formats it from the runtime stack.
- `FineErr`'s wrapped error is kept as its text, the only thing `Error` reads of it.
- The JSON branch of `StringList.UnmarshalJSON`: the decoder's answer is a parameter.
- Util.MaskMobile: strings are characters, one per byte of the Go string; a non-empty input shorter than four characters, where Go panics, is excluded by the precondition.
- Time zones, daylight saving and `DiffDays` (floating point); a time is its calendar fields and a location name.
- `Page.PageCount`: floating-point ceiling.
- Paging.Offset: does not model 64-bit overflow of Go's `int`, because page and size come from query parameters the model treats as mathematical integers.
- A custom applier's `Apply` is a function on a query modelled as its list of conditions; context values other than the applier holder are left out.
- bcrypt hashing and password checking, and the `xid` code generator: their outcomes are parameters.
- `Admin.CreatedAt`/`UpdatedAt`: set by the database layer.
- AdminModel.AsNode: children are positions in an arena of nodes rather than pointers; the shape is proved for distinct menu ids (primary keys), and only the construction is proved for repeated ids.

## Findings

| source | as written | input that shows it | evidently intended | confidence | as-written member | corrected member |
|---|---|---|---|---|---|---|
| support/proxypool/proxypool.go:187-193 | `for i := range dead` demotes alive slot `i`, a position in the dead list, not the recorded slot `dead[i]` | alive "a", "b", "c" with only "a" passing: slots 1 and 2 are recorded, and the loop demotes "a" and "b" and keeps the failing "c" alive | demote the recorded slots, largest first so the swap keeps the other recorded slots valid | not executed | ProxyPool.DemoteAsWrittenDemotesHealthy | ProxyPool.AliveAccounting |
| support/proxypool/proxypool.go:199-204 | `for i := range drop` removes candidate position `i`, not the recorded position `drop[i]` | candidates "x" (failing, counter 0) and "y" (reviving): position 1 is recorded, classify ages "x" to counter 1, and the loop drops "x" while "y" is both promoted and kept as a candidate | drop the recorded positions, largest first | not executed | ProxyPool.DropAsWrittenDropsWrongCandidate | ProxyPool.CandidateAccounting |
| support/proxypool/proxypool.go:199-204 | the write `p.candidates[i]` runs while the list shrinks each iteration, and `i != len(p.candidates)` does not stop `i` passing the length | three candidates all dropped in one sweep with nothing demoted: the third iteration writes position 2 of a one-element list and panics | drop the recorded positions, largest first, with the swap guarded by `i != len - 1` | not executed | ProxyPool.DropAsWrittenPanics | ProxyPool.Pool.Evict |
| support/proxypool/proxypool.go:213 | the growth guard `idxLast >= cap` tests the current last index, but the write goes to `idxLast + 1` | a pool holding 32 proxies: the guard is false and the 33rd `add` writes past the 32-slot buffer | grow when `idxLast + 1` reaches the capacity | not executed | ProxyPool.AddAsWrittenPanicsWhenFull | ProxyPool.Pool.Insert |
| checker.go:44-49 | `emm` is the package map `defaultsErrorMsgMap` itself, so the overrides are written into the shared defaults | build the default checker, then a checker overriding "zeroValue" with "must be set": the default checker now reports "must be set" | merge the overrides into a copy of the defaults | not executed | Checks.OverrideLeaksIntoDefault | Checks.NewCheckerCopying |
