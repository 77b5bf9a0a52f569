# Verified model of the POS/ERP back end

The project models the parts of the repository whose correctness rests on state, concurrency or text handling,
and proves what those parts are for. `dafny verify dfyconfig.toml` checks all of it.

**The double-entry ledger** (`lib/glPosting.js`, `lib/glTransitions.js`, `db/connection.js`). `LedgerTables` states
the six operations on whole tables in halalas; `LedgerStore` issues them statement by statement on a `Connection`
whose statements an adversary may fail, inside the bounded retry loops, and proves that every run ends in one
operation of `LedgerTables` or in no change. `LedgerRules` says on the columns what is accepted, which row, entries and
balances each operation leaves, and who may do it when. `LedgerInvariant`, `LedgerHistory`, `LedgerDrift` and
`LedgerLosses` prove what holds over every run: balances equal posted entries but for the updates lost to swallowed
errors, posted journals never change, maker is not checker, period gates, reversals cancel and happen once, chains are
acyclic, and the sum of all balances and losses stays within one halala per open reversal chain of odd length.
`LedgerScripts` lists the statements of each operation, and `LedgerSessions` proves that sessions interleaving them
commit the tables of a serial run. `LockOrder` and `SerialAllocator` are step systems for the row locks of concurrent
transactions and for concurrent number allocation; `JournalNumbers` is the text of the numbers and what the counters owe
it.

**The union query builder** (`lib/inventoryOperations.js`). `OperationsQuery` is a small SQL predicate language with
positional placeholders and three-valued logic, and the builder that compiles descriptors and filters into it.
`OperationsMeaning` proves that the compiled query with its parameters bound in order selects exactly the rows the
filters describe, and `OperationsText` that the emitted text, read back by the precedence rules of SQL, means the same;
`OperationsPages` proves identity, paging and tab counts.

**The two SQL statement splitters** (`server.js`, `db/migrate.js`). `SqlLexer` says where a text is inside a quote or
comment, and `SqlStretches` what that is on the characters; `SqlSplitters` proves both scanning loops against it;
`SplitterAgreement` relates the two.

**Smaller protocols.** `Idempotency` and `IdempotencyProtocol` (reservations, one statement at a time), `StableJson`
(the canonical printer under the payload hash), `CsvWriters` (both writers against a reader by section 2 of RFC 4180),
`ImageHash`, `ImageQueue`, `ImageWorker` and `CandidateRace` (perceptual hash, many workers' counters, one worker's
candidates, many workers' candidates), `ArabicPhrases`, `ArabicNames` and `ArabicCasing` (the phrase loop, the word
translator, the casing of codes). `Text` holds string order, decimal text and SQL `LIKE`.

## Where the code differs from what it says

- A balance update that fails with anything but a deadlock or a lock wait is swallowed (`lib/glPosting.js:588-593`),
  so the header promise that balances follow the entries holds after a run exactly when the nets lost on each account
  sum to zero (`LedgerLosses.RunBalancesIff`, with a concrete loss in `LedgerInvariant.LostUpdateBreaks`).
- `isPeriodClosed` swallows a deadlock too and answers "closed" (`lib/glPosting.js:255-258`): a deadlock at that
  statement refuses the journal instead of retrying it, exactly when the commit after it goes through
  (`LedgerStore.Connection.PostJournal` for each attempt, `LedgerStore.DeadlockAtPeriodLookup` for one such call).
- Threads that find no counter row can deadlock over it after the first has seeded it, and over its gap after that one
  has rolled back (`SerialAllocator.SeedDeadlockHappens`, `SerialAllocator.GapDeadlockHappens`); the retry loops around
  the allocation resolve both by rolling back (`SerialAllocator.VictimsUnblock`, `SerialAllocator.GapVictimsUnblock`).
- The comment on `postJournal` gives 'draft' as the default status; the code posts unless the status is 'draft'.
- Deadlock freedom needs the ascending order of `Array.prototype.sort()` and the order of `ORDER BY account_id` to agree;
  the collation decides (`LockOrder.DeadlockFreeIffOrdersAgree`).
- The search filter is documented as a substring search; `%`, `_` and a backslash in it act as wildcards
  (`Text.SubstringSearchIffPlain`).
- The status filter and the projected status part for a raw status outside the map when 'draft' is wanted
  (`OperationsMeaning.StatusFilterMeansProjected`).
- The two splitters read a backslash inside backticks differently (`SplitterAgreement.EscapedTickDiffers`).
- The two CSV writers print different files when there are no rows (`CsvWriters.WritersAgree`).
- Reservation ids join their parts with '|'. A request shares its id with no other one exactly when scope, document
  and user hold no '|' and the key none before its last character (`Idempotency.ReservationUniqueIff`).
- A lookup that finds no row after a refused insert lets its request execute without a reservation, and another one
  beside it (`IdempotencyProtocol.MutualExclusion` is exact, `IdempotencyProtocol.SplitBreaksExclusion` one such run).
- Two workers that read the candidates of a menu item before either inserts store near duplicates
  (`CandidateRace.RunApartIffClear` is exact, `CandidateRace.RaceStoresNearDuplicates` one such run).
- A statement that fails after a row was counted sends the row round again, to be counted twice, and one that fails in
  the catch block can lose a count (`ImageQueue.CountersAtRest` is exact, `ImageQueue.CountedButPending` one such run).
- "Preserved codes keep their casing" fails after 'takeaway': the counter into the original tokens advances by the
  length of 'take away', which has the same translation and stands earlier in the sorted table, so "Takeaway A-31"
  ends in "a-31" (`ArabicCasing.TakeawayLosesCasing`; `ArabicCasing.CasingIffLengthsAgree` is the exact condition on
  the table).

## Model

| member | source | states |
|---|---|---|
| LedgerStore.Connection.Execute | db/connection.js:112-123 | a deadlock throws the whole transaction away, any other failed statement changes nothing, a done one has exactly its effect |
| LedgerStore.Connection.NextJournalSerial | lib/glPosting.js:308-337 | an allocated serial is one more than the counter, or than the day's seed without one, and is the only change; a failed allocation changes nothing and has its last statement to blame; at most eight attempts, all but the last ended by a deadlock or a lock wait |
| LedgerStore.Connection.EnrichLines | lib/glPosting.js:472-492 | the accepted items, or the refusal of the first bad line, with nothing written; broken if and only if its last statement failed, and no other failed |
| LedgerStore.Connection.InsertNumberedHeader | lib/glPosting.js:511-565 | on success the header is stored under an unused id and an unused dated number of its day; the serials tried are consecutive, each try but the last met a used id or number, a duplicate error means all six did, and any other error is that of a failed statement |
| LedgerStore.Connection.NetDeltas | lib/glPosting.js:579-582 | each account in the entries, and no other, gets its net debit minus credit |
| LedgerStore.Connection.UpdateBalances | lib/glPosting.js:567-595 | every account moves by its net except the lost ones, which are exactly those whose update failed with a swallowed error; locked once each in ascending order; it fails only when its last statement met a deadlock or a lock wait |
| LedgerStore.Connection.InsertEntries | lib/glPosting.js:597-659 | exactly the accepted lines are appended, in order, one statement each; it fails only when its last statement did |
| LedgerStore.Connection.PeriodBlocks | lib/glPosting.js:247-259 | for a given date the answer is closed if and only if the period is closed (LedgerRules.ClosedIff) or the lookup failed: it fails closed |
| LedgerStore.Connection.PostJournalTx | lib/glPosting.js:461-662 | success is header, balances and entries together, no statement failed but swallowed updates; a refusal has written nothing and names the true reason or, exactly then, a period lookup that failed; it throws only for a failed statement or six used ids or numbers |
| LedgerStore.Connection.PostJournal | lib/glPosting.js:411-440 | at most four transactions, each but the last ended by a failed statement with a deadlock or a lock wait; the last one is what the call comes to: posted exactly once under a dated number of the day in its date column, refused for a true reason, refused because its period lookup failed (exactly when that, or a closed period, bars it and the commit goes through), or thrown for a failed statement or six used ids or numbers; only the first changes the tables |
| LedgerStore.Connection.UnstruckPosts | lib/glPosting.js:411-440 | a transaction in which no statement fails posts an acceptable journal, unless six tries met used ids or numbers; with counters above the stored numbers and one unused id among the six it posts it and loses nothing |
| LedgerStore.Connection.CountersKept | lib/glPosting.js:262-269 | every transaction keeps each day's counter at or above every stored serial of the day, and then no number is ever a duplicate: a duplicate error means six used ids |
| LedgerStore.DeadlockAtPeriodLookup | lib/glPosting.js:255-258 | one deadlock at the period lookup: an acceptable journal is refused after one attempt and nothing is stored |
| LedgerStore.Connection.ApplyBalances | lib/glTransitions.js:140-149 | the per-entry loop ends in the same balances as the netted update and locks accounts in ascending order; it fails only when its last statement did |
| LedgerStore.SortedNets | lib/glTransitions.js:140-149 | sorting entries by account changes no account's net |
| LedgerStore.SortByAccountFacts | lib/glTransitions.js:140-144 | the ordered entries are ascending and keep every net |
| LedgerStore.Connection.CheckPeriodOpen | lib/glTransitions.js:80-122 | lets a date through exactly as the period decision says (LedgerRules.GateIff); it throws if and only if its query failed |
| LedgerStore.Connection.ApproveBody | lib/glTransitions.js:161-178 | approves a draft of somebody else with its audit row, or answers the true denial and changes nothing, or throws the error of the one statement that failed |
| LedgerStore.Connection.PostBody | lib/glTransitions.js:184-210 | posts an approved journal with balances and audit row, or denies and changes nothing, or throws the error of the one statement that failed; locks the journal, then accounts ascending |
| LedgerStore.Connection.ApprovePostBody | lib/glTransitions.js:220-247 | the same for draft to posted in one step |
| LedgerStore.Connection.DeleteBody | lib/glTransitions.js:255-278 | removes a draft with its entries, refuses approved and posted journals, or throws the error of the one statement that failed |
| LedgerStore.Connection.ReverseBody | lib/glTransitions.js:288-379 | the mirrored journal, both links and the audit row together; or a throw: a refusal that is true, a posting that gave no journal for a named reason, or a failed statement |
| LedgerStore.Connection.Transition | db/connection.js:124-150 | at most four runs of the body, each but the last ended by a failed statement with a deadlock or a lock wait; success applies the operation once, a reversal under a number of its stored day, a denial is the operation's own, a crash is the error of a failed statement; all but success leave the tables untouched and at most gaps in the counters, which stay above the stored numbers |
| LedgerStore.PartlyAll | lib/glPosting.js:583-594 | updating each account of the entries once amounts to the netted effect |
| LedgerStore.RefusalSticks | lib/glPosting.js:474-481 | the first bad line decides the refusal of the whole journal |
| LedgerSums.MirrorAccepted | lib/glTransitions.js:301-319 | when the mirrored lines of a stored journal are accepted, all their codes resolve |
| LedgerSums.MirroredSums | lib/glTransitions.js:301-319 | mirroring swaps the two totals |
| LedgerInvariant.InsertedBalances | lib/glPosting.js:578-595 | posting keeps balance = posted entries if and only if every lost update had a zero net |
| LedgerInvariant.PostingBalances | lib/glTransitions.js:203-204 | posting a stored journal keeps balance = posted entries |
| LedgerInvariant.DeletedBalances | lib/glTransitions.js:269-272 | deleting a draft touches no balance |
| LedgerInvariant.ReversalPlan | lib/glTransitions.js:299-349 | the accepted reversal is the stored entry list with its sides swapped |
| LedgerRules.PeriodAtIff | lib/glPosting.js:250-252 | the lookup finds the first period that contains the date, both ends included, and nothing if and only if none does |
| LedgerRules.ClosedIff | lib/glPosting.js:247-259 | posting is blocked if and only if a period contains the date and the first that does is not open |
| LedgerRules.GateIff | lib/glTransitions.js:80-122 | post and approvePost go through if and only if no period contains the date, the first that does is open, or it is softly closed and an admin, a developer or a holder of the override forces it |
| LedgerRules.AcceptedIff | lib/glPosting.js:464-503 | a journal is accepted if and only if it has lines, its date is open, each line is zero or one-sided on a known code, not all are zero and the totals agree; its entries are then the nonzero lines in order, with their own or inherited dimensions |
| LedgerRules.RefusedFor | lib/glPosting.js:464-503 | any other journal is refused for the first reason that is true, in the order of the checks |
| LedgerRules.PostedRow | lib/glPosting.js:468-534 | the stored row carries the given date or today's, the reference, the author as creator and poster, the totals of the lines and the status asked for |
| LedgerRules.PostedEntries | lib/glPosting.js:597-634 | the stored entries are the nonzero lines in order, on the accounts their codes name |
| LedgerRules.EntriesInOrder | lib/glTransitions.js:299-299 | the entries of a journal are its rows, in table order |
| LedgerRules.ReversedRow | lib/glTransitions.js:335-367 | a reversal is stored posted, on the given date or today, naming its original, with the totals exchanged; the original is marked with it and no other row changes |
| LedgerRules.ReversedEntries | lib/glTransitions.js:301-319 | its entries are the original's in order, debit and credit exchanged, with the same codes and dimensions |
| LedgerRules.BalancesMove | lib/glPosting.js:567-595 | every operation moves every account by exactly the debits less credits it posts on it, but for an insertion's lost updates |
| LedgerRules.AllowedIff | lib/glTransitions.js:161-300 | each transition goes through if and only if its status, maker/checker, capability and period conditions hold, stated on the columns |
| LedgerRules.DenialIsTrue | lib/glTransitions.js:80-300 | every denial code names a fact about the journal, the user or the period |
| LedgerRules.DecisionEffect | lib/glTransitions.js:171-245 | approve, post and approvePost write exactly the status, approver and poster columns and one audit row in the user's name |
| LedgerRules.DeletionEffect | lib/glTransitions.js:266-276 | a deletion takes the row and its entries and nothing else |
| LedgerInvariant.StepStructure | lib/glTransitions.js:161-391 | whatever statements fail, every operation keeps headers equal to their entries, numbers unique and links mutually inverse |
| LedgerInvariant.StepBalances | lib/glPosting.js:578-595 | an operation keeps every balance equal to its posted entries if and only if no update that mattered was lost |
| LedgerLosses.ShortfallIsLost | lib/glPosting.js:583-595 | over every run, whatever statements fail, the tables stay well formed and an account falls short of its posted entries by exactly the nets lost on it |
| LedgerLosses.RunBalancesIff | lib/glPosting.js:567-595 | after any run of the six operations every balance equals its posted entries if and only if the nets lost on each account sum to zero |
| LedgerInvariant.LostUpdateBreaks | lib/glPosting.js:583-593 | one sale whose cash update is swallowed: well-formed tables, wrong balance |
| LedgerDrift.ChainsAcyclic | lib/glTransitions.js:366-367 | following reversal links never returns |
| LedgerDrift.EvenIsOddLength | lib/glTransitions.js:298-367 | reading the insertion order once finds which journals end a chain of odd length |
| LedgerDrift.LinkedDrift | lib/glTransitions.js:366-367 | linking a reversal takes its original's halala back |
| LedgerLosses.HealedRun | lib/glPosting.js:583-595 | losing updates changes nothing but balances: the run without its losses from repaired balances ends in the repaired tables |
| LedgerLosses.TrialBalance | lib/glPosting.js:494-503 | in every reachable state, updates lost or not, all balances and losses together sum to at most one halala per open chain of odd length, hence per posted journal |
| LedgerHistory.StepHistory | lib/glTransitions.js:161-391 | one operation moves a journal forward only, keeps its core columns and entries, and never deletes one past draft |
| LedgerHistory.RunHistory | lib/glTransitions.js:161-391 | the same over any run |
| LedgerHistory.PastDraftUndeletable | lib/glTransitions.js:60-64 | no run deletes an approved or posted journal |
| LedgerHistory.PostedImmutable | lib/glTransitions.js:60-64 | over every run a posted journal keeps its row but for the reversed-by link, and all its entries |
| LedgerHistory.OnlyDecisionsMove | lib/glTransitions.js:161-247 | only approve, post and approvePost move a status |
| LedgerHistory.MakerIsNotChecker | lib/glTransitions.js:124-138 | a draft with a named creator is approved or posted by a user of another username (or name, without one), an admin or a developer, whatever happens in between |
| LedgerHistory.EveryPostingGated | lib/glTransitions.js:80-122 | in every run, each step that makes a journal posted passes the period gate with the date its row then carries; only post and approvePost can force |
| LedgerHistory.PostedSomewhere | lib/glTransitions.js:80-122 | a journal posted at the end and not at the start was posted by one such step |
| LedgerHistory.ReversalCancels | lib/glTransitions.js:301-319 | after a reversal and any further run, original and reversal sum to zero in every account and dimension slice, if codes still resolve to the stored accounts |
| LedgerHistory.ReversedAtMostOnce | lib/glTransitions.js:298-298 | no run reverses a journal twice |
| LockOrder.Progress | lib/glPosting.js:567-577 | while a transaction is unfinished some transaction can step |
| LockOrder.SchedulesEnd | lib/glPosting.js:567-577 | every step uses up work, so every schedule is finite |
| LockOrder.AllTransactionsFinish | lib/glPosting.js:567-597 | any number of transactions in one lock order: a schedule that cannot go on has finished them all |
| LockOrder.OppositeOrdersDeadlock | lib/glTransitions.js:140-149 | two accounts sorted differently by posters and transitions deadlock |
| LockOrder.DeadlockFreeIffOrdersAgree | lib/glTransitions.js:140-149 | no schedule gets stuck if and only if the two sort orders agree on every pair |
| LockOrder.PosterShaped | lib/glPosting.js:583-587 | the locks of postJournal and reverse follow the lock order |
| LockOrder.TransitionShaped | lib/glTransitions.js:140-149 | the locks of post and approvePost follow the lock order |
| LockOrder.LedgerNeverStuck | lib/glTransitions.js:140-149 | any mix of the locks LedgerStore takes: no schedule gets stuck or runs for ever, and each extends to one that finishes all transactions |
| LedgerScripts.ScriptEffect | lib/glTransitions.js:161-379 | the statements of each operation, run alone in order, are the operation |
| LedgerSessions.Commute | db/connection.js:124-150 | statements on different journals may change places, balance updates always may |
| LedgerSessions.OthersFramed | lib/glTransitions.js:161-379 | committing one operation leaves every operation on other journals and numbers possible, with the same statements |
| LedgerSessions.StepKeeps | db/connection.js:124-150 | every begin, statement, commit and rollback keeps the committed operations a run and each choice of active sessions removable |
| LedgerSessions.Serializable | db/connection.js:124-150 | any sessions, any interleaving of their statements, commits and rollbacks: the committed operations in commit order are a run, and the tables without the statements of active sessions are those of that run but for insertion order across journals |
| SerialAllocator.StepSafe | lib/glPosting.js:313-330 | every interleaved statement, commit and rollback keeps returned serials increasing and above the seed |
| SerialAllocator.SerialsDistinct | lib/glPosting.js:308-337 | for any interleaving no serial is handed out twice and each exceeds all serials of the seed snapshot |
| SerialAllocator.SerialsAboveStart | lib/glPosting.js:317-322 | each exceeds every serial present when the run began, with racing first seeds |
| SerialAllocator.SerialsConsecutive | lib/glPosting.js:317-330 | for any interleaving with rollbacks the serials handed out follow each other without a gap, from one above the greatest of the seed |
| SerialAllocator.StuckIffDeadlocked | lib/glPosting.js:283-325 | active allocators cannot go on if and only if two or more hold the row shared after a refused INSERT IGNORE and all wait to update it, or two or more hold the gap a rolled-back seeder left and all wait to insert |
| SerialAllocator.VictimsUnblock | lib/glPosting.js:323-335 | rolling back all sharers but one lets that one update |
| SerialAllocator.GapVictimsUnblock | lib/glPosting.js:323-335 | rolling back all holders of the gap but one lets that one insert |
| SerialAllocator.SeedDeadlockHappens | lib/glPosting.js:283-288 | three allocators without a counter row end in that deadlock |
| SerialAllocator.GapDeadlockHappens | lib/glPosting.js:283-288 | two allocators that wait for a seeder which then rolls back end in the other one |
| JournalNumbers.DatedRoundTrip | lib/glPosting.js:318-321 | a day's seed query finds its numbers and reads back each serial, past the pad width too |
| JournalNumbers.FlatRoundTrip | lib/glPosting.js:364-394 | the same for both flat families |
| JournalNumbers.DatedSeedOfOtherDay | lib/glPosting.js:318-320 | a day's pattern matches a dated number exactly when it is that day's |
| JournalNumbers.NumbersInjective | lib/glPosting.js:385-394 | equal numbers have equal family, day and serial |
| JournalNumbers.SeedsKeepToTheirFamily | lib/glPosting.js:318-394 | no seed query reads a number of another family |
| JournalNumbers.AboveSeedIsUnused | lib/glPosting.js:317-323 | a serial above the seed gives a number no journal carries |
| JournalNumbers.SeedIsGreatest | lib/glPosting.js:317-322 | the seed is at least every serial of the day among the numbers and, unless 0, is read from one of them |
| JournalNumbers.FormatsAre | lib/glPosting.js:385-532 | the three formats and the lengths up to which they pad |
| JournalNumbers.NextIsUnused | lib/glPosting.js:262-269 | with counters above the numbers in use, a number from the counter or any later one is unused |
| JournalNumbers.CoversAdvance | lib/glPosting.js:323-330 | moving one day's counter on, with or without a journal of that number, keeps all counters above the numbers in use |
| OperationsQuery.BuildScope | lib/inventoryOperations.js:697-708 | the scope loop pushes one comparison with its parameters per restricted column |
| OperationsQuery.BuildWhere | lib/inventoryOperations.js:680-708 | conditions and parameters are pushed in step, one item per present filter |
| OperationsQuery.BuildUnion | lib/inventoryOperations.js:638-745 | the builder's loop yields the compiled branches, parameters, included types and reasons |
| OperationsMeaning.WhereMeansWanted | lib/inventoryOperations.js:680-708 | a branch's WHERE with its parameters holds on exactly the rows the filters want, stated on the columns of the record: the first ten characters of a DATETIME, the key where the number is missing or NULL and the source falls back |
| OperationsMeaning.ProjectShows | lib/inventoryOperations.js:711-722 | the selected columns show type and key as id, the number or its fallback, the day of a DATETIME, and the canonical and raw status |
| OperationsMeaning.CaseOfKnown | lib/inventoryOperations.js:596-601 | a raw status in the map shows its canonical one, any other shows draft |
| OperationsMeaning.CompiledMeansDirect | lib/inventoryOperations.js:638-745 | for all sources, filters, scopes and tables: as many parameters as placeholders, and the compiled branches bound left to right give exactly the wanted rows of the visible sources |
| OperationsText.TextReadsBack | lib/inventoryOperations.js:680-745 | the emitted text, where AND binds tighter than OR and only parentheses group, is read back as exactly the compiled branches |
| OperationsText.ComparisonSpelled | lib/inventoryOperations.js:683-694 | each comparison with a parameter is written as its expression, its operator and a placeholder |
| OperationsText.ExprSpelled | lib/inventoryOperations.js:588-595 | columns, DATE and COALESCE as they are written |
| OperationsText.FixedSpelled | lib/inventoryOperations.js:682-682 | the constant conditions as they are written |
| OperationsText.TextMeansDirect | lib/inventoryOperations.js:638-745 | the emitted text so read, with its parameters bound left to right, answers exactly the wanted rows of the visible sources |
| OperationsMeaning.ExcludedSource | lib/inventoryOperations.js:653-678 | a branch dropped for a filter could not have contributed a row; the other reasons are exactly invisibility |
| OperationsMeaning.ExclusionIs | lib/inventoryOperations.js:653-678 | each of the five reasons is given if and only if it is the first that is true |
| OperationsMeaning.EverySourceAccounted | lib/inventoryOperations.js:647-742 | every source is included or excluded once, and the excluded add no branch |
| OperationsMeaning.RawStatuses | lib/inventoryOperations.js:580-584 | the reverse lookup lists exactly the raw statuses that map into the wanted ones |
| OperationsMeaning.StatusFilterMeansProjected | lib/inventoryOperations.js:571-600 | raw filter and projected status agree if and only if the raw status is in the map or 'draft' is not wanted |
| OperationsMeaning.StatusFilterOnUnion | lib/inventoryOperations.js:668-675 | filtering by canonical status picks from the unfiltered union exactly the rows with a wanted projected status |
| Text.SubstringSearchIffPlain | lib/inventoryOperations.js:694-694 | the search is a substring search if and only if it has no %, _ or backslash |
| Text.LeIsUnitOrder | lib/glPosting.js:583-583 | the order of texts is that of their UTF-16 code units |
| Text.PadPlaces | lib/glPosting.js:532-532 | each place of a padded number is its decimal digit |
| OperationsPages.UnionIdsDistinct | lib/inventoryOperations.js:711-714 | the composite id is unique across branches though ids are not unique across tables |
| OperationsPages.TabCounts | lib/inventoryOperations.js:758-760 | counts taken without the type filter are the counts of the filtered list for each requested type |
| OperationsPages.CountsSumToTotal | lib/inventoryOperations.js:755-760 | per-type counts sum to the total |
| OperationsPages.SortedUnique | lib/inventoryOperations.js:748-754 | the id tiebreaker leaves one sorted arrangement |
| OperationsPages.PagesConcatenate | lib/inventoryOperations.js:748-754 | pages fetched one by one concatenate to the sorted union, no row twice, none missing |
| SqlLexer.PiecesRebuild | server.js:1258-1274 | the untrimmed pieces rejoined with ';' rebuild the text |
| SqlLexer.CutsExactlyAtTopLevel | server.js:1258-1272 | a ';' cuts exactly when the text before it leaves every quote and comment closed |
| SqlLexer.SameModesIff | db/migrate.js:108-119 | the two lexers agree on every prefix exactly when no backtick is escaped |
| SqlLexer.TrimThenDrop | db/migrate.js:94-122 | trimming before comments are dropped changes nothing after the final trim |
| SqlLexer.CleanIsStripped | db/migrate.js:93-132 | dropping comments while splitting or piece by piece afterwards is the same |
| SqlStretches.QuotedAppended | server.js:1260-1269 | for each of the three quote marks and both lexers: a quoted string, escapes included, is cut nowhere and kept whole, and the text is outside again after it |
| SqlStretches.CommentAppended | db/migrate.js:93-106 | from two dashes to the newline, and from slash-star to the first star-slash, nothing cuts and nothing but the newline is kept |
| SqlStretches.OrdinaryAppended | server.js:1270-1272 | any other character opens nothing and cuts nothing, and a semicolon there cuts |
| SqlStretches.TrimIs | server.js:1270-1273 | trimming drops exactly the white space and line terminators of ECMAScript at both ends |
| SqlStretches.QuotedStatement | db/migrate.js:107-119 | a text that is one quoted string is one statement for both splitters |
| SqlSplitters.SplitSqlStatements | server.js:1253-1275 | the five-flag loop returns the trimmed top-level pieces |
| SqlSplitters.SplitStatements | db/migrate.js:88-133 | the nested loops return the comment-free trimmed non-empty pieces |
| SqlSplitters.SkipBlock | db/migrate.js:100-106 | a block comment is skipped whole, unterminated ones to the end |
| SqlSplitters.CopyQuoted | db/migrate.js:107-119 | a quoted string is copied verbatim with its escapes |
| SplitterAgreement.SplittersAgree | server.js:1253-1275 | on every text without an escaped backtick the server's pieces, cleaned, are the migrator's, unterminated quotes and comments included |
| SplitterAgreement.NoBackslashInTicks | db/migrate.js:107-119 | no backslash inside backticks is enough for that |
| SplitterAgreement.EscapedTickDiffers | db/migrate.js:108-114 | a concrete text the two splitters cut differently |
| SplitterAgreement.ServerRoundTrip | server.js:1253-1275 | whole trimmed statements joined with ';' split back into themselves |
| SplitterAgreement.MigrateRoundTrip | db/migrate.js:88-133 | the same for statements without comments |
| SplitterAgreement.ServerLossless | server.js:1258-1274 | nothing of the text is lost but the trimmed white space |
| StableJson.PrintUnique | lib/idempotencyStore.js:30-34 | a printed value is read back in one way only |
| StableJson.SamePrint | lib/idempotencyStore.js:30-34 | values equal up to key order print the same |
| StableJson.StableStringifyCanonical | lib/idempotencyStore.js:30-34 | two values print the same text if and only if they are equal up to key order |
| StableJson.ObjectPrints | lib/idempotencyStore.js:33-33 | an object prints its members joined with commas in ascending key order, each key once |
| StableJson.ArrayPrints | lib/idempotencyStore.js:32-32 | an array prints its items joined with commas |
| StableJson.ScalarPrints | lib/idempotencyStore.js:31-31 | null, booleans, numbers and strings print as JSON literals |
| StableJson.EscapeReadsBack | lib/idempotencyStore.js:31-31 | a reader by section 7 of RFC 8259 reads every escaped character back, and no escape is longer than JSON.stringify's |
| Idempotency.ReservationUniqueIff | lib/idempotencyStore.js:41-43 | no other request with a key has the same id text if and only if scope, document and user hold no bar and the key none before its last character |
| Idempotency.TextUniqueIff | lib/idempotencyStore.js:41-43 | empty keys included, the id text is unique if and only if none of the four parts holds a bar |
| Idempotency.BarsCollide | lib/idempotencyStore.js:41-43 | a bar in the document id, and one inside a client's key, each make two different requests share an id |
| Idempotency.MismatchMeansDifferentPayload | lib/idempotencyStore.js:36-68 | with a collision-free digest the mismatch branch is taken if and only if the bodies differ beyond key order, where a missing body, null, false, 0 and the empty text count as the empty object and as nothing else |
| Idempotency.SecondBegin | lib/idempotencyStore.js:50-81 | after a begin and a complete under one id, a second begin with the same payload replays the stored answer and one with any other payload is a conflict; before the complete both are |
| Idempotency.FreePasses | lib/idempotencyStore.js:50-73 | a request goes through unless its key has a readable row, and a payload without a hash is never refused for it |
| Idempotency.ReservationStore.Begin | lib/idempotencyStore.js:50-75 | every answer of begin, with the row it takes and the errors it lets through |
| Idempotency.ReservationStore.Complete | lib/idempotencyStore.js:77-81 | stores the answer in an existing row, or nothing when the update fails |
| Idempotency.ReservationStore.Abort | lib/idempotencyStore.js:83-88 | deletes only a reservation in progress |
| Idempotency.ReservationStore.Sweep | lib/idempotencyRetention.js:36-44 | deletes exactly the completed rows past the horizon and never one in progress |
| IdempotencyProtocol.StepKeepsIffFound | lib/idempotencyStore.js:50-88 | a step keeps exclusion, sound rows and sound replays if and only if it is no lookup that misses its row |
| IdempotencyProtocol.RobustIffNoMiss | lib/idempotencyStore.js:61-67 | every state of a run is safe for all continuations if and only if no lookup of the run missed its row |
| IdempotencyProtocol.UnsplitNeverMisses | lib/idempotencyStore.js:83-88 | without a delete between a refused insert and its lookup no lookup misses |
| IdempotencyProtocol.MutualExclusion | lib/idempotencyStore.js:50-88 | from the start a run is safe with all its continuations if and only if no lookup misses; then at most one request per id executes and every replay is a stored answer of that id and payload |
| IdempotencyProtocol.CompletedIsNotExecutedAgain | lib/idempotencyStore.js:63-73 | until swept, a completed reservation stands, nobody executes under it and every answer is its replay or a conflict |
| IdempotencyProtocol.AbortedCanBeRetried | lib/idempotencyStore.js:83-88 | after an abort the next insert executes |
| IdempotencyProtocol.BeginIsInsertThenLookup | lib/idempotencyStore.js:54-73 | the answer and row change that ReservationStore.Begin promises are those of the insert step and, after a refusal, the lookup step |
| IdempotencyProtocol.SplitBreaksExclusion | lib/idempotencyStore.js:61-67 | a concrete interleaving with two executions at once |
| CsvWriters.NoFormula | lib/csvExport.js:20-26 | an apostrophe is put before exactly the cells that start with = + @ tab CR, or with a '-' that begins no decimal number, and no cell that is read back is one of those |
| CsvWriters.QuotedIff | lib/csvExport.js:28-31 | a cell is quoted if and only if it holds a quote, a comma, LF or CR |
| CsvWriters.FileShapes | lib/csvExport.js:38-49 | byte order mark, CR LF at the end, and a refusal above fifty thousand rows, in both writers |
| CsvWriters.CellsAgree | lib/csvContract.js:47-58 | both writers print a cell alike |
| CsvWriters.ToCsv | lib/csvExport.js:38-49 | the line loop yields header and rows joined by CRLF, or the limit error |
| CsvWriters.ReadRecords | lib/csvExport.js:28-36 | a reader by RFC 4180 section 2 recovers every record of a file |
| CsvWriters.ExportRoundTrip | lib/csvExport.js:38-49 | what the export writer printed reads back cell for cell after the apostrophe rule |
| CsvWriters.ExportRoundTripExact | lib/csvExport.js:38-49 | nothing else changes if and only if the header and every row have a cell |
| CsvWriters.ContractRoundTrip | lib/csvContract.js:77-84 | the contract writer's file reads back exactly if and only if there is a column and a row |
| CsvWriters.WritersAgree | lib/csvContract.js:77-84 | the two writers print the same if and only if there is a row; both refuse above the cap |
| CsvWriters.CompleteOrRefused | lib/csvContract.js:77-84 | for any limit the file has all rows or is refused with its true size |
| ImageHash.ComputeDHash | lib/imageHash.js:56-69 | sixteen lower-case hex digits; digit h of row r packs that row's four neighbour comparisons, the leftmost highest |
| ImageHash.HammingDistanceHex | lib/imageHash.js:90-98 | the number of differing bits, infinite for empty or unequal lengths |
| ImageHash.HexValIs | lib/imageHash.js:94-94 | hex digits in both cases have their values and anything else counts as 0 |
| ImageHash.XorOnes | lib/imageHash.js:94-95 | counting ones of the exclusive or counts differing bits |
| ImageHash.DistanceIsMetric | lib/imageHash.js:90-98 | on hashes of one length the distance is a metric |
| ImageHash.DistanceOfPictures | lib/imageHash.js:56-98 | the distance of two hashes counts the comparisons on which the pictures disagree |
| ImageQueue.StepKeeps | lib/image-sourcing-worker.js:121-217 | every statement of any worker, failing ones and abandoned batches included, keeps claims disjoint and counters in step with rows |
| ImageQueue.ClaimIs | lib/image-sourcing-worker.js:124-137 | a claim takes at most ten rows, all pending and due, and changes nothing but their status |
| ImageQueue.CountersAtRest | lib/image-sourcing-worker.js:121-217 | any workers, any interleaving, any failing statements: at rest processed = done + failed rows + counts made again - counts lost; when these cancel and no look at the job failed, it is done if and only if it has rows and all have ended; pending rows have at most four attempts and only abandoned batches leave rows running |
| ImageQueue.QuietRunIsClean | lib/image-sourcing-worker.js:161-204 | when no statement after a finish fails there is nothing to cancel |
| ImageQueue.CountedButPending | lib/image-sourcing-worker.js:165-204 | one failed look at the job after a count: the row is pending again and already counted |
| ImageWorker.FoundKeepsSpaced | lib/image-sourcing-worker.js:270-288 | a stored candidate is more than ten bits from the others of its menu item, and never comes from a dry run |
| ImageWorker.JudgeIs | lib/image-sourcing-worker.js:219-311 | a row is retried if and only if its image cannot be fetched, is dangerous or is new and does not decode; matched if and only if a decoded image is new and more than ten bits from every candidate of its menu item; and then stored unless the job is a dry run |
| ImageWorker.FinishedIs | lib/image-sourcing-worker.js:191-217 | a finished row is done; its job has one more processed, one more matched and queued for a match, and is done when all are processed |
| ImageWorker.RetriedIs | lib/image-sourcing-worker.js:157-185 | below five attempts a row is pending again with one more; the fifth fails it and counts it |
| CandidateRace.RunApartIffClear | lib/image-sourcing-worker.js:270-309 | any workers, any interleaving of reads and inserts: candidates stay more than ten bits apart if and only if no near one came in between a worker's read and its insert; equal bytes are never stored twice |
| CandidateRace.UndisturbedWorkersSpace | lib/image-sourcing-worker.js:270-309 | with no insert for the same menu item between a worker's read and its insert all candidates are spaced |
| CandidateRace.RaceStoresNearDuplicates | lib/image-sourcing-worker.js:282-309 | two encodings of one photo, two workers that read before either inserts: both are stored |
| ImageWorker.Worker.ProcessOne | lib/image-sourcing-worker.js:219-312 | the row's verdict decides the throw, the candidate stored and the counters, whatever earlier failing statements left in them |
| ImageWorker.Worker.IsNearDupe | lib/image-sourcing-worker.js:284-288 | true exactly when a stored candidate of the menu item is within ten bits |
| ImageWorker.Worker.ProcessBatch | lib/image-sourcing-worker.js:121-185 | each claimed row in turn gets its verdict or its retry; none of them stays running, rows of abandoned batches are left alone, spacing holds and the counters keep their distance from the rows |
| ArabicPhrases.ReplacePhrases | lib/inventory-ar-dictionary.js:529-541 | the two loops yield the phrases found and the working text |
| ArabicPhrases.PhrasesFound | lib/inventory-ar-dictionary.js:529-541 | no phrase of the table is left in that text, and its slots stand for exactly the words they replaced |
| ArabicPhrases.FewerWords | lib/inventory-ar-dictionary.js:534-541 | every replacement leaves fewer words outside slots |
| ArabicNames.SpellIs | lib/inventory-ar-dictionary.js:564-586 | a word with a digit in it, or a unit in any case, is left as it is; any other is translated if and only if the dictionary has its letters |
| ArabicNames.CleanIs | lib/inventory-ar-dictionary.js:571-571 | of a word exactly the letters a to z are looked up, in their order |
| ArabicPhrases.LowerIs | lib/inventory-ar-dictionary.js:528-528 | lower case changes only the ASCII capitals |
| ArabicNames.Translate | lib/inventory-ar-dictionary.js:543-612 | the result is the token-wise translation, with a trailing head noun moved to the first translation if and only if one exists and no coordinator follows the first |
| ArabicNames.ArrangedKeepsCodes | lib/inventory-ar-dictionary.js:597-612 | with or without the move no piece is added or lost and the untranslated ones keep text and order |
| ArabicNames.ToArabic | lib/inventory-ar-dictionary.js:524-612 | on every phrase table the whole name comes out as the translation of the found phrases and words, with at most that one move |
| ArabicCasing.KeptAtIff | lib/inventory-ar-dictionary.js:564-573 | a word keeps its casing if and only if the counter points at an equal token, or at none of its letters while the word is in lower case anyway |
| ArabicNames.PhraseLenIs | lib/inventory-ar-dictionary.js:558-559 | the counter advances by the words of the first phrase with the translation, by one when none has it |
| ArabicCasing.CodeAfterPhrase | lib/inventory-ar-dictionary.js:564-573 | a code after a phrase keeps its casing if and only if the first phrase of equal translation has as many words |
| ArabicCasing.CasingIffLengthsAgree | lib/inventory-ar-dictionary.js:529-573 | every name keeps the casing of what is not translated if and only if, for each phrase that can be found, the first phrase of equal translation has as many words |
| ArabicCasing.TakeawayLosesCasing | lib/inventory-ar-dictionary.js:52-53 | the table's own 'take away' and 'takeaway' break that condition: in Takeaway A-31 the code comes out as a-31 |

## Left out

- LedgerStore.Connection.PostJournal: pool mode; in connection mode a non-deadlock error may return after partial writes, which only callers that throw make atomic, as the modelled reverse does.
- LedgerStore.Connection.Commit: a failed commit is taken as not applied; a lost acknowledgement of an applied commit is not modelled.
- LedgerHistory.ReversalCancels: account codes are given by the context of the call, so a code that moved to another account is excluded by its premise.
- LedgerLosses.TrialBalance: whether a difference of one halala passes is decided by binary doubles in the code; the model lets the context decide it.
- LockOrder.AllTransactionsFinish: one posted journal per transaction; draft posts, the shared locks of the entry inserts taken after the exclusive ones, and the counter row, which is locked and released by its own transaction, are not threads here.
- SerialAllocator.SerialsDistinct: one counter key; keys do not interact.
- LedgerStore.Connection.Transition: nothing else commits on the same tables during one call; LedgerSessions has the interleavings.
- LedgerSessions.Serializable: every session claims the rows and unique keys of its operation with its first statement, and a wait is a later begin; operations that answer without writing, failing statements inside a session (a rollback stands for those that end it, the lost set of the operation for swallowed ones), periods, the account chart and other non-locking reads that change between sessions are outside.
- JournalNumbers.DatedRoundTrip: serials are unbounded, column widths and unsigned overflow are not modelled.
- OperationsText.TextMeansDirect: the text is its list of tokens, and the column list of a branch with its FROM is one token; white space, identifier and literal guards, the plainly copied columns, aggregates and collation (comparison and LIKE are exact here) are outside.
- OperationsPages.PagesConcatenate: the table contents stand still between pages.
- SplitterAgreement.SplittersAgree: one way; the converse is false, since texts with an escaped backtick can still be cut alike, and SameModesIff gives the exact condition for the lexers.
- StableJson.StableStringifyCanonical: number texts are taken as JSON.stringify prints them and lone surrogates as ordinary characters.
- Idempotency.MismatchMeansDifferentPayload: sha1 and sha256 are functions assumed free of collisions where a statement says so.
- IdempotencyProtocol.MutualExclusion: inserts fail with duplicate keys only; any other insert or lookup error lets the request through without a row, as Begin states.
- ImageQueue.CountersAtRest: the non-locking fallback claim for old servers is not modelled, and an error after a statement took effect counts as that statement done and the next one failed.
- ImageWorker.Worker.ProcessBatch: status, counter and insert statements do not fail here, fetches and decodes do; ImageQueue has the failing ones.
- ImageWorker.FoundKeepsSpaced: one worker; CandidateRace has the condition for several.
- ArabicNames.ToArabic: names are token lists with ASCII case folding; the tables are parameters, and only the PHRASES entries that share a translation with one of another length are written out; runs of white space that keep a phrase from matching, the final join, and input tokens that look like slots are outside.
- Double arithmetic: money is whole halalas, as round2 leaves it; DECIMAL overflow is not modelled.
- LedgerRules.ReversedEntries: entries stand in insertion order; the generated ids that ORDER BY id sorts them by are not modelled.
- Description texts, account names, seeded core accounts and fallbacks for missing columns in the ledger.
- User roles arrive in lower case; capability lookups, the audit table's own failures outside a transaction and the audit hash chain.
- reverse on a caller's connection, lib/hrGLPosting.js and lib/docNumber.js.
- canonicalStatus in JavaScript (lower-cases its input) and parseOperationsQuery, whose clamping and allow-listing one branch each settles.
- The third naive splitter in db/init.js.
- HTTP handling, image decoding and fetching, timers, pools, metrics, logging and messages.
