# Proofs about Pavillion's hard cores

Pavillion is a federated event calendar. This project models the parts of it whose
correctness needs an argument, and proves what each of them is for.

* **The raw-SQL checker** (`RawSqlSyntax`, `RawSqlChecker`, `RawSqlSemantics`,
  `RawSqlFuel`, `RawSqlSoundness`, `RawSqlBoundary`). The checker is a syntactic rule with a semantic
  claim: an accepted SQL argument is constant text. The rule is modelled on a syntax
  tree, as it is written: walks that push into lists and set flags. Beside it stands an
  interpreter for the programs it reads, with lexical scopes, `var` hoisting, temporal
  dead zones, closures over mutable cells, early returns and exceptions. Everything the
  file does not define is answered by an outside world, by a value or by throwing, and
  the world may call the file's functions back at any such moment. In syntax that the
  rule never looks into, such as loops, `switch`, `try`, `&&` and computed keys, the
  world decides which operands run, how often, what is caught and what comes out. Every
  call is logged, and soundness is a statement about the log of every run, for every
  world. A bound on the depth of evaluation keeps the interpreter total; it loses
  nothing, because more of it only lengthens the log (`RawSqlFuel`).
* **The manifest walk** (`ManifestWalk`): the visited-set search that collects style
  sheets, over graphs with cycles and dangling imports, against a search that keeps no
  visited set.
* **Three client protocols**, as interleavings of steps: the queue of requests refused
  with a 401 (`SessionQueue`), the shared funding cache (`FundingAccess`) and the paged
  inbox (`NotificationPaging`). Each is a class whose methods are the code between two
  suspensions, tied to one transition function; the results are about all runs of it.
* **Four data migrations**, as transformers of tables: 0025 and 0029
  (`InstanceDedup`), 0011 (`PerCalendarMigration`) and 0037 (`EmailMigration`).
* **Three parsers with their printers**: Accept-Language (`AcceptLanguage`, RFC 7231
  sections 5.3.5 and 5.3.1), locale prefixes of paths (`LocaleUrl`) and `i18n:` tokens
  (`TokenGrammar`).
* **Two arrays that may be one** (`LocationLists`): the location composable's list and
  the location store's, on the heap.
* **Category reconciliation** (`CategoryAssignment`): two loops of single calls, any of
  which may fail.

`Text` holds the string operations these share, `Sequences` what several modules say
about sequences, and `Wrappers` the option type.

## Where the code and its promise differ

* `resolveIdentifierInit` looks only at variable declarations and parameters, so a name
  that is declared once and also imported (`scripts/check-raw-sql.ts:129-131` says that
  an import fails closed) is accepted outside the scope of the declaration too; and an
  object is accepted by its first `text` key although a later spread, computed key,
  accessor or method may set `text` again. `ImportIsNotCovered` and
  `LaterPropertyIsNotCovered` give files that the checker passes and whose runs hand the
  sink any text the world likes. The condition `InFragment`, which can be read off the
  file, shuts out both: an imported or global name is used only where the file's own
  declaration is in scope, and nothing after the first `text` can overwrite it. Whether
  a use outside the fragment is ever reached is not decidable, so no condition that can
  be checked is also necessary; but `UseOutOfScopeTakesAnyText` shows that wherever such
  a use is evaluated out of scope, the world can hand it any text.
* `drainPendingRequests` clears `sessionExpired` without looking at the queue
  (`src/client/service/authn.ts:114`). `ArrivalDuringDrainIsUncovered` is a run in which
  a request then waits with the modal closed; `FlagCoversQueueIff` says exactly which
  runs are free of this.
* The funding store is reset at logout so that one session's answers do not describe the
  next (`src/client/stores/fundingStore.ts:98-100`). A load that is out at that moment
  is still cached when it is answered, and the next session joins it; a request that is
  out and is refused then denies the feature to the next session.
  `FreshAfterResetIff` has the exact condition, over both kinds of request;
  `NextSessionJoinsOldRequest` and `OldRefusalDeniesNextSession` are the failing runs.
* The inbox pages by the length of the list it holds, and the route that answers caps
  the offset at 10000 (`src/server/notifications/api/v1/notification.ts:13` and
  `:85-91`). From 10050 active rows on, a page repeats the rows of the one before it and
  paging never ends: `StaysInStepIff`, `CompletesIff` and `PageRepeats`.
* An alternate link need not be answered in its own language: a forced language wins, and
  a language that the administrator has not enabled is passed over, although its link is
  offered. The page's meta tags are in the link's language all the same. `LinkLanguageIff`
  and `AlternateLinkForEveryoneIff` say when the language is kept, and
  `ForcedLanguageAnswersOtherLinks` is an instance where it is not.
* Migration 0011 inserts the copies of a grant while the index of migration 0002, one
  active grant per account, is still in force: it is dropped only at step 4. And on
  PostgreSQL, step 5 makes `calendar_id` mandatory while grants revoked earlier, or by
  step 3, have none. `up` gets through exactly when the index is gone or no unassigned
  active grant's account owns a second calendar, and, on PostgreSQL, every grant has a
  calendar or is active and gets one. That is the contract of `Database.Up`;
  `OldIndexStopsUp` and `RevokedGrantStopsUp` are databases on which it fails. What a
  completed run leaves is proved for every table.
* `LOWER(TRIM(email))` removes spaces, `normalizeEmail` all white space.
  `NormalFormsAgreeIff` says for which addresses the two agree, where case is that of the
  letters A to Z; `TabIsKept` is one for which they do not.
* Section 5.3.1 of RFC 7231 lets a quality end in its point, but `0.` matches no number
  here (`src/common/i18n/accept-language.ts:59`) and counts as 1: a language that the
  visitor refuses comes first. `QvalueIsReadIff` says that this is the only quality of the
  grammar that is misread.
* Assigning to the key `__proto__` of a plain object stores nothing, so that one
  parameter does not survive a round trip: `TokenRoundTrip` says so in both directions,
  and `ProtoIsLost` is an instance.
* `addLocation` pushes without looking. When a fetch that lists a new place is answered
  before the creation is, the shared list ends with the place twice; the contract of
  `CreateLocation` has the exact condition and `FetchOvertakesCreation` is the run.

Automatic induction is off in every lemma, so each proof shows its own recursion.

## Model

| member | source | states |
|---|---|---|
| RawSqlSyntax.PreorderIsReachability | scripts/check-raw-sql.ts:150-184 | a walk that visits a node and then its children meets exactly the nodes at some path below the root, at any depth |
| RawSqlChecker.BindingScan.Visit | scripts/check-raw-sql.ts:147-184 | the recursive scan has pushed every declaration of the name and raised its flag exactly if a parameter or a write of the name occurs |
| RawSqlChecker.ResolveIdentifierInit | scripts/check-raw-sql.ts:142-190 | the initializer of the one declaration, or nothing when there are more or fewer, or the name is shadowed or written |
| RawSqlChecker.ReboundIff | scripts/check-raw-sql.ts:158-181 | the flag means that some node is a parameter of that name, an assignment to it, or a `++` or `--` on it |
| RawSqlChecker.CollectSequelizeSinkNames | scripts/check-raw-sql.ts:275-294 | the two loops build the map of the file's top-level `sequelize` imports, later specifiers overwriting earlier ones |
| RawSqlChecker.SinkNamesAreTheImportedOnes | scripts/check-raw-sql.ts:268-294 | a bare name is a sink if and only if a specifier binds it to `literal` or `query`, of the kind that the last such specifier says |
| RawSqlChecker.LineSuppressesIffReason | scripts/check-raw-sql.ts:296-315 | a line suppresses if and only if some comment on it gives a reason that is not blank: looking at the leftmost match only loses nothing |
| RawSqlChecker.BlankReasonIsLast | scripts/check-raw-sql.ts:296-312 | after a marker with a blank reason no further marker can start on the line |
| RawSqlChecker.SuppressedIff | scripts/check-raw-sql.ts:303-315 | a call is excused if and only if its own line or the line above has a position that gives a reason |
| RawSqlChecker.SinkCallIff | scripts/check-raw-sql.ts:268-294 | a call is a sink of a kind if and only if it calls a method of that name, on any receiver, or a bare name whose last `sequelize` specifier imports it |
| RawSqlChecker.StaticIff | scripts/check-raw-sql.ts:192-204 | the argument is a static concatenation if and only if every node of its tree is a string or a `+` of two operands, however long the chain |
| RawSqlChecker.NameIsAcceptedIff | scripts/check-raw-sql.ts:142-190 | a name is accepted if and only if the file has one declaration of it, at any depth, initialised with static text, and nothing rebinds it |
| RawSqlChecker.ObjectIsAcceptedIff | scripts/check-raw-sql.ts:217-264 | an object is accepted by a query sink if and only if it has a first `text` property and the value of that one is accepted |
| RawSqlChecker.AcceptedIff | scripts/check-raw-sql.ts:193-264 | what each kind of sink accepts |
| RawSqlChecker.ReportedIff | scripts/check-raw-sql.ts:333-374 | a call is reported if and only if it is a sink, its first argument is unsafe, and neither its own line nor the line above gives a reason |
| RawSqlChecker.OtherLinesHaveNoSay | scripts/check-raw-sql.ts:303-315 | two texts that agree on these two lines give the call one verdict |
| RawSqlChecker.ReportsInOrder | scripts/check-raw-sql.ts:333-376 | one more node adds the one report it deserves, at the end: reports come in preorder, one a call |
| RawSqlChecker.Detector.Record | scripts/check-raw-sql.ts:333-355 | one violation is pushed exactly when the call has a first argument, it is unsafe for this kind of sink, and its own line and the line above give no reason |
| RawSqlChecker.Detector.Visit | scripts/check-raw-sql.ts:357-376 | the violations of a subtree are appended in preorder, each call once |
| RawSqlChecker.DetectSource | scripts/check-raw-sql.ts:321-380 | the report is exactly the list, in preorder, of the sink calls with an unsafe first argument and no reason |
| RawSqlChecker.CleanReportIff | scripts/check-raw-sql.ts:333-380 | the report is empty if and only if every sink call with an argument, at any depth, is accepted or has a reason on its own line or the line above |
| RawSqlChecker.BareCallsNeedAnImport | scripts/check-raw-sql.ts:268-274 | a bare call whose name no `sequelize` import binds to a sink is never a violation |
| RawSqlSoundness.ResolutionIsUnique | scripts/check-raw-sql.ts:125-141 | when a name resolves to static text, every declaration of it in the file is the resolved one |
| RawSqlSoundness.SitesAreClosed | scripts/check-raw-sql.ts:125-141 | which declarations are in scope where: a node's children stand in its scope, extended by what the node binds |
| RawSqlSoundness.FactsAreValid | scripts/check-raw-sql.ts:125-190 | a name that resolves to static text is never a parameter and never written, and each of its declarations initialises it with that text |
| RawSqlSoundness.EvalKeeps | scripts/check-raw-sql.ts:192-204 | every evaluation, in an environment that binds the names in scope, keeps the invariant that cells of fixed names hold their text, and gives every static concatenation, primitive, resolved name and object whose first `text` nothing overwrites the value it spells |
| RawSqlSoundness.WriteKeeps | scripts/check-raw-sql.ts:165-181 | assignments, compound assignments, `++` and `--` keep the invariant, because they never target a fixed name |
| RawSqlSoundness.ApplyKeeps | scripts/check-raw-sql.ts:158-164 | calls keep the invariant, whatever arguments arrive, because no parameter has a fixed name |
| RawSqlSoundness.SteerKeeps | scripts/check-raw-sql.ts:206-215 | so does syntax the rule does not look into, whichever operands the world runs, however often, and whatever it absorbs |
| RawSqlSoundness.EvalObjectKeeps | scripts/check-raw-sql.ts:238-264 | an object's `text` is the value of its first `text` property when no later property can set it, whatever spreads, computed keys and accessors stand before |
| RawSqlSoundness.ConsultKeeps | scripts/check-raw-sql.ts:206-215 | so does the outside world, whatever it answers or throws and whichever functions it calls back |
| RawSqlSoundness.EveryEventIsOk | scripts/check-raw-sql.ts:206-247 | in every run, every logged call has arguments that agree with what the file spells |
| RawSqlSoundness.AcceptedSqlIsConstant | scripts/check-raw-sql.ts:206-247 | soundness: in every run, for every world, an accepted sink call receives the one text or primitive that the file fixes; only a name that a `var` declares may still read as `undefined`, before its initializer has run |
| RawSqlSoundness.CleanFileSqlDoesNotDependOnTheWorld | scripts/check-raw-sql.ts:320-380 | after a clean report, two runs in any two worlds never give two different texts to a sink call with no reason on its line or the line above |
| RawSqlBoundary.ImportIsNotCovered | scripts/check-raw-sql.ts:129-131 | counterexample: a file that imports a name and declares it in a function is passed, and its run hands the call outside that function whatever text the import holds |
| RawSqlBoundary.UseOutOfScopeTakesAnyText | scripts/check-raw-sql.ts:129-131 | the same of every method call with such a name as its one argument, at any point of any run: where the name is not in scope, the world can hand the call any text |
| RawSqlBoundary.LaterPropertyIsNotCovered | scripts/check-raw-sql.ts:238-264 | counterexample: a file that queries with a `text` key and then a spread, a computed key, an accessor or a method is passed, and its run hands the call the later text |
| ManifestWalk.CssWalk.Visit | src/server/app_routes.ts:65-82 | the closure terminates on every graph and grows `visited` in walk order, with `css` the style sheets of the entered chunks, each once, in order |
| ManifestWalk.CollectEntryCSS | src/server/app_routes.ts:61-86 | the returned array is that list for a walk from the entry |
| ManifestWalk.WalkRefinesSearch | src/server/app_routes.ts:65-82 | the walk enters what a plain preorder search without a visited set meets, each chunk where it is met first, and leaves no import of a finished chunk unentered |
| ManifestWalk.CssInSearchOrder | src/server/app_routes.ts:61-86 | the style sheets come without repetition, in the order the plain search first meets them |
| ManifestWalk.WalkEntersReachable | src/server/app_routes.ts:49-86 | a key is entered if and only if a chain of imports leads to it from the entry |
| ManifestWalk.CollectedIffReachable | src/server/app_routes.ts:49-86 | a style sheet is collected if and only if a reachable chunk lists it |
| SessionQueue.AuthenticationService.OnResponseError | src/client/service/authn.ts:74-91 | a refusal is queued, raising the flag, or passed on: marked replays, other statuses and authentication endpoints are passed on |
| SessionQueue.AuthenticationService.DrainPendingRequests | src/client/service/authn.ts:101-104 | a drain takes the whole queue in one step, and with nothing queued only clears the flag |
| SessionQueue.AuthenticationService.ResumeDrain | src/client/service/authn.ts:103-115 | each answer settles the next request of the drain's batch, resolved if the replay succeeded and rejected if not, and the last one clears the flag; a refused replay is not queued again |
| SessionQueue.AuthenticationService.AbortPendingRequests | src/client/service/authn.ts:122-128 | every waiting request is rejected, in order, and the flag cleared |
| SessionQueue.QueueReceivesArrivals | src/client/service/authn.ts:71-91 | what has ever been queued is exactly the 401s outside `/api/auth/`, in order, never a replay |
| SessionQueue.EveryRequestIsAccountedFor | src/client/service/authn.ts:74-128 | in every interleaving, arrivals are the waiting, the held and the settled requests together, counted with multiplicity |
| SessionQueue.SettledAtMostOnce | src/client/service/authn.ts:74-128 | a request refused once is settled at most once, and not while it still waits or is held |
| SessionQueue.QuiescentRunSettlesAll | src/client/service/authn.ts:94-128 | with the queue empty and every drain finished, each arrival has been settled as often as it arrived |
| SessionQueue.DrainsAreFifo | src/client/service/authn.ts:94-113 | each of the overlapping drains settles a consecutive run of the arrivals, in the order they came |
| SessionQueue.PromisesFollowReplays | src/client/service/authn.ts:103-127 | in every run, the promises a drain has settled are resolved and rejected as its replays succeeded and failed, in order, and a promise that no drain settled is rejected |
| SessionQueue.ModalIsOpenIff | src/client/service/authn.ts:87-128 | in every run, the flag is up if and only if nothing has cleared it since a request was queued: no abort, no end of a drain, no drain of an empty queue |
| SessionQueue.FlagCoversQueueIff | src/client/service/authn.ts:87-128 | the flag is up whenever requests wait, throughout a run, if and only if no drain finishes while requests wait |
| SessionQueue.ArrivalDuringDrainIsUncovered | src/client/service/authn.ts:101-115 | counterexample: a request refused during a drain is left waiting with the flag cleared |
| FundingAccess.FundingClient.ReadAccess | src/client/composables/useFundingAccess.ts:102-108 | granted exactly for a feature cached as true, denied exactly for one cached as false, unknown without an entry or a decision |
| FundingAccess.FundingClient.SetSummary | src/client/stores/fundingStore.ts:146-151 | a summary replaces the calendar's whole entry |
| FundingAccess.FundingClient.DenyFeature | src/client/stores/fundingStore.ts:164-175 | a refusal moves one feature and no status, creating the entry if there is none |
| FundingAccess.FundingClient.Load | src/client/composables/useFundingAccess.ts:145-173 | a load joins the one in flight or sends a request |
| FundingAccess.FundingClient.EnsureLoadedFor | src/client/composables/useFundingAccess.ts:183-188 | a calendar whose status is cached is not loaded again |
| FundingAccess.FundingClient.OnAnswer | src/client/service/funding.ts:608-612 | a successful answer is cached before the load settles, a failed one changes no entry |
| FundingAccess.FundingClient.OnSettled | src/client/composables/useFundingAccess.ts:145-157 | the load is unregistered once its answer has been handled |
| FundingAccess.FundingClient.ResetStore | src/client/stores/fundingStore.ts:98-105 | the cache is emptied; the loads in flight stay |
| FundingAccess.FundingClient.OnGatedAnswer | src/client/composables/useFundingAccess.ts:202-220 | a request that a gate may refuse is answered: its calendar is denied the feature exactly for a funding denial |
| FundingAccess.FundingClient.RecordAccessDenial | src/client/composables/useFundingAccess.ts:212-220 | true, with the refusal cached, exactly for a funding denial of a registered feature |
| FundingAccess.HistoryIsWhatWasHeard | src/client/composables/useFundingAccess.ts:137-220 | a run's history is what its steps heard from the server: the summaries of successful reads, the funding refusals, and resets; failures and joins add nothing |
| FundingAccess.AccessIsTheLastEvidence | src/client/composables/useFundingAccess.ts:96-220 | in every interleaving, gate answer and status are the fold of what was heard from the server: the last summary or refusal wins, refusals leave the status, failures change nothing |
| FundingAccess.GateAnswerIff | src/client/composables/useFundingAccess.ts:96-135 | in every interleaving, a gate is granted if and only if the last summary, refusal or reset heard that bears on it is a summary that allows the feature, and denied if and only if that is a summary or a refusal that does not |
| FundingAccess.StatusIff | src/client/stores/fundingStore.ts:121-123 | a status is displayed if and only if the last summary of the calendar, with no reset after it, states it |
| FundingAccess.DeniedNeedsEvidence | src/client/composables/useFundingAccess.ts:96-135 | a gate reads as denied only if a summary or a refusal said so |
| FundingAccess.OneRequestStep | src/client/composables/useFundingAccess.ts:145-173 | each step keeps unanswered requests in one-to-one correspondence with the loads that wait |
| FundingAccess.AtMostOneRequest | src/client/composables/useFundingAccess.ts:159-198 | so does every run: at most one request per calendar is out, and a joined load has one to wait for |
| FundingAccess.EnsureLoadedSendsIff | src/client/composables/useFundingAccess.ts:175-188 | mounting sends a request if and only if no summary has been heard since the last reset and no load is registered |
| FundingAccess.FreshAfterResetIff | src/client/stores/fundingStore.ts:98-100 | after a reset no run tells the client about a calendar, by a summary or by a refusal, in answer to an older request if and only if no request for it, of either kind, is out at the reset |
| FundingAccess.NextSessionJoinsOldRequest | src/client/composables/useFundingAccess.ts:159-188 | counterexample: if a load is out, mounting after the reset joins it, and its answer becomes the gate answer |
| FundingAccess.OldRefusalDeniesNextSession | src/client/composables/useFundingAccess.ts:212-220 | counterexample: if another request is out and is refused after the reset, the gate reads as denied |
| NotificationPaging.NotificationStore.FetchNotifications | src/client/stores/notificationStore.ts:46-60 | the first page replaces the list; a failure keeps it |
| NotificationPaging.NotificationStore.LoadMoreNotifications | src/client/stores/notificationStore.ts:65-82 | the page at the current length is appended, unless there is no more or a load runs |
| NotificationPaging.NotificationStore.MarkNotificationSeen | src/client/stores/notificationStore.ts:89-102 | server and client row are marked together, or neither |
| NotificationPaging.NotificationStore.MarkNotificationDismissed | src/client/stores/notificationStore.ts:109-122 | the row goes from both lists, or from neither; a listed row that was dismissed is listed no more |
| NotificationPaging.SetSeenMarksOne | src/client/stores/notificationStore.ts:89-102 | the marked row is seen and every other row is unchanged, in its place |
| NotificationPaging.WithoutDropsOne | src/client/stores/notificationStore.ts:109-122 | dismissing leaves exactly the rows with other ids, in their order |
| NotificationPaging.DismissedStaysAway | src/client/stores/notificationStore.ts:46-122 | after a successful dismissal of a listed id, no run leads to a list, on either side, that holds it again |
| NotificationPaging.PageContinues | src/server/notifications/api/v1/notification.ts:77-94 | a page asked for at the end of what is held, not past the capped offset, continues the list, in full or up to its end |
| NotificationPaging.CapIsNotPassed | src/server/notifications/api/v1/notification.ts:85-91 | while there is more of a list that the last fetch found within reach, no more is held than the cap |
| NotificationPaging.StepKeepsInStep | src/client/stores/notificationStore.ts:46-122 | every action keeps the client's list a prefix of the server's, and all of it once `hasMore` is false, if the last fetch found fewer than 10050 rows |
| NotificationPaging.ClientHoldsAPrefix | src/client/stores/notificationStore.ts:46-122 | after a first fetch of fewer than 10050 rows, every run of actions leaves such a prefix, with no id twice: nothing is skipped or repeated though the list shrinks |
| NotificationPaging.StaysInStepIff | src/client/stores/notificationStore.ts:65-82 | every run keeps the lists in step if and only if the first fetch found fewer than 10050 rows |
| NotificationPaging.PageRepeats | src/server/notifications/api/v1/notification.ts:85-91 | counterexample: with 10050 rows held and as many on the server, the next page repeats the last one |
| NotificationPaging.LoadingMoreCompletes | src/client/stores/notificationStore.ts:65-82 | enough further pages complete the list from any state of such a run, the last one possibly empty |
| NotificationPaging.CompletesIff | src/client/stores/notificationStore.ts:65-82 | after a first fetch, loading more completes the list in the end if and only if it has fewer than 10050 rows |
| InstanceDedup.Database.Migrate0025 | migrations/0025_add_event_instance_unique_index.ts:44-67 | the DELETE leaves the ranked-first rows and the unique index is always created |
| InstanceDedup.Database.Migrate0029 | migrations/0029_event_instance_dedupe_for_shared_events.ts:61-99 | the DELETE and then the UPDATE give the deduplicated, normalised table |
| InstanceDedup.SurvivesIffBest | migrations/0029_event_instance_dedupe_for_shared_events.ts:65-78 | a row survives the `ROW_NUMBER` deletion if and only if it has no full key or goes before every other row of its group |
| InstanceDedup.LeastIdSurvives | migrations/0025_add_event_instance_unique_index.ts:44-57 | a keyed row survives 0025 if and only if it has the least id of its group |
| InstanceDedup.LeastOwnIdSurvives | migrations/0029_event_instance_dedupe_for_shared_events.ts:64-80 | a keyed row survives 0029 if and only if it has the least id among the rows of its group on the event's calendar, or of the whole group when none is |
| InstanceDedup.DedupeKeepsOnePerKey | migrations/0025_add_event_instance_unique_index.ts:44-67 | after either deduplication no (event, start time) pair occurs twice |
| InstanceDedup.KeysSurviveExactlyOnce | migrations/0029_event_instance_dedupe_for_shared_events.ts:61-80 | every key present before 0029 is present exactly once after it, on a row already on its event's calendar if the group had one |
| InstanceDedup.RowsAfter0029 | migrations/0029_event_instance_dedupe_for_shared_events.ts:82-98 | rows come from old rows, those of an event with a calendar end on it, and rows without a full key are kept |
| InstanceDedup.SecondRunChangesNothing | migrations/0029_event_instance_dedupe_for_shared_events.ts:61-99 | running 0029 again changes nothing |
| InstanceDedup.OffCalendarRowsAgree | migrations/0029_event_instance_dedupe_for_shared_events.ts:62-98 | with and without 0025 before it, 0029 leaves identical rows of remote, deleted and absent events |
| InstanceDedup.UnkeyedRowsAgree | migrations/0029_event_instance_dedupe_for_shared_events.ts:75-98 | and identical rows without a full key |
| InstanceDedup.RoutesAgree | migrations/0029_event_instance_dedupe_for_shared_events.ts:61-99 | confluence: both routes leave the same number of rows for every event, start time and calendar |
| PerCalendarMigration.OwnedAreDistinct | migrations/0001_initial_schema.ts:469-472 | under the member index, an account's owned calendars are distinct |
| PerCalendarMigration.SplitConservesAmount | migrations/0011_data_migration_per_calendar.ts:52-73 | for every amount, negative ones too, the allocations add up to it, all but the first are equal, and the first exceeds them by less than one unit per calendar |
| PerCalendarMigration.AllocatedPairsIff | migrations/0011_data_migration_per_calendar.ts:26-76 | a subscription has an active allocation for a calendar if and only if it is not cancelled and a member row makes its account an owner of the calendar |
| PerCalendarMigration.Database.AllocateAcross | migrations/0011_data_migration_per_calendar.ts:53-75 | one plan's inserts are all accepted by the active-allocation index and are its split |
| PerCalendarMigration.Database.ExpandSubscriptions | migrations/0011_data_migration_per_calendar.ts:35-76 | on a fresh table no insert is rejected, and the table becomes the splits of the plans that are not cancelled |
| PerCalendarMigration.Database.CopyGrant | migrations/0011_data_migration_per_calendar.ts:121-139 | the loop of inserts gets through exactly when the per-account index is gone or there is only one calendar |
| PerCalendarMigration.Database.ExpandGrant | migrations/0011_data_migration_per_calendar.ts:95-140 | one grant is given its first calendar and copied to the others, or the migration fails |
| PerCalendarMigration.Database.FanOutGrants | migrations/0011_data_migration_per_calendar.ts:78-140 | the whole fan-out gets through exactly when the per-account index is gone or no listed grant's account owns a second calendar |
| PerCalendarMigration.Database.Up | migrations/0011_data_migration_per_calendar.ts:20-191 | `up` completes if and only if the fan-out meets no old index and, on PostgreSQL, every grant has or gets a calendar; then allocations and grants are as described below, the new index is in force and, on PostgreSQL, the calendar mandatory |
| PerCalendarMigration.NoCalendarMissingIff | migrations/0011_data_migration_per_calendar.ts:176-183 | no row of the final table lacks a calendar if and only if every old grant has one, or is active and its account owns one |
| PerCalendarMigration.OldIndexStopsUp | migrations/0011_data_migration_per_calendar.ts:121-139 | counterexample: `up` fails on one grant of an account with two calendars while the old index is in force |
| PerCalendarMigration.RevokedGrantStopsUp | migrations/0011_data_migration_per_calendar.ts:176-183 | counterexample: `up` fails on PostgreSQL on one grant that was revoked before grants had calendars |
| PerCalendarMigration.FanOutClosedForm | migrations/0011_data_migration_per_calendar.ts:95-140 | the nested loops leave every old row in place with at most its calendar set, and all copies after them with fresh ids |
| PerCalendarMigration.MigratedRows | migrations/0011_data_migration_per_calendar.ts:95-152 | the final table is the outcome of each old row, then the copies, which the revocation leaves alone |
| PerCalendarMigration.NewIndexHolds | migrations/0011_data_migration_per_calendar.ts:154-174 | no account has two active grants for one calendar, so creating the new index cannot fail |
| PerCalendarMigration.ActiveGrantsHaveCalendars | migrations/0011_data_migration_per_calendar.ts:142-152 | every active grant has a calendar afterwards |
| PerCalendarMigration.GrantCoversOwnedCalendars | migrations/0011_data_migration_per_calendar.ts:95-152 | a migrated account's active grants are for exactly the calendars it owns, with the expiry, reason, granter and date of the grant it had |
| PerCalendarMigration.OtherGrants | migrations/0011_data_migration_per_calendar.ts:85-152 | assigned and revoked grants are untouched; one without a calendar to go to is revoked in its granter's name |
| EmailMigration.Database.Up | migrations/0037_normalize_account_email.ts:49-105 | `up` aborts if and only if two accounts normalise alike, then changes no table and names exactly those accounts; otherwise every table is backfilled and the unique index holds |
| EmailMigration.Database.BackfillTables | migrations/0037_normalize_account_email.ts:85-93 | each of the three tables, and nothing else, is replaced by its backfilled form |
| EmailMigration.CollidingIff | migrations/0037_normalize_account_email.ts:57-64 | the grouping query lists a normal form if and only if two rows share it, and lists it once |
| EmailMigration.CollisionsAreFound | migrations/0037_normalize_account_email.ts:52-66 | it lists anything if and only if some account collides with another |
| EmailMigration.CollidesIff | migrations/0037_normalize_account_email.ts:57-66 | an account collides if and only if another has an address that differs from its own in the case of the letters A to Z and in outer spaces at most |
| EmailMigration.GroupsNameTheCollisions | migrations/0037_normalize_account_email.ts:66-76 | an account's id is in a reported group if and only if it collides |
| EmailMigration.BackfillIsUnique | migrations/0037_normalize_account_email.ts:95-104 | without collisions the backfilled addresses are pairwise distinct |
| EmailMigration.NormalIsIdempotent | migrations/0037_normalize_account_email.ts:86-93 | a normal form is its own normal form |
| EmailMigration.NormalIsPlain | migrations/0037_normalize_account_email.ts:86-93 | a normal form has no capital and no space at its ends, and is the address itself but for case and those spaces |
| EmailMigration.LookupFindsTheSameRows | migrations/0037_normalize_account_email.ts:85-93 | after the backfill, a lookup by a normalised address finds exactly the rows it denoted before |
| EmailMigration.LookupsAreNormal | src/common/validation/email.ts:14-30 | the address a lookup uses is its own normal form, so the row above is about every lookup |
| EmailMigration.LookupIsUnambiguous | migrations/0037_normalize_account_email.ts:95-104 | and finds one account at most |
| EmailMigration.SecondRunChangesNothing | migrations/0037_normalize_account_email.ts:49-105 | a second backfill changes no row, and collisions are the same before and after one |
| EmailMigration.NormalFormsAgreeIff | src/common/validation/email.ts:14-30 | with case taken as that of A to Z, the stored form is the one lookups use if and only if no other white space is left at its ends |
| EmailMigration.TabIsKept | src/common/validation/email.ts:28-30 | counterexample: an address that begins with a tab keeps it in the table and loses it in every lookup |
| AcceptLanguage.FormIsRead | src/common/i18n/accept-language.ts:34-70 | an entry written as blanks, a code in any case, subtags, blanks and parameters is accepted with that code in lower case, and with quality 1 when it has no parameters |
| AcceptLanguage.IsCodeIff | src/common/i18n/accept-language.ts:47-53 | what counts as a code: two or three letters in either case, with the Kelvin sign, whose lower case is `k`, as a letter; each is read as the lower case of itself |
| AcceptLanguage.AcceptedEntryHasForm | src/common/i18n/accept-language.ts:34-53 | and no entry is accepted that is not so written |
| AcceptLanguage.FirstParameterDecides | src/common/i18n/accept-language.ts:55-67 | the quality of an entry with parameters is that of its first parameter, whatever blanks end the entry and whatever follows |
| AcceptLanguage.SpellingIsRead | src/common/i18n/accept-language.ts:57-67 | a quality written as the letter in either case, an equals sign and a number with or without a point, with any blanks, states its value, or 1 when that is above 1 |
| AcceptLanguage.SpellingStates | src/common/i18n/accept-language.ts:57-67 | the stated quality, times the power of ten that clears its fraction, is the number of all its digits, for fractions of every length, or that power itself when the number is larger |
| AcceptLanguage.DecimalLaw | src/common/i18n/accept-language.ts:60-62 | the same of the value that is parsed, for every whole part and every fraction |
| AcceptLanguage.DigitsAppend | src/common/i18n/accept-language.ts:60-62 | digits written before others count for as many powers of ten as there are others |
| AcceptLanguage.PowerIsWritten | src/common/i18n/accept-language.ts:60-62 | the powers of ten are the numbers written as a one and zeros |
| AcceptLanguage.QvalueIsReadIff | src/common/i18n/accept-language.ts:59-67 | a quality of the grammar of RFC 7231, section 5.3.1, counts as the number it states if and only if it is not `0.` |
| AcceptLanguage.OtherParametersCountAsOne | src/common/i18n/accept-language.ts:55-67 | a first parameter that is not so written counts as 1 |
| AcceptLanguage.ParseAcceptLanguage | src/common/i18n/accept-language.ts:25-76 | the result is the quality-descending, stable arrangement of exactly the accepted entries, empty for a missing or blank header |
| AcceptLanguage.SortIsStable | src/common/i18n/accept-language.ts:72-73 | sorting descends and moves no entry past another of the same quality |
| AcceptLanguage.StableArrangementIsUnique | src/common/i18n/accept-language.ts:72-73 | there is only one such arrangement, so the result is determined |
| AcceptLanguage.EntryRoundTrip | src/common/i18n/accept-language.ts:34-70 | a code printed with a quality of any number of digits, without a point when there are none, is read as that code and that quality |
| AcceptLanguage.HeaderRoundTrip | src/common/i18n/accept-language.ts:25-76 | parsing the printed form of any well-formed list whose qualities descend, each with its own number of digits, gives the list back |
| LocaleUrl.AddedPrefixIsFoundIff | src/common/i18n/locale-url.ts:12-62 | an added prefix is found again if and only if the path has no line terminator |
| LocaleUrl.StrippingUndoesAdding | src/common/i18n/locale-url.ts:12-62 | stripping returns the normalised path, or what remained of it if it carried that locale already |
| LocaleUrl.AddingIsIdempotentIff | src/common/i18n/locale-url.ts:20-24 | adding twice is adding once, exactly for the default locale and for paths on one line |
| LocaleUrl.LocaleIsFoundIff | src/common/i18n/locale-url.ts:44-62 | a locale is found in a path if and only if the first segment is its code, in either case, and the rest is on one line; the remaining path is the rest, the root for an empty one, and the path itself when none is found |
| LocaleUrl.ViewPathsAreCanonical | src/server/app_routes.ts:435-441 | no path that the router takes for one at or below `/view` has a locale prefix |
| LocaleUrl.ViewPathIff | src/server/app_routes.ts:435-441 | which paths the router takes for one at or below `/view`: the first segment is `view`, in either case |
| LocaleUrl.BuildHreflangLinks | src/server/app_routes.ts:151-169 | one link per language in order, then the default one without a prefix |
| LocaleUrl.PrefixStripsBack | src/common/i18n/locale-url.ts:12-62 | a prefixed canonical path strips to its language and to the path |
| LocaleUrl.LinksStripBack | src/server/app_routes.ts:151-169 | every link of the list strips back to the one canonical path, and all but the default ones to their language |
| LocaleUrl.LinksAreDistinctIff | src/server/app_routes.ts:151-169 | two entries of the list share an address if and only if they are the entry of the default language and the `x-default` entry |
| LocaleUrl.RedirectsOnce | src/server/app_routes.ts:265-299 | the path a redirect names is at or below `/view`, and is answered by a page, not redirected again, whatever the settings have become |
| LocaleUrl.RedirectedIff | src/server/app_routes.ts:265-299 | a path is redirected if and only if its first segment is the code of the default language, in either case, and the rest is at or below `/view`; the target is that rest |
| LocaleUrl.UnprefixedLinkIff | src/server/app_routes.ts:97-110 | a link carries no prefix if and only if it is for the configured language, or for English when the instance lacks that |
| LocaleUrl.ResolveFromAcceptLanguage | src/server/common/middleware/locale.ts:56-72 | the first accepted language that is supported, or none if none is |
| LocaleUrl.FirstSourceDecides | src/server/common/middleware/locale.ts:114-156 | the language of a request is the first that is named by the administrator, the path, the account, the cookie or the header, in this order and whatever the later ones say; all but the first must be enabled; the configured one if none names any |
| LocaleUrl.LinkIsAnswered | src/server/app_routes.ts:265-317 | every link is answered by a page for the path it was made from, in the request's language, with meta tags in the link's own language if it has a prefix |
| LocaleUrl.LinkLanguageIff | src/server/common/middleware/locale.ts:94-156 | a link is answered in its own language if and only if that language is forced, or none is and its prefix is enabled or the visitor's preferences end there |
| LocaleUrl.AlternateLinkForEveryoneIff | src/server/common/middleware/locale.ts:94-156 | for every visitor, if and only if that language is forced, or none is and it is enabled |
| LocaleUrl.DefaultLinkForEveryoneIff | src/server/common/middleware/locale.ts:94-156 | the default language's own link, for every visitor, if and only if it is forced, or none is, it is the configured one and no other is enabled |
| LocaleUrl.ForcedLanguageAnswersOtherLinks | src/server/common/middleware/locale.ts:114-118 | counterexample: with French forced, the Spanish link is answered in French with Spanish meta tags |
| TokenGrammar.ParseTokenBody | src/client/composables/useNotificationDisplay.ts:67-93 | the loop over pairs, with its early returns, computes the token of the body or nothing |
| TokenGrammar.ParseFailsIff | src/client/composables/useNotificationDisplay.ts:67-93 | parsing fails if and only if a block is opened but not closed at the end, or holds a pair without a colon or without a key |
| TokenGrammar.TokenRoundTrip | src/client/composables/useNotificationDisplay.ts:62-93 | a printed token parses to its name and parameters, all of them if and only if none is called `__proto__` |
| TokenGrammar.ProtoIsLost | src/client/composables/useNotificationDisplay.ts:77-90 | counterexample: one parameter called `__proto__` is lost, whatever its value, as in `a{__proto__:b}` |
| TokenGrammar.ParsedIsPrinted | src/client/composables/useNotificationDisplay.ts:67-93 | what parses is the printed form of a token, or a name with an empty block |
| TokenGrammar.PrintedNameIsTranslatedIff | src/client/composables/useNotificationDisplay.ts:108-124 | a printed token is translated if and only if it is one of the two known ones, the remote one with a parameter to show; otherwise the name is shown unaltered |
| TokenGrammar.EmptyBlockName | src/client/composables/useNotificationDisplay.ts:67-124 | the same of a name with an empty block |
| TokenGrammar.TranslatedNameIsPrinted | src/client/composables/useNotificationDisplay.ts:108-124 | no other name is translated, and one that is not translated is shown unaltered |
| TokenGrammar.RemoteTokenResolvesIff | src/client/composables/useNotificationDisplay.ts:67-124 | a remote token resolves to its host unaltered if and only if the host has no comma |
| TokenGrammar.HostnameCharacters | src/server/notifications/service/ap-actor-uri.ts:41-53 | the allow-list admits letters, digits, hyphens and dots only |
| TokenGrammar.HostIsAcceptedIff | src/server/notifications/service/ap-actor-uri.ts:62-134 | a host is let through if and only if it comes by https without credentials, has no colon, is no four short numbers before or after normalisation, and consists of labels |
| TokenGrammar.ValidatedHostResolves | src/server/notifications/service/ap-actor-uri.ts:62-134 | hence every host that the validator returns is shown unaltered |
| TokenGrammar.StoredNamesAreTranslated | src/server/notifications/service/anonymize-flag-actor.ts:105-132 | every name that the server stores for a reporter is translated by the client, as anonymous or as coming from exactly the validated host |
| LocationLists.LocationStore.AddLocation | src/client/stores/locationStore.ts:17-22 | the place is pushed into the calendar's array in place; other arrays are unchanged |
| LocationLists.LocationStore.UpdateLocation | src/client/stores/locationStore.ts:35-46 | the place replaces the one with its id in place, or is pushed |
| LocationLists.LocationStore.SetLocationsForCalendar | src/client/stores/locationStore.ts:54-56 | the caller's array itself is stored |
| LocationLists.LocationStore.RemoveLocation | src/client/stores/locationStore.ts:64-70 | a new array without the place is installed |
| LocationLists.LocationManagement.FetchLocations | src/client/composables/useLocationManagement.ts:40-50 | after a fetch composable and store hold the same array, after a failed one a new empty array, unshared |
| LocationLists.LocationManagement.AddToLists | src/client/service/location.ts:75-89 | the store gains the place; the composable's list gains it once, with the store if the two are shared and by the guarded push if not |
| LocationLists.LocationManagement.CreateLocation | src/client/composables/useLocationManagement.ts:135-168 | both lists after a creation; the place is in the composable's list once unless the list is shared and held it already, and the store's list stays free of repeats exactly if it did not hold it; the place is the event's venue without a room; a failure touches nothing |
| LocationLists.FetchOvertakesCreation | src/client/composables/useLocationManagement.ts:145-161 | counterexample: a fetch answered between saving a place and the answer to its creation leaves it listed twice |
| LocationLists.PushedIsDistinctIff | src/client/stores/locationStore.ts:17-22 | pushing keeps ids distinct if and only if the id is new |
| LocationLists.LocationManagement.SaveAddSpace | src/client/composables/useLocationManagement.ts:253-260 | the place replaces the one with its id in the composable's list, or is pushed |
| LocationLists.LocationManagement.AddSpace | src/client/service/location.ts:126-140 | after the service's update and the sheet's handler the place occurs exactly once in the composable's list, shared or not, and the store holds it |
| LocationLists.LocationManagement.Run | src/client/composables/useLocationManagement.ts:36-270 | every run of fetches, creations with ids not listed yet, added spaces and removals, and of fetches, creations and updates that only the store hears of, keeps ids distinct in the composable's list and in every list of the store, under any aliasing between them |
| LocationLists.UpsertFacts | src/client/stores/locationStore.ts:39-45 | replacing or pushing keeps ids distinct and leaves the place there once |
| LocationLists.UpsertPlaces | src/client/stores/locationStore.ts:35-46 | every other place stays where it was, and the place takes the position of its id, or the end when it is new |
| LocationLists.WithoutLeavesTheOthers | src/client/stores/locationStore.ts:64-70 | removal leaves exactly the places with another id, in their order |
| LocationLists.UpsertIsIdempotent | src/client/stores/locationStore.ts:39-45 | doing it again, as happens when the list is shared, changes nothing |
| CategoryAssignment.Event.Receive | src/server/calendar/service/categories.ts:511-578 | the server makes the call's change and refuses a call that would change nothing |
| CategoryAssignment.AssignCategoriesToEvent | src/client/service/category.ts:236-259 | the two loops make the planned calls in order and stop exactly at the first one that is refused |
| CategoryAssignment.EveryPrefixStaysBetween | src/client/service/category.ts:238-254 | after any number of the calls the event's categories lie between the intersection and the union of old and requested, and after all of them they are the requested ones |
| CategoryAssignment.StateAfter | src/client/service/category.ts:246-254 | the exact set after each call: additions so far in, then removals so far out |
| CategoryAssignment.NotInKeepsOrder | src/client/service/category.ts:242-254 | additions are called in the requested order, as often as requested, and removals in the current one |
| CategoryAssignment.CompletesIff | src/client/service/category.ts:242-254 | on a server that refuses only redundant calls, the work is completed if and only if no new category is requested twice |
| CategoryAssignment.StopsAtFirstRepeat | src/client/service/category.ts:246-259 | otherwise it stops at the first repeat, with the additions before it made and nothing removed |

## Left out

- AcceptedSqlIsConstant: outside the syntax are `namespace` members assigned from outside, `declare const` with an initializer, destructuring, default parameters, `for (x of ...)` onto an existing name, `eval`, function and class declarations that reuse a name inside its scope, sinks reached by element access, and a throwing write to a `const`.
- RawSqlSemantics: operators other than `+` on strings, and all objects and functions the file does not define, take their values from the outside world; writes to object properties, prototype chains, `this` and accessors that answer differently each time are not modelled; the clauses of a `switch` have a scope each; calls nest, so a suspended `async` function resumes only after what ran meanwhile has ended.
- DetectSource: the syntax tree is given, not parsed from text; a violation keeps its line and kind, not its message; the walk over files and the exit code are left out.
- CollectEntryCSS: keys that a plain object inherits, such as `constructor`, count as absent.
- AuthenticationService: logging in, tokens, their timers, and the value or error with which a promise settles.
- FundingClient: the `isLoading` flag and the guards against inherited keys of plain objects.
- NotificationStore: each action is one step; actions that overlap, notifications that arrive between pages, rows of equal age in changing order, a page answered from the browser's cache within its 25 seconds, and a change that the server makes although its answer is lost are not covered.
- Migrate0029: dates are numbers and ids are numbers in the order of the UUIDs.
- PerCalendarMigration: the `down` migration, generated row ids and creation times of allocations, the tables as a failed `up` leaves them, and the rollback that the migration runner performs then.
- NormalIsIdempotent: `LOWER` and `toLowerCase` act on the letters A to Z only; the check for an index that already exists is left out.
- ParseAcceptLanguage: qualities are real numbers, without the rounding of `parseFloat`.
- ValidateApActorUri: parsing the URI and Unicode normalisation of its host are given.
- LocalePrefixedSite: the query string of a redirect, page rendering and the contents of meta tags; settings, account and cookie are given.
- ResolveActorDisplayName: translated texts are represented by their key and parameters; the order of keys is not modelled.
- LocationManagement: pickers, forms and error display; a place is a value, so a change to one of its fields through another reference is not modelled.
- AssignCategoriesToEvent: the encoding of ids in URLs, calls that take effect although their answer is lost, and the server's checks of permissions and calendars, which appear as the one call it refuses.
- Strings are sequences of characters, not of UTF-16 code units.
- Exception classes, field-by-field conversions, schema-only migrations, routing, dialogs and translations set-up would add only easy members.
