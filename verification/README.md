# PPB: verified models of its protocols and text transformations

PPB is a web backend that administers a multiplayer game server. This project
models the parts of it that hold state across requests or transform structured
data, and proves what they promise:

- **The Command Broker** (`Registry`, `Broker`, `Executor`, `BrokerRuns`,
  `BrokerTheorems`): commands queue per key in a channel of 64, one worker per
  key. A run is any interleaving of handlers writing rows and submitting, workers
  receiving, finishing, auditing and answering, and callers timing out.
  `CommandBroker` is the object with its map of senders and its workers, `Records`
  what the executor writes.
- **Runbooks** (`Runbook`, `RunbookTheorems`): the step loop, and what it means
  for the broker when its callers are sequential.
- **Redemption codes** (`Coupons`, `CouponRuns`, `CouponSerial`, `CouponDatabase`):
  transactions with a row lock at read-committed isolation, any number of them at
  once, and why they are serialisable; `Database` is one request at a time.
- **Configuration** (`ConfigTree`, `PmpConfig`, `PmpDescriptor`, `Overrides`):
  reading and writing a tree by path as a lens, the form-driven merge with
  redaction, the difference report, and the recursive merge of overrides.
- **Join intents** (`JoinIntents`, `JoinIntentRuns`): the store object, and the
  watch and cleanup tasks acting on it.
- **OAuth and sessions** (`OAuth`, `OAuthTheorems`, `Sessions`,
  `SessionTheorems`, `AuthHandler`): one-shot states, identities and refresh-token
  rotation, with every database statement a step of its own; `AuthService` is a
  refresh without interruption.
- **Text** (`Texts`, `RouteScanner`, `RouteExtract`, `CsvExport`, `Escapes`,
  `StartupArgs`, `Utf8`): the scanner and extractor of the route-surface gate,
  CSV export, chained escapes, command lines, and cutting text in UTF-8.

Protocols are modelled in one way throughout: a `State`, an `Event` type,
`Enabled` (which events can happen) and `Step` (what they do); `Run` folds a
sequence of events, and theorems speak of all sequences that are runs. All
nondeterminism is in the events.

`dafny verify dfyconfig.toml` checks the whole project.

## Where the code does something else than one would expect

Each of these is a theorem, usually with its exact condition.

- A room id that contains the text `{user_id}` breaks room queue keys: the second
  substitution rewrites the id (`Registry.RoomKeyIgnoresUserIff`). Otherwise one
  room has one key.
- The limit of 2048 pending OAuth states is checked and used in two steps, so it
  can be overshot, by exactly the number of simultaneous starts less one
  (`OAuth.CapHolds`, `OAuth.CapBoundIsReached`).
- A bind callback reports a binding that is not its user's exactly when, between its
  lookup and its insertion, another user's callback bound the identity and nobody
  unbound it again (`OAuthTheorems.ReportedBoundIff`; `OAuthTheorems.SecondBinderIsMisled`,
  and the run `OAuthTheorems.SecondBinderHappens`).
- Two overlapping refreshes with one token both complete, and the first one's new
  token is lost (`SessionTheorems.OverlappingRefreshesBothComplete`; the run is
  `SessionTheorems.OverlapHappens`); reuse without such an overlap is impossible
  (`SessionTheorems.SecondUseOverlapsTheFirst`).
- A refresh that found an expired credential can mark it after a login has renewed
  it, and so lock the user out again (`SessionTheorems.LateMarkUndoesLogin`). This
  happens exactly when a login stored a credential, still valid at the mark, between
  the gate's reading and the mark (`SessionTheorems.MarkUndoesLoginIff`).
- The comment in `create` speaks of replacing a player's earlier join intent, but
  the earlier one stays stored (`JoinIntents.EarlierIntentsStay`); dropping it
  later takes the newer one off the index (`JoinIntents.EarlierIntentHidesLater`).
  The index is therefore sound but not complete: the latest intent is on it exactly
  as long as no intent of that player is dropped (`JoinIntentRuns.IndexedIff`).
- A cancelled intent can still be moved exactly when the watch task has, at the
  cancellation, matched it and not yet asked for the move
  (`JoinIntentRuns.LateMoveIff`; `JoinIntentRuns.CancelMayComeTooLate` is a run).
- An intent marked expired can still complete exactly when the watch task holds it,
  that is, when it was matched before (`JoinIntentRuns.LateCompletionIff`;
  `JoinIntentRuns.ExpiredMayComplete` is a run).
- The player id sent is cut to 32 bits (`JoinIntentRuns.MoveGoesHome`).
- Sending the shown configuration values back with their nulls creates the missing
  fields (`PmpConfig.ResubmitWithNullsIff`); without the nulls nothing changes.
- The route gate does not know character literals
  (`RouteScanner.QuotedBraceEndsTheBody`), lists routes that have been commented
  out (`RouteExtract.CommentedRoutesAreListedIff`), and takes a method call spelled in
  a string for a method (`RouteExtract.OnlyCalledAreReadIff`).
- A startup schema may use one flag twice. Its command lines can then be misread,
  exactly when all specs from the first of the two up to the second may add no words
  and the second may add some (`StartupArgs.ReadsBackIff`).
- The CSV export writes five columns without escaping; it reads back exactly when
  those hold no comma, quote or line feed (`CsvExport.ExportReadsBackIff`).

## Model

| member | source | states |
|---|---|---|
| `Registry.RoomKeyText` | crates/ppb-server/src/actions/registry.rs:114-126 | the two substitutions turn a room template into `room:` and the id, with any `{user_id}` inside the id rewritten |
| `Registry.FixedKeys` | crates/ppb-server/src/actions/registry.rs:114-126 | a template without braces is its own key whatever the arguments; a room template without a room id stays as it is |
| `Registry.RoomKeyIgnoresUserIff` | crates/ppb-server/src/actions/registry.rs:114-126 | for a room, the queue key is the same whatever `user_id` is given exactly when the id does not contain `{user_id}` |
| `Registry.RoomKeysSeparateRooms` | crates/ppb-server/src/actions/registry.rs:114-126 | for such ids, two room-scoped commands share a queue exactly when they name the same room |
| `Broker.CommandBroker.constructor` | crates/ppb-server/src/commands/broker.rs:63-68 | a new broker has no channels |
| `Broker.CommandBroker.Submit` | crates/ppb-server/src/commands/broker.rs:71-82 | the offer is refused exactly when 64 tasks wait in the key's channel; otherwise the task is the last one there, in a new channel with an idle worker if there was none, and no other channel changes |
| `Broker.CommandBroker.Receive` | crates/ppb-server/src/commands/broker.rs:84-96 | an idle worker takes the head of its own queue and runs it, or nothing if the queue is empty |
| `Executor.Records.InsertQueued` | crates/ppb-server/src/commands/repo.rs:9-30 | a queued row appears and no other row changes |
| `Executor.Records.Complete` | crates/ppb-server/src/actions/executor.rs:110-146 | a value makes row and audit entry say succeeded, with the value as summary and no error code; an error makes both say failed, with the error text itself up to 120 bytes and else the longest whole-character prefix within 120 bytes and U+2026; the waiting caller is answered with the outcome, and other rows, entries and answers stay |
| `Executor.CompletionIsThreeSteps` | crates/ppb-server/src/actions/executor.rs:110-146 | the executor's uninterrupted effect is that of the steps finish, audit and answer, after which the worker is free |
| `BrokerTheorems.EventsInOrder` | crates/ppb-server/src/commands/broker.rs:71-96 | in every run each event of a command finds it strictly further along its life cycle, so each happens at most once and in order |
| `BrokerTheorems.CompleteIsFinal` | crates/ppb-server/src/actions/executor.rs:110-146 | nothing more happens to a command that was answered or refused |
| `BrokerTheorems.QueueDiscipline` | crates/ppb-server/src/commands/broker.rs:71-96 | per key and in every run: ended tasks are a prefix of started ones, those of accepted ones; at most one runs, at most 64 wait, and the three groups make up the accepted order |
| `BrokerTheorems.AcceptedOnce` | crates/ppb-server/src/commands/broker.rs:71-82 | no task is accepted twice |
| `BrokerTheorems.AcceptedInOnePlace` | crates/ppb-server/src/commands/broker.rs:71-96 | every accepted task is in exactly one of ended, running, waiting |
| `BrokerTheorems.ExecutionsDoNotOverlap` | crates/ppb-server/src/commands/broker.rs:84-96 | between the starts of two executions of one key, the first has been answered |
| `BrokerTheorems.SameRoomNeverOverlaps` | crates/ppb-server/src/actions/registry.rs:114-126 | commands for the same room never overlap, whatever user they name (ids without `{user_id}`) |
| `BrokerTheorems.RecordsAgree` | crates/ppb-server/src/actions/executor.rs:110-146 | in every run a command ends at most once; its row is queued, with empty summary and error code, until then; afterwards row, audit entry and answer say the same by cases of the outcome: succeeded and the value, or failed and the error text cut at 120 bytes; one entry exactly when audited and complete |
| `BrokerTheorems.CallersAreTold` | crates/ppb-server/src/actions/routes.rs:132-198 | in every run: a caller is told queue full exactly when its task was refused, job accepted exactly when its task was accepted with nobody waiting, timed out exactly when it gave up waiting, and an outcome exactly when its task was answered with it and it had not given up |
| `BrokerTheorems.AcceptedIffRoom` | crates/ppb-server/src/commands/broker.rs:71-82 | in every run a task is accepted exactly when fewer than 64 tasks of its key have been accepted and not begun |
| `BrokerTheorems.NextCanStart` | crates/ppb-server/src/commands/broker.rs:84-96 | in every run, once a key's worker has answered all it began, it can begin the first of the accepted tasks it has not |
| `BrokerTheorems.OutcomeIsForever` | crates/ppb-server/src/commands/repo.rs:41-61 | a finished row never changes again |
| `BrokerTheorems.QueuedRowsAccountedFor` | crates/ppb-server/src/actions/routes.rs:132-198 | queued rows are those not yet offered, waiting, running or refused, and these groups are disjoint |
| `BrokerTheorems.TimeoutsChangeNothing` | crates/ppb-server/src/actions/routes.rs:183-198 | a run with all caller timeouts removed is a run with the same channels, rows and audit entries, and the same replies to everybody else |
| `BrokerTheorems.SequentialCommandsNeverOverlap` | crates/ppb-server/src/automation/routes.rs:376-482 | if a caller writes each row only after the previous answer, all events of an earlier command precede all of a later one, across queue keys |
| `Runbook.ValidateStepsIff` | crates/ppb-server/src/automation/mod.rs:39-53 | the early-return check accepts exactly the lists all of whose steps are a known action or a wait, with waits up to 3600 |
| `Runbook.ExecuteAction` | crates/ppb-server/src/automation/routes.rs:384-475 | a row is written and a task offered only if the action is neither long-running nor job-only, the permission is granted and the reauthentication it asks for is given; each of the five fates has its exact condition |
| `Runbook.RunSteps` | crates/ppb-server/src/automation/routes.rs:372-491 | results are those of an executed prefix, all ok but possibly the last; success exactly when every step ran and was ok; an abort is at the first step that cannot be carried out; the broker calls are strictly sequential |
| `Runbook.Run` | crates/ppb-server/src/automation/routes.rs:336-491 | a definition is refused exactly when some step is invalid, and then nothing is called; otherwise the loop's guarantee |
| `Runbook.AnswersMean` | crates/ppb-server/src/automation/routes.rs:372-491 | one answer per step up to the first that is not ok, each exactly ok, denied, needing a job or failed by the step's action and what the world answered; success exactly when every step has an answer and all are ok; a call aborts only at a step that needs no job, was not denied and could not be carried out |
| `RunbookTheorems.RunbookIsSequential` | crates/ppb-server/src/automation/routes.rs:432-475 | broker calls in the runbook's pattern make the caller sequential in every run |
| `RunbookTheorems.RunbookCommandsNeverOverlap` | crates/ppb-server/src/automation/routes.rs:336-491 | take any runbook call, completed or aborted, and any broker run whose events of its commands are calls it made: every event of an earlier step's command precedes every event of a later one's, across queue keys and among other callers |
| `RunbookTheorems.CalledArePermitted` | crates/ppb-server/src/automation/routes.rs:389-421 | every row a runbook call writes and every task it offers is of a step whose action is registered, not long-running and not one of the four job-only ones, whose permission was granted and which was reauthenticated where it asks for that |
| `CouponRuns.RedemptionLimits` | crates/ppb-server/src/admin/coupons.rs:64-79 | under any interleaving the use count is the number of redemption rows and at most the limit, no user redeems twice, a holder's coupon goes to the holder only, one grant per redemption |
| `CouponRuns.NothingAfterRevoke` | crates/ppb-server/src/admin/coupons.rs:58-79 | after a revocation commits, no run adds a redemption |
| `CouponRuns.InactiveForever` | crates/ppb-server/src/admin/coupons.rs:61-62 | a coupon that is revoked or used up never becomes active again, nor does an expired one at a clock reading that is not earlier |
| `CouponRuns.FailureLeavesNoTrace` | crates/ppb-server/src/admin/coupons.rs:64-79 | removing a transaction that never commits from any run leaves the same coupons, redemptions, grants and other transactions |
| `CouponSerial.RunIsSerial` | crates/ppb-server/src/admin/coupons.rs:58-79 | the tables after any interleaving are those of its committed creations, revocations and redemptions applied one at a time in commit order, each redemption passing every check when applied, with the expiry read at its check |
| `CouponSerial.UsesAreAllowed` | crates/ppb-server/src/admin/coupons.rs:64-79 | every committed redemption met, in its turn, a row that was not revoked nor used up, unexpired at the clock reading of its check, held by nobody else, and no earlier use by that user |
| `CouponSerial.CommittedBeforeExpiry` | crates/ppb-server/src/admin/coupons.rs:70-70 | whatever commits was checked by an event at which the clock read less than the row's expiry |
| `CouponDatabase.Database.Redeem` | crates/ppb-server/src/admin/coupons.rs:64-79 | each refusal is reported exactly when its own check fails and the earlier ones pass, in fields of the row, and changes nothing; a success means an unrevoked, unexpired, not used up coupon of this or no holder, counts the use and records redemption and grant |
| `CouponDatabase.Database.RevokeCoupon` | crates/ppb-server/src/admin/coupons.rs:58-59 | revocation takes effect exactly on a known coupon that is not revoked, and sets its revocation time only |
| `CouponDatabase.ShownActiveIff` | crates/ppb-server/src/admin/coupons.rs:61-62 | a coupon is listed as active exactly when its own state refuses nobody, so that only its holder or an earlier use can stand in the way; revoked and expired are listed exactly when they are the reason |
| `ConfigTree.SetSucceedsIff` | crates/ppb-server/src/config/routes.rs:219-239 | writing a path succeeds exactly when every proper prefix is a mapping or missing |
| `ConfigTree.GetOneMore` | crates/ppb-server/src/config/pmp.rs:188-195 | a path with one more key reads that member of the object at the path, if there is such an object with such a member |
| `ConfigTree.OpenIff` | crates/ppb-server/src/config/routes.rs:219-239 | the way to a path is open exactly when nothing that can be read on it is other than an object |
| `ConfigTree.GetSet` | crates/ppb-server/src/config/routes.rs:219-239 | what was written is read back |
| `ConfigTree.GetSetOther` | crates/ppb-server/src/config/routes.rs:219-239 | paths of which neither is a prefix of the other do not disturb each other |
| `ConfigTree.SetGet` | crates/ppb-server/src/config/routes.rs:219-239 | writing back what is read changes nothing |
| `ConfigTree.SetCommutes` | crates/ppb-server/src/config/routes.rs:219-239 | writes to unrelated paths commute, failures included |
| `PmpConfig.MergePatch` | crates/ppb-server/src/config/routes.rs:195-217 | the patch loop computes the merge; a form that is not an object fails |
| `PmpConfig.FieldValue` | crates/ppb-server/src/config/pmp.rs:188-195 | the cursor walk reads the path |
| `PmpConfig.MergeReadsBack` | crates/ppb-server/src/config/routes.rs:195-217 | every field reads the submitted value, or the old one when absent or a placeholder on a sensitive field |
| `PmpConfig.MergedFieldReads` | crates/ppb-server/src/config/routes.rs:195-217 | after a merge a field reads what the form has under its name, unless that is a secret's placeholder or nothing; then what it read before |
| `PmpConfig.PlaceholderIs` | crates/ppb-server/src/config/routes.rs:205-212 | the placeholder is the text `[REDACTED]` with each letter in either case, and nothing else |
| `PmpConfig.MergeFrame` | crates/ppb-server/src/config/routes.rs:195-239 | every path unrelated to a patched one is unchanged |
| `PmpConfig.MergeSucceedsIff` | crates/ppb-server/src/config/routes.rs:195-239 | a merge succeeds exactly when the way to every submitted field is open |
| `PmpConfig.MergeIdempotent` | crates/ppb-server/src/config/routes.rs:195-217 | saving a form twice is saving it once |
| `PmpConfig.MergeOrderIrrelevant` | crates/ppb-server/src/config/routes.rs:195-217 | any two orders of the descriptor merge alike, failures included |
| `PmpConfig.Values` | crates/ppb-server/src/config/routes.rs:73-100 | each field is shown as the literal `[REDACTED]` if it is a secret and present, as its value otherwise, as null if it is missing; nothing else is shown |
| `PmpConfig.ResubmitKeepsEverything` | crates/ppb-server/src/config/routes.rs:84-97 | the shown values without nulls, sent back, merge to the identical tree, secrets included |
| `PmpConfig.ResubmitWithNullsIff` | crates/ppb-server/src/config/routes.rs:84-97 | with the nulls included that is so exactly when no field is missing |
| `PmpConfig.Diff` | crates/ppb-server/src/config/routes.rs:341-366 | one entry for each field that reads differently after the merge, in descriptor order: `[REDACTED]` twice for a secret, else what the path reads now and after the merge, null if missing |
| `PmpConfig.DiffIsExact` | crates/ppb-server/src/config/routes.rs:348-366 | the report names exactly the fields a save would change and is empty exactly when the merged tree is the current one |
| `PmpConfig.DiffRevealsNoSecret` | crates/ppb-server/src/config/routes.rs:341-366 | two configurations and two forms that differ in the values of secrets only, and change the same secrets, give the same report |
| `PmpConfig.Raw` | crates/ppb-server/src/config/routes.rs:499-528 | the loop builds the projection, of which the next row says what it reads |
| `PmpConfig.ProjectionReads` | crates/ppb-server/src/config/routes.rs:509-527 | under prefix-free paths the projection succeeds, reads at each field what the form shows of it or nothing if it is missing, and reads nothing at any path that belongs to no field |
| `PmpConfig.ReadingRevealsNoSecret` | crates/ppb-server/src/config/routes.rs:499-528 | trees that differ in present secrets only are shown identically, as values and as projection, and projecting never fails |
| `PmpConfig.ValidateValues` | crates/ppb-server/src/config/routes.rs:265-305 | accepts exactly objects in which every submitted switch is a boolean and every number a number, a secret's placeholder apart; otherwise each wrong field is named, and no other |
| `PmpDescriptor.DescriptorIsPrefixFree` | crates/ppb-server/src/config/pmp.rs:71-94 | no path of the real descriptor is a prefix of another and names are distinct, so the laws above apply to it |
| `PmpDescriptor.FormAcceptedIff` | crates/ppb-server/src/config/pmp.rs:47-94 | for the real descriptor a form is accepted exactly when each of its three switches, if submitted, is a boolean and each of its nine number fields, if submitted, is a number |
| `PmpDescriptor.SecretsAre` | crates/ppb-server/src/config/pmp.rs:71-94 | of the twenty fields exactly the database address and the OpenUDS token are secret |
| `Overrides.MergeObjects` | crates/ppb-server/src/config/mod.rs:407-419 | the in-place recursion computes the merge, in any order of the entries |
| `Overrides.MergeIdempotent` | crates/ppb-server/src/config/mod.rs:396-419 | applying overrides twice is applying them once |
| `Overrides.KeysKept` | crates/ppb-server/src/config/mod.rs:407-419 | at every level where both sides are objects the key set is that of the base |
| `Overrides.UnknownHasNoEffect` | crates/ppb-server/src/config/mod.rs:407-419 | dropping override paths that the base lacks changes nothing |
| `Overrides.MergeReads` | crates/ppb-server/src/config/mod.rs:407-419 | a leaf reads the override where one replaces something on its way, the base everywhere else |
| `JoinIntents.JoinIntentStore.constructor` | crates/ppb-server/src/join_intent/mod.rs:65-67 | a new store is empty |
| `JoinIntents.JoinIntentStore.Create` | crates/ppb-server/src/join_intent/mod.rs:69-101 | lifetimes outside 1 to 900 s are refused, then an empty room; otherwise a pending intent is stored that expires after the lifetime, 300 s if none is given, and is the one its player's index entry names |
| `JoinIntents.JoinIntentStore.Fetch` | crates/ppb-server/src/join_intent/mod.rs:105-116 | not found for an unknown id, denied exactly to others than the intent's user, and otherwise the intent, shown as expired if its time is past and it is neither completed nor failed |
| `JoinIntents.JoinIntentStore.Cancel` | crates/ppb-server/src/join_intent/mod.rs:118-131 | not found for an unknown id, denied exactly to others than the intent's user; otherwise the intent and its player's index entry are gone and nothing else |
| `JoinIntents.JoinIntentStore.MatchOnline` | crates/ppb-server/src/join_intent/mod.rs:149-159 | matches exactly when the player's index entry names a stored intent that is pending and unexpired, and marks that one as seen online |
| `JoinIntents.JoinIntentStore.MarkMoving` | crates/ppb-server/src/join_intent/mod.rs:161-163 | the status becomes moving, if the intent is still stored |
| `JoinIntents.JoinIntentStore.MarkTerminal` | crates/ppb-server/src/join_intent/mod.rs:167-173 | the status is set and the player's index entry dropped |
| `JoinIntents.JoinIntentStore.Sweep` | crates/ppb-server/src/join_intent/mod.rs:187-205 | removes the intent and its player's index entry exactly if it has a final status and expired over 3600 s ago; otherwise marks it expired if its time is past |
| `JoinIntents.JoinIntentStore.CleanupExpired` | crates/ppb-server/src/join_intent/mod.rs:183-207 | in any order of the ids: exactly the intents of final status that expired over 3600 s ago are gone, with their players' index entries; the others are marked expired if past their time; the count is of the removed |
| `JoinIntents.ListedIsFetched` | crates/ppb-server/src/join_intent/mod.rs:105-145 | a listing has exactly the intents the user can fetch that did not expire an hour ago or longer, shown as fetching shows them |
| `JoinIntents.CleanupInvisibleInList` | crates/ppb-server/src/join_intent/mod.rs:134-145 | listing at a later time shows the same with or without an earlier cleanup |
| `JoinIntents.CleanupInvisibleInFetch` | crates/ppb-server/src/join_intent/mod.rs:48-54 | so does fetching an intent that survived the cleanup |
| `JoinIntents.TwoCleanupsRemove` | crates/ppb-server/src/join_intent/mod.rs:183-207 | an intent past its time at one cleanup, and over 3600 s past it at a later one, is gone |
| `JoinIntents.EarlierIntentsStay` | crates/ppb-server/src/join_intent/mod.rs:96-100 | a new intent is indexed but replaces no stored one |
| `JoinIntents.EarlierIntentHidesLater` | crates/ppb-server/src/join_intent/mod.rs:118-131 | dropping a player's earlier intent leaves the later one pending but never matched |
| `JoinIntentRuns.IndexIsSound` | crates/ppb-server/src/join_intent/mod.rs:69-179 | in every run an indexed id is a stored intent of that player, the latest created |
| `JoinIntentRuns.IndexedIff` | crates/ppb-server/src/join_intent/mod.rs:69-207 | in every run an intent is the one its player's index entry names exactly when no intent of that player has been created, cancelled, settled or swept away since its creation |
| `JoinIntentRuns.MatchableIff` | crates/ppb-server/src/join_intent/mod.rs:149-159 | the player coming online fulfils an intent exactly when that holds and it is stored, pending and unexpired |
| `JoinIntentRuns.EachStepOnce` | crates/ppb-server/src/app.rs:268-312 | each intent is matched, marked, moved and settled at most once, in that order |
| `JoinIntentRuns.MatchIsLive` | crates/ppb-server/src/join_intent/mod.rs:149-159 | a match is stored, pending, unexpired and the player's latest |
| `JoinIntentRuns.MatchedWithinLifetime` | crates/ppb-server/src/join_intent/mod.rs:69-159 | in every run a matched intent was created for that player, less than 900 s before by the clock |
| `JoinIntentRuns.CancelledByItsCreator` | crates/ppb-server/src/join_intent/mod.rs:118-131 | in every run an intent is cancelled only by the user who created it |
| `JoinIntentRuns.CancelledNeverMatched` | crates/ppb-server/src/join_intent/mod.rs:118-159 | a cancelled intent is never matched afterwards |
| `JoinIntentRuns.LateMoveIff` | crates/ppb-server/src/app.rs:283-304 | in every run, a cancelled intent is moved in some continuation exactly when the watch task had matched it and not yet asked for its move at the cancellation |
| `JoinIntentRuns.CancelMayComeTooLate` | crates/ppb-server/src/app.rs:283-304 | a run from the start that ends in such a cancellation, derived from that condition |
| `JoinIntentRuns.MoveGoesHome` | crates/ppb-server/src/app.rs:283-295 | a move is to the intent's own room, and for its own player exactly when the id fits 32 bits |
| `JoinIntentRuns.SettledForever` | crates/ppb-server/src/join_intent/mod.rs:167-179 | completed and failed never change while the intent is stored |
| `JoinIntentRuns.ExpiredForever` | crates/ppb-server/src/join_intent/mod.rs:183-207 | an intent marked expired before it was matched stays expired |
| `JoinIntentRuns.LateCompletionIff` | crates/ppb-server/src/app.rs:268-312 | in every run, an intent marked expired completes in some continuation exactly when the watch task holds it, which is exactly when it was matched before |
| `JoinIntentRuns.ExpiredMayComplete` | crates/ppb-server/src/app.rs:283-304 | a run from the start that ends with such an intent, derived from that condition |
| `OAuth.GithubService.constructor` | crates/ppb-server/src/auth/github.rs:59-69 | no states at first |
| `OAuth.GithubService.PruneStates` | crates/ppb-server/src/auth/github.rs:212-216 | exactly the states younger than 600 s and not from the future stay |
| `OAuth.GithubService.AuthorizeUrl` | crates/ppb-server/src/auth/github.rs:71-105 | prunes, then allocates a pending state for the token exactly when fewer than 2048 remain; uninterrupted, the cap is kept |
| `OAuth.GithubService.SetPurpose` | crates/ppb-server/src/auth/github.rs:108-137 | a state that is still there gets its purpose, no other changes |
| `OAuth.GithubService.ConsumeState` | crates/ppb-server/src/auth/github.rs:140-147 | hands a state out exactly when it is pending, younger than 600 s and not from the future, and removes it with all states that are not |
| `OAuth.CapHolds` | crates/ppb-server/src/auth/github.rs:71-105 | in every run pending states and starts in flight number at most 2047 plus the largest number of simultaneous starts so far |
| `OAuth.CapHoldsOneAtATime` | crates/ppb-server/src/auth/github.rs:71-105 | with one start at a time, at most 2048 |
| `OAuth.CapBoundIsReached` | crates/ppb-server/src/auth/github.rs:71-105 | for every number of simultaneous starts some run reaches the bound exactly |
| `OAuthTheorems.ConsumedAtMostOnce` | crates/ppb-server/src/auth/github.rs:140-147 | no state token is consumed twice |
| `OAuthTheorems.ConsumedWhileYoung` | crates/ppb-server/src/auth/github.rs:140-147 | a state is consumed within 600 s of its allocation, even if the clock moved back between |
| `OAuthTheorems.PendingIff` | crates/ppb-server/src/auth/github.rs:71-147 | in every run an allocated state is pending exactly as long as it has not been consumed and no request has pruned at a reading at which it was 600 s old or older or from the future |
| `OAuthTheorems.StartPassesIff` | crates/ppb-server/src/auth/github.rs:71-80 | in every run a start passes the cap check exactly while fewer than 2048 young states are pending, and is turned away otherwise |
| `OAuthTheorems.UsableIff` | crates/ppb-server/src/auth/github.rs:140-147 | in every run a callback can use a state exactly when it is pending, younger than 600 s and not from the future |
| `OAuthTheorems.PurposeIff` | crates/ppb-server/src/auth/github.rs:108-137 | in every run a pending state is for a purpose exactly when a start request made for that purpose has declared it |
| `OAuthTheorems.BindsOnlyTheStarter` | crates/ppb-server/src/auth/routes.rs:513-537 | a callback that binds for a user consumed a state which a start request of that user declared |
| `OAuthTheorems.OwnerChangesOnlyByUnbind` | crates/ppb-server/src/identities/repo.rs:60-90 | an identity leaves its owner only through that owner's unbind |
| `OAuthTheorems.OwnedThroughCallback` | crates/ppb-server/src/auth/routes.rs:783-809 | every owner got the identity from a callback that bound it for them |
| `OAuthTheorems.LoginIsOfTheOwner` | crates/ppb-server/src/auth/routes.rs:692-780 | a login is of the user who owned the identity at its lookup |
| `OAuthTheorems.CallbackAnswers` | crates/ppb-server/src/auth/routes.rs:692-809 | in every run, exactly: a callback logs a user in when its state was declared by a login request and the identity was theirs at the lookup, reports a binding when the state was declared by that user's bind request and the identity was theirs or free, and refuses otherwise |
| `OAuthTheorems.ReportedBoundIff` | crates/ppb-server/src/auth/routes.rs:783-809 | in every run, a callback that reports a binding looked the identity up before, and the identity is not its user's afterwards exactly when, in between, another user's callback bound it and no unbind of it followed |
| `OAuthTheorems.SecondBinderIsMisled` | crates/ppb-server/src/auth/routes.rs:783-809 | two callbacks that both saw the identity free are both told it is theirs |
| `OAuthTheorems.SecondBinderHappens` | crates/ppb-server/src/auth/routes.rs:783-809 | a run from the start in which this happens to any two users |
| `AuthHandler.AuthService.Refresh` | crates/ppb-server/src/auth/routes.rs:397-456 | session expired is answered exactly when no session has the token, is unrevoked and is unexpired; a refreshed session is one that does, whose user has no credential or an active unexpired one; a failed gate marks that user's credential; afterwards the old token opens nothing and the fresh one that session alone |
| `SessionTheorems.InactiveForever` | crates/ppb-server/src/auth/session.rs:80-124 | a revoked session never becomes active, nor does an expired one at a clock reading that is not earlier, and nothing moves its expiry or user |
| `SessionTheorems.FindIff` | crates/ppb-server/src/auth/session.rs:80-93 | in every run a refresh finds a session exactly with the token last given to it, before the expiry it was opened with, and as long as neither it nor all sessions of its user have been revoked |
| `SessionTheorems.FoundIsOpen` | crates/ppb-server/src/auth/session.rs:80-93 | whatever a refresh finds was opened before, has not been revoked since and is unexpired |
| `SessionTheorems.NothingFoundAfterRevoke` | crates/ppb-server/src/auth/session.rs:106-124 | after a revocation of a session, or of all of its user's, no refresh finds it |
| `SessionTheorems.GatePassesIff` | crates/ppb-server/src/auth/routes.rs:412-429 | in every run the gate passes exactly the root principal, users without a credential, and users whose credential is active and unexpired |
| `SessionTheorems.CredentialIs` | crates/ppb-server/src/auth/routes.rs:412-429 | in every run a credential is that of the user's last login: active, unless it has been revoked or marked since, and then the last of these says which |
| `SessionTheorems.RotationNeverRevives` | crates/ppb-server/src/auth/routes.rs:431-442 | a rotation that overtakes a revocation leaves the session as inactive as it was, so the new token is useless |
| `SessionTheorems.RunTokens` | crates/ppb-server/src/auth/routes.rs:431-442 | in every run a session has one valid token and no token is valid for two sessions |
| `SessionTheorems.ReplacedTokenIsDead` | crates/ppb-server/src/auth/routes.rs:397-442 | a token that a rotation replaced finds no session afterwards |
| `SessionTheorems.SecondUseOverlapsTheFirst` | crates/ppb-server/src/auth/routes.rs:397-442 | a token completes a second refresh only if both found the session before the first rotation |
| `SessionTheorems.OverlappingRefreshesBothComplete` | crates/ppb-server/src/auth/routes.rs:397-442 | then both do complete, and the first new token is spent |
| `SessionTheorems.OverlapHappens` | crates/ppb-server/src/auth/routes.rs:397-442 | a run from the start in which this happens |
| `SessionTheorems.GateStaysShut` | crates/ppb-server/src/auth/routes.rs:412-429 | once the gate has refused a user, every later refresh of that user that reaches it, at a clock reading that is not earlier, is refused, until a login stores a credential |
| `SessionTheorems.ClearedBeforeStillRotates` | crates/ppb-server/src/auth/routes.rs:412-442 | a refresh that was through the gate before is not held back |
| `SessionTheorems.MarkUndoesLoginIff` | crates/ppb-server/src/auth/routes.rs:412-429 | in every run a mark follows its request's failed gate, and finds the gate open again exactly when between the two a login stored a credential still valid at the mark, with no later login, revocation or mark; the gate is then shut |
| `SessionTheorems.LateMarkUndoesLogin` | crates/ppb-server/src/auth/routes.rs:412-429 | a run from the start in which this happens to a valid credential |
| `RouteScanner.FindFunctionBody` | scripts/check-route-surface.py:70-130 | the flag-driven loop finds the body that the token-wise scan finds |
| `RouteScanner.ScannerReadsExactlyCode` | scripts/check-route-surface.py:77-130 | the scan stops at a brace exactly when what precedes it is a rendering of code: strings with escapes, line comments, nested block comments and brace groups |
| `RouteScanner.FindsTheBody` | scripts/check-route-surface.py:70-130 | the body of any such function is returned whole, whatever surrounds it |
| `RouteScanner.QuotedBraceEndsTheBody` | scripts/check-route-surface.py:117-128 | a brace in a character literal ends the body there |
| `RouteExtract.ScanCall` | scripts/check-route-surface.py:140-163 | the loop finds the parenthesis that closes the call, strings skipped |
| `RouteExtract.ExtractRouteCalls` | scripts/check-route-surface.py:133-198 | the whole loop computes the list, or the first failure |
| `RouteExtract.CallEndIff` | scripts/check-route-surface.py:140-163 | a call ends after the first parenthesis outside string literals that closes more than was opened, and is unbalanced exactly when there is none |
| `RouteExtract.ParseRouteIff` | scripts/check-route-surface.py:164-197 | the arguments fail for want of a comma outside parentheses and literals, of a literal path before the first such comma, or of a method after it, each exactly then, and give that path and those methods otherwise |
| `RouteExtract.ExtractAllOrFail` | scripts/check-route-surface.py:133-198 | for any text: no call is passed over; there is a list, with an entry for each call, exactly when all are complete and can be parsed, and otherwise the first one that cannot is what fails |
| `RouteExtract.MethodsAreSpelled` | scripts/check-route-surface.py:194-196 | the five methods are read exactly where `get`, `post`, `put`, `delete` and `patch` are written |
| `RouteExtract.ExtractorListsTheRoutes` | scripts/check-route-surface.py:133-198 | for every rendered builder chain, string literals included, the list is exactly the paths and the methods of each, in order |
| `RouteExtract.OnlyCalledAreReadIff` | scripts/check-route-surface.py:194-196 | the methods read off an expression are just the ones it calls exactly when none of its strings spells a method call |
| `RouteExtract.RouterSourceIsRead` | scripts/check-route-surface.py:70-198 | scanner and extractor together read every such router function |
| `RouteExtract.CommentedRoutesAreListedIff` | scripts/check-route-surface.py:133-198 | for a chain some of whose links stand in block comments, all are listed; just the live ones are listed exactly when no link is commented out |
| `RouteExtract.CheckSurface` | scripts/check-route-surface.py:241-255 | the gate passes exactly when runtime is frozen, exceptions and aliases together with frozen disjoint from both; a failure names exactly the frozen exceptions, frozen aliases, stale exceptions, stale aliases, undeclared or missing operations it is about |
| `CsvExport.CsvResponse` | crates/ppb-server/src/audit/routes.rs:196-218 | the loop writes the heading and one line per event |
| `CsvExport.ExportReadsBack` | crates/ppb-server/src/audit/routes.rs:196-236 | an LF-terminated reader of RFC 4180 returns the heading and every event's twelve fields, for any text in the escaped columns |
| `CsvExport.AuditCsvReadsBack` | crates/ppb-server/src/audit/routes.rs:196-200 | in particular with the export's own heading |
| `CsvExport.FieldsAreUnderTheirHeadings` | crates/ppb-server/src/audit/routes.rs:196-216 | read back, each event's row has each of its twelve fields under its own heading, by the heading's name, and a missing actor as an empty text |
| `CsvExport.ExportReadsBackIff` | crates/ppb-server/src/audit/routes.rs:196-236 | the export reads back exactly when the five columns written as they are hold no comma, quote or line feed in any event |
| `CsvExport.CommaInResultMisreads` | crates/ppb-server/src/audit/routes.rs:201-216 | a comma in any event's result makes the export misread |
| `Escapes.HtmlIsOnePass` | crates/ppb-server/src/auth/gateway.rs:353-359 | the chain of replacements is one per-character map: no replacement touches what an earlier one wrote |
| `Escapes.HtmlRoundTrip` | crates/ppb-server/src/auth/gateway.rs:353-359 | escaped text is free of markup and quotes and is read back as the text it was |
| `Escapes.ScriptIsOnePass` | crates/ppb-server/src/auth/gateway.rs:343-351 | so is the chain for inline JSON |
| `Escapes.ScriptReadsTheSame` | crates/ppb-server/src/auth/gateway.rs:343-351 | escaped JSON has none of the five characters and lexes to the same marks and code units |
| `StartupArgs.ValidateArgSpecs` | crates/ppb-server/src/deployment.rs:213-222 | the loop accepts exactly the schemas with non-empty keys and flags, NUL-free flags, distinct keys, known kinds and ordered bounds |
| `StartupArgs.Collect` | crates/ppb-server/src/deployment.rs:137-164 | the loop over the specs concatenates the words, or gives the first failure |
| `StartupArgs.ValidateStartupArgs` | crates/ppb-server/src/deployment.rs:131-165 | strangers are refused first, then the specs in order |
| `StartupArgs.SwitchWords` | crates/ppb-server/src/deployment.rs:139-148 | a switch gives its flag exactly for true, nothing for false or if absent and optional, and names what is missing or mistyped |
| `StartupArgs.NumberWords` | crates/ppb-server/src/deployment.rs:139-153 | a number gives flag and digits exactly if it fits 64 bits and the bounds that are set; otherwise the error is a wrong type or a wrong range, exactly |
| `StartupArgs.TextWords` | crates/ppb-server/src/deployment.rs:139-160 | a text gives flag and text exactly if it is not empty, has no NUL, has at most the limit's bytes (256 unless set, clamped to 1 to 4096) and is among the allowed values if any; each error has its exact condition |
| `StartupArgs.EncodingFailsWith` | crates/ppb-server/src/deployment.rs:131-165 | exactly which error is answered: a submission that is no object, its first key that is not allowlisted, or the first spec that refuses |
| `StartupArgs.EncodingSucceedsIff` | crates/ppb-server/src/deployment.rs:131-165 | encoding succeeds exactly when all keys are allowlisted, required ones present and present values suitable; at most two words per spec |
| `StartupArgs.DecimalReadsBack` | crates/ppb-server/src/deployment.rs:149-153 | a printed number is read back, negative ones included |
| `StartupArgs.DecimalIs` | crates/ppb-server/src/deployment.rs:149-153 | numbers are written digit by digit, in `0123456789`, with a minus sign in front if negative |
| `StartupArgs.CommandLineReadsBack` | crates/ppb-server/src/deployment.rs:131-165 | without a clash of flags the command line gives back every submitted argument except false booleans |
| `StartupArgs.ClashMisreads` | crates/ppb-server/src/deployment.rs:131-165 | for every clash in a schema that accepts something, a submission that is accepted and does not read back |
| `StartupArgs.ReadsBackIff` | crates/ppb-server/src/deployment.rs:131-222 | every accepted submission reads back exactly when no two specs share a flag where all specs from the first up to the second may be silent and the second can add words, or when a required argument has no acceptable value |
| `StartupArgs.SharedFlagHidesTheKey` | crates/ppb-server/src/deployment.rs:213-222 | two optional switches with one flag are an accepted schema with such a clash, and encode two different submissions alike |
| `Utf8.TruncateUtf8` | crates/ppb-server/src/deployment.rs:229-234 | the loop keeps the longest prefix of whole characters within the limit and adds an ellipsis, stepping back at most three bytes |
| `Utf8.TruncatedIsLongest` | crates/ppb-server/src/deployment.rs:229-234 | one more character would not have fitted, and at most three bytes of room are left |
| `Utf8.EllipsisIsOneCharacter` | crates/ppb-server/src/deployment.rs:233-233 | the three bytes appended are the encoding of U+2026 |
| `Utf8.EncodeReadsBack` | crates/ppb-server/src/deployment.rs:229-234 | every character is read back from its one to four bytes, as many as its range asks for |
| `Utf8.BoundaryAround` | crates/ppb-server/src/deployment.rs:232-232 | within the character at the limit, its first byte is the only boundary |

## Left out

- HTTP routing, cookies, streams, generated types, deployment scripts: no state to prove anything about.
- PostgreSQL, JSON and YAML parsing and printing, hashing, random tokens and identifiers: tables are maps, YAML and JSON printing and parsing is the identity on trees with 64-bit integers, hashing is injective, drawn tokens and ids are fresh.
- Network calls, processes and files: events whose outcome is arbitrary. A database is assumed to be configured and its writes to succeed, and a command's own work to return.
- Console commands (`execute_command` in `crates/ppb-server/src/actions/routes.rs`), server, plugin and broadcast routes: they bypass the broker.
- `redact_args`, `fixed_cli_command`, `normalize_openuds_args`, `pmp_config_groups`, `ppf_build_environment`: settled by one case each.
- The `runbook_runs` row: a call that aborts leaves it as it was started.
- Saving, snapshots and rollback of the configuration file, and deserialising and validating after `apply_overrides`.
- The actions of a redemption code (groups, jobs, notifications), `validate_action`, code normalisation and generation: an action is an arbitrary effect that happens with its transaction or fails it.
- Rate limits, consent records, redirects and the root login around the OAuth callback; `logout` beyond its revocation.
- Trees (`ConfigTree`, `Overrides`) are values: updating a subtree in place through a mutable reference is rebuilding it.
- The concurrent objects (broker, join-intent store, OAuth states) have each method verified as one uninterrupted call; the interleavings are those of the run models, whose steps are at most one such call.
- The clock is not assumed to go forward. `CouponRuns.InactiveForever`, `SessionTheorems.InactiveForever`, `SessionTheorems.GateStaysShut` and `SessionTheorems.MarkUndoesLoginIff` say of an expiry only what holds when the later reading is not an earlier time; set back, an expired coupon, session or credential is unexpired again.
- Executor.Records.Complete: a cut of the error text at byte 120 that falls inside a character keeps the whole characters before it; the source's slice panics there, which is not modelled.
- RouteScanner.FindsTheBody: the regular expression that finds the function header is not modelled; its match position is given.
- RouteExtract.ExtractorListsTheRoutes: white space and word characters are the ASCII ones, and methods are counted at every depth of nesting and in strings, as the regular expression does.
- RouteExtract.CheckSurface: reading the OpenAPI document and the manifest, and prefixing paths, are not modelled; the four sets are given.
- Escapes.ScriptReadsTheSame: code units are compared, pairs of surrogates are not combined; JSON outside strings is only assumed to be without the five characters.
