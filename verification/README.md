# Verified models of the equipment management system

Dafny models of the state machines and algorithms behind the front end, the inspection templates and
the maintenance scripts, with proofs of what they promise over every run. `dafny verify dfyconfig.toml`
checks all of it.

| file | what it models |
|---|---|
| `RowSelection.dfy` | row selection: a selected set, a capped insertion-ordered snapshot map, and the queue of state updaters between them |
| `TokenRefresh.dfy` | the session callback: single-flight token refresh and the absolute session lifetime |
| `OptimisticMutation.dfy` | optimistic mutations with an undo window over a shared query cache and a server |
| `TemplateChain.dfy` | the version chain of an inspection template: service, automatic creation, and the forms that fork it |
| `Backfill.dfy` | the script that makes first template versions |
| `UndoableState.dfy` | bounded undo and redo, refining a timeline with a cursor |
| `RateLimiter.dfy` | the fixed-window limiter of the error reporter |
| `IdleTimeout.dfy` | idle logout with throttled input and a countdown |
| `WorkerPool.dfy` | the worker pool of the service worker |
| `CacheExpiration.dfy` | cache expiration in the service worker |
| `SavedViews.dfy` | reordering saved views |
| `ConditionText.dfy`, `ExpressionText.dfy`, `RewriteLoop.dfy`, `ButtonLoading.dfy` | the button-loading codemod: text of conditions, when a text is an expression, the rewriting loop, and all of it together |
| `StripComments.dfy` | comment stripping that keeps line numbers |
| `HistoryHandlers.dfy` | the history lists of the equipment form in create mode |
| `Options.dfy`, `Sorting.dfy` | a missing value; stable sorting by a numeric key |

A component that runs in steps has a `State`, an `Event` type and a total function `Step`; `Run` folds
it over any sequence of events, so a statement about `Run` holds for every interleaving. The class
beside it does what the source does, statement by statement, and its methods are proved equal to `Step`.

## Findings

Where a promise does not hold as stated, the exact condition is proved, with a run or an input that
shows the failure.

| source | what the code does | instance | exact condition |
|---|---|---|---|
| apps/frontend/hooks/use-bulk-selection.ts:135-146 | Select-all-on-page does not always select the page: with a full map it can push out rows of the page itself. | `SelectAllCanMissARow` | `RowSelection.SelectAllOnPageSelectsPage` |
| apps/frontend/hooks/use-bulk-selection.ts:67-95 | The snapshot map is called LRU; it evicts by age of insertion, and refreshing a snapshot does not protect it. | `RefreshedRowIsEvicted` | `RowSelection.FirstInFirstOut` |
| apps/frontend/hooks/use-optimistic-mutation.tsx:247-248 | Opening a second undo window of a hook makes the first one impossible to undo. | in every run: `SecondWindowSupersedesFirst`, `SupersededWindowCannotBeUndone` | `OptimisticMutation.AbortReachesOnlyTheLatestWindow` |
| apps/frontend/hooks/use-optimistic-mutation.tsx:238-268 | Undo after the timer fired reports an undo although the call is under way; when its change lands after the refetch, the cache stays on the old value. | `AbortAfterFireLeavesStaleCache` | `OptimisticMutation.RestIsSafeIff` |
| apps/backend/src/modules/inspection-form-templates/inspection-form-templates.service.ts:270-277 | A form whose template was replaced before it sent its upsert is told "bad request", not "conflict"; only one overtaken between read and commit gets the conflict message. | `ReplacedBeforeSending`, `ReplacedAfterSending` | `TemplateChain.BadRequestIffStale`, `CommitIsCompareAndSwap` |
| apps/backend/scripts/backfill-inspection-templates.ts:92-104 | The backfill takes an approved inspection without an approval time as the latest, because a descending order puts missing times first. | `UntimedInspectionWins` | `Backfill.SourceIsLatestUnlessOneHasNoTime` |
| apps/backend/scripts/backfill-inspection-templates.ts:181-206 | The backfill can never succeed for equipment whose version 1 is superseded or deleted and has no live successor. | `SupersededFirstVersionBlocks` | `Backfill.DeadFirstVersionAlwaysFails` |
| apps/frontend/lib/error-reporter.ts:41-58 | The error reporter's "ten a minute" is twenty in the worst minute. | `TwentyWithinAMillisecond` | `RateLimiter.MinuteLetsThrough` |
| apps/frontend/hooks/use-idle-timeout.ts:74-79 | A throttled input lets the idle logout come up to five seconds early. | `ThrottledInputShortensTheTimeout` | `IdleTimeout.InputBuysThirtyMinutesIff` |
| apps/frontend/public/sw.js:951-959 | A precache task that rejects leaves the pool unresolved. | `OneOfTwoRejected` | `WorkerPool.CanResolveIff` |
| apps/frontend/public/sw.js:959-963 | A pool of size 0 resolves without running anything. | in every run | `WorkerPool.EmptyPoolRunsNothing` |
| scripts/codemods/button-loading.ts:56-64 | The codemod changes when a button can be used if a pending condition sits behind "&&". | `GuardedPendingChangesBehaviour` | `ButtonLoading.RunKeepsUseIff` |
| scripts/codemods/button-loading.ts:56-64 | The codemod cuts through parentheses, conditionals and strings, and what it inserts then need not be an expression. | `ParenthesesComeApart`, `ConditionalComesApart`, `StringComesApart` | `ButtonLoading.ExtractIsExpressionIff` |

## Assumptions

- A state updater runs when its turn in the queue comes, never inside the call that queues it, as React may do for the first one; it runs alone, and what it queues while running waits behind everything queued before.
- The backend mints a refresh token once; a request to it always suspends its caller.
- The owner of an undoable value applies a change before the next operation; a clone equals its original.
- Of the query library: cancelling drops a fetch on the way, writing data clears the stale mark, invalidating marks an entry stale and drops its fetch, a completed fetch stores what the server held when it answered.
- Clocks do not run backwards, and the idle timer starts more than five seconds into the epoch. Time is a parameter of every step that reads it.
- Template ids are unique, the unique constraint on equipment, type and version is enforced, and no template of the chain is deleted.
- The ids of saved views are unique; temporary history ids are fresh.
- The conditions of a `disabled` expression are independent of each other, and a button is out of use when it is disabled or loading (`apps/frontend/components/ui/button.tsx:181`).

## Model

| member | source | states |
|---|---|---|
| `RowSelection.DrainedSelectionIsConsistent` | apps/frontend/hooks/use-bulk-selection.ts:58-163 | after any run of calls in any batching, once no updater is queued every selected key has a snapshot, at most `maxSnapshots` snapshots are kept (a cap of 0 acts as 1), and `selectedItems` lists each selected key once, so it has exactly `count` entries |
| `RowSelection.StepKeepsInv` | apps/frontend/hooks/use-bulk-selection.ts:67-151 | each call and each updater run keeps the map well formed and within its cap, and a selected key without a snapshot always has an eviction or a clear still queued |
| `RowSelection.Drain` | apps/frontend/hooks/use-bulk-selection.ts:67-95 | the evictions updaters queue while they run come to an end: the queue empties |
| `RowSelection.ToggleEffect` | apps/frontend/hooks/use-bulk-selection.ts:97-113 | once settled, a toggle has flipped its own key if it may, stored or dropped its row, and touched no other key or row, except that a full map has given up its oldest |
| `RowSelection.SetToEffect` | apps/frontend/hooks/use-bulk-selection.ts:115-133 | once settled, the key is as asked and its row stored or dropped, an unselectable row stays out, repeating the value changes nothing, and only the oldest key of a full map drops out besides |
| `RowSelection.ClearWins` | apps/frontend/hooks/use-bulk-selection.ts:58-65 | a clear or reset leaves nothing selected whatever calls before it are still queued and whatever they evict |
| `RowSelection.ClearLeavesNothing` | apps/frontend/hooks/use-bulk-selection.ts:148-151 | a clear on a settled selection leaves the hook as it began, snapshots included |
| `RowSelection.SelectAllOnPageSelectsPage` | apps/frontend/hooks/use-bulk-selection.ts:135-146 | selecting the page selects every row of it if and only if its new keys fit under the cap and none of the oldest entries they push out is on the page |
| `RowSelection.SelectAllSelectsEverySelectable` | apps/frontend/hooks/use-bulk-selection.ts:135-146 | from the page to the selection: every selectable row of the page ends up selected if and only if those rows fit |
| `RowSelection.FittingPageEffect` | apps/frontend/hooks/use-bulk-selection.ts:135-146 | rows that fit are selected, what was selected stays so, and exactly as many of the oldest entries drop out as have to make room |
| `RowSelection.SelectableInOrder` | apps/frontend/hooks/use-bulk-selection.ts:136-136 | the filter takes every selectable row of the page and no other, in the order of the page |
| `RowSelection.SelectableIsFilter` | apps/frontend/hooks/use-bulk-selection.ts:136-136 | a row is queued as often as it is on the page if it is selectable, and else not at all |
| `RowSelection.SelectAllCanMissARow` | apps/frontend/hooks/use-bulk-selection.ts:67-95 | a page of two rows under a cap of two, reached by calls of the hook, where one row of the page ends up unselected |
| `RowSelection.RefreshedRowIsEvicted` | apps/frontend/hooks/use-bulk-selection.ts:67-95 | a page that refreshes the oldest row and adds one: the row just refreshed is evicted and unselected, the one used less recently stays |
| `RowSelection.SelectAllStoresTheRows` | apps/frontend/hooks/use-bulk-selection.ts:135-146 | the snapshot of a page row that is kept is the row of the page |
| `RowSelection.FirstInFirstOut` | apps/frontend/hooks/use-bulk-selection.ts:74-92 | evictions follow insertion order: an update in place does not make a key younger |
| `RowSelection.SelectedKeysInOrder` | apps/frontend/hooks/use-bulk-selection.ts:156-163 | the selected items come in insertion order, each selected key of the map once |
| `RowSelection.Selection.AddSnapshot` | apps/frontend/hooks/use-bulk-selection.ts:67-95 | updates in place, or evicts the oldest key of a full map and queues its removal, and inserts |
| `RowSelection.Selection.RunOldest` | apps/frontend/hooks/use-bulk-selection.ts:97-146 | runs the oldest queued updater as the source writes it |
| `RowSelection.Selection.AddPage` | apps/frontend/hooks/use-bulk-selection.ts:137-145 | the loop of the select-all updater adds the rows one by one, evictions included |
| `RowSelection.Selection.ClearAll` | apps/frontend/hooks/use-bulk-selection.ts:148-151 | queues the clearing of the selection and empties the map at once |
| `RowSelection.Selection.SelectAllOnPage` | apps/frontend/hooks/use-bulk-selection.ts:135-137 | queues the selectable rows of the page, filtered at the call |
| `RowSelection.Selection.SelectedItems` | apps/frontend/hooks/use-bulk-selection.ts:156-163 | the snapshots of the selected keys in insertion order |
| `TokenRefresh.AtMostOneRefreshPerToken` | apps/frontend/lib/auth.ts:96-161 | under every interleaving the in-flight map holds exactly the refresh tokens of the outstanding requests, and no two of those share a token |
| `TokenRefresh.JoinedCallersShareTheResult` | apps/frontend/lib/auth.ts:110-115 | a caller that joined gets the result of its leader, who presented the same refresh token for the same session; the result is the same token, that token expired, or a refreshed one |
| `TokenRefresh.RefreshTokenNamesItsSession` | apps/frontend/lib/auth.ts:110-160 | two cookies with the same refresh token belong to the same session and carry the same start |
| `TokenRefresh.SessionStartNeverChanges` | apps/frontend/lib/auth.ts:140-146 | every completed callback returns the session start of the token presented, which is the time of that session's login |
| `TokenRefresh.OldSessionMustLogInAgain` | apps/frontend/lib/auth.ts:476-505 | past thirty days any cookie of the session gets the expired error at once and no request starts; otherwise a refresh happens exactly within sixty seconds of expiry, with a new request only if none is under way for the token |
| `TokenRefresh.ThirtyDaysEndEverySession` | apps/frontend/lib/auth.ts:476-487 | more than 2 592 000 seconds of clock after its login, a session gets the expired error and starts no request, whatever happened in between |
| `TokenRefresh.LoginPresentsTheSignIn` | apps/frontend/lib/auth.ts:461-505 | a login presents the access token, refresh token and expiry of the sign-in and the time it happened; it is answered with them at once and without a request, unless they are due to be refreshed, and then exactly one request starts |
| `TokenRefresh.WaitingCallCompletes` | apps/frontend/lib/auth.ts:147-156 | a waiting call is completed by one response and its hand-over, whatever the response; the map entry is cleared with the response |
| `TokenRefresh.NextCallbackAfterResponse` | apps/frontend/lib/auth.ts:125-156 | whoever waited for a response and calls again with the cookie it got: a granted token that is not yet due is returned as it is, without error and without a request; after a refusal or an outage, or when due again, exactly one new request starts, since none is left to join; past thirty days neither |
| `TokenRefresh.Auth.RefreshAccessToken` | apps/frontend/lib/auth.ts:102-161 | joins the request under way for the token or registers a new one |
| `TokenRefresh.Auth.CheckToken` | apps/frontend/lib/auth.ts:476-505 | lifetime check first, then the refresh check |
| `TokenRefresh.Auth.JwtAtLogin` | apps/frontend/lib/auth.ts:461-474 | stamps the session start at login and falls through to the same checks |
| `TokenRefresh.Auth.OnResponse` | apps/frontend/lib/auth.ts:125-156 | settles the leader's promise and clears the map entry |
| `OptimisticMutation.NoGuessSurvives` | apps/frontend/hooks/use-optimistic-mutation.tsx:288-312 | for any overlap of mutations, successes, failures and undos: once all have settled and stale entries are fetched again, no entry holds a value written optimistically |
| `OptimisticMutation.CacheAgreesOutsideDrift` | apps/frontend/hooks/use-optimistic-mutation.tsx:412-419 | then every entry equals the server's value, except where a server change landed with no invalidation still to come |
| `OptimisticMutation.PromptCacheAgrees` | apps/frontend/hooks/use-optimistic-mutation.tsx:412-419 | if every server change lands before its mutation settles and within the keys it invalidates, the settled cache is the server's data entry by entry |
| `OptimisticMutation.RestIsSafeIff` | apps/frontend/hooks/use-optimistic-mutation.tsx:238-268 | from a state at rest whose cache agrees with the server, every later rest short of a new mutation agrees again if and only if no call is still on its way |
| `OptimisticMutation.AbortAfterFireLeavesStaleCache` | apps/frontend/hooks/use-optimistic-mutation.tsx:238-268 | a run that undoes after the timer fired: the promise is rejected, the call lands later, and everything is at rest on the old value |
| `OptimisticMutation.GuessStaysUntilRefetched` | apps/frontend/hooks/use-optimistic-mutation.tsx:288-308 | the guess is written into the entries meant and no other, and stays there through landings, responses, errors, undos and invalidations until another guess covers it or a fetch begun after the mutation completes: no fetch on the way when the mutation began replaces it |
| `OptimisticMutation.ServerCalledOnceUnlessUndone` | apps/frontend/hooks/use-optimistic-mutation.tsx:243-268 | at most one server call and one settlement each; a settled mutation called the server exactly once unless its window was undone, and then never |
| `OptimisticMutation.EveryMutationCanFinish` | apps/frontend/hooks/use-optimistic-mutation.tsx:243-268 | from any moment of any run a mutation's own next events, without an abort, settle it once and finish it: the call made unless it was undone before, everything it covers stale, no other mutation touched |
| `OptimisticMutation.CallGoesOut` | apps/frontend/hooks/use-optimistic-mutation.tsx:243-256 | after the guess the call goes out at once, or the window opens and the call goes out when the timer fires |
| `OptimisticMutation.CallLands` | apps/frontend/hooks/use-optimistic-mutation.tsx:245-253 | a call on its way changes on the server exactly what it is meant to |
| `OptimisticMutation.ResponseSettles` | apps/frontend/hooks/use-optimistic-mutation.tsx:252-256 | a response settles its mutation, whatever it says, and nothing else |
| `OptimisticMutation.SettlingInvalidates` | apps/frontend/hooks/use-optimistic-mutation.tsx:412-419 | settling finishes the mutation and makes stale exactly the entries under its query key or an invalidate key |
| `OptimisticMutation.AbortReachesOnlyTheLatestWindow` | apps/frontend/hooks/use-optimistic-mutation.tsx:238-241 | an abort undoes a mutation if and only if it is the one its hook opened last, not aborted before, and still waiting; it changes no other |
| `OptimisticMutation.SupersededWindowCannotBeUndone` | apps/frontend/hooks/use-optimistic-mutation.tsx:247-248 | a window whose controller was overwritten is never undone by any later event, and its call goes out |
| `OptimisticMutation.SecondWindowSupersedesFirst` | apps/frontend/hooks/use-optimistic-mutation.tsx:247-248 | opening a second window of the same hook overwrites the controller of the first |
| `OptimisticMutation.StepKeepsInv` | apps/frontend/hooks/use-optimistic-mutation.tsx:236-426 | each step keeps: a guess is stale or will be invalidated, data that differs from the server is stale or will be, call and settlement counts match the phase, controllers point to the latest window |
| `OptimisticMutation.SettledCache` | apps/frontend/hooks/use-optimistic-mutation.tsx:412-419 | settling marks stale exactly the entries under the query key or one of the invalidate keys |
| `OptimisticMutation.Mutations.OnMutateResumes` | apps/frontend/hooks/use-optimistic-mutation.tsx:299-308 | writes the guess in the configured scope, then calls the server or opens the window |
| `OptimisticMutation.Mutations.AbortUndo` | apps/frontend/hooks/use-optimistic-mutation.tsx:238-241 | aborts the controller held and forgets it |
| `OptimisticMutation.Mutations.TimerFires` | apps/frontend/hooks/use-optimistic-mutation.tsx:249-256 | the call is made; the abort signal is never found set there |
| `OptimisticMutation.Mutations.OnResponse` | apps/frontend/hooks/use-optimistic-mutation.tsx:252-256 | the promise of the call settles that of the mutation |
| `OptimisticMutation.Mutations.OnSettled` | apps/frontend/hooks/use-optimistic-mutation.tsx:412-419 | invalidates the query key and each further key in turn |
| `TemplateChain.OneLinearChain` | apps/backend/src/modules/inspection-form-templates/inspection-form-templates.service.ts:247-325 | for any interleaving of reads and commits, by forms, administrators and automatic creation: versions are 1, 2, 3, ..., each superseded by the next, and exactly the last is current |
| `TemplateChain.CommitIsCompareAndSwap` | apps/backend/src/modules/inspection-form-templates/inspection-form-templates.service.ts:267-325 | a validated upsert is accepted if and only if it would pass the check against the table at the moment of its commit, which is when nobody committed since its read; otherwise conflict |
| `TemplateChain.NoLostUpdate` | apps/backend/src/modules/inspection-form-templates/inspection-form-templates.service.ts:270-322 | an accepted upsert is a row with its structure and version, and the row before it is the base it named |
| `TemplateChain.BadRequestIffStale` | apps/backend/src/modules/inspection-form-templates/inspection-form-templates.service.ts:267-286 | the upsert of a form gets the bad-request answer if and only if the template the form last fetched is no longer the current one when it arrives; otherwise it passes the checks |
| `TemplateChain.ChecksPassIff` | apps/backend/src/modules/inspection-form-templates/inspection-form-templates.service.ts:267-286 | an upsert from anyone passes the checks if and only if it names the next version and, if there is a template, the current one as its base |
| `TemplateChain.ReplacedBeforeSending` | apps/backend/src/modules/inspection-form-templates/inspection-form-templates.service.ts:270-277 | a run in which an administrator's version is committed before the form sends its upsert: bad request |
| `TemplateChain.ReplacedAfterSending` | apps/backend/src/modules/inspection-form-templates/inspection-form-templates.service.ts:288-325 | the same run with the commit after the form's read: conflict |
| `TemplateChain.RefetchedForkIsAccepted` | apps/frontend/hooks/use-inspection-fork.ts:164-180 | a form that fetched the current template and is not overtaken gets the next version in and creates its inspection when the answer arrives |
| `TemplateChain.InspectionFollowsItsUpsert` | apps/frontend/hooks/use-inspection-fork.ts:164-180 | under apply-forward an inspection is created only after its own upsert was accepted and is in the chain, with the contents of the moment of choice, once for each upsert |
| `TemplateChain.SubmissionEffect` | apps/frontend/hooks/use-inspection-fork.ts:134-152 | a submission creates its inspection straight away if and only if it is valid and the feature is off, no template is known or nothing changed; otherwise a valid one waits with its contents and the dialog open, and an invalid one does nothing |
| `TemplateChain.ChoiceWithoutUpsert` | apps/frontend/hooks/use-inspection-fork.ts:154-162 | "this one only" creates the waiting inspection and closes the dialog, "cancel" changes nothing, and neither sends an upsert |
| `TemplateChain.ApplyForwardSends` | apps/frontend/hooks/use-inspection-fork.ts:164-175 | "apply forward" sends one upsert, the next version on the template the form knows with the form's structure, and creates nothing yet |
| `TemplateChain.AnswerEffect` | apps/frontend/hooks/use-inspection-fork.ts:176-180 | an accepted answer creates the inspection and closes the dialog; any other creates nothing and leaves the form as it is |
| `TemplateChain.AutoCreateMakesTheFirst` | apps/backend/src/modules/inspection-form-templates/inspection-form-templates.service.ts:292-325 | automatic creation makes version 1 where there is no template, and steps back where there is one |
| `TemplateChain.VersionGuardsHead` | apps/backend/src/modules/inspection-form-templates/inspection-form-templates.service.ts:279-286 | the version an upsert asks for is taken if and only if its base is no longer the head |
| `TemplateChain.CurrentIsLast` | apps/backend/src/modules/inspection-form-templates/inspection-form-templates.service.ts:74-92 | the current template of a chain is its last row |
| `TemplateChain.TemplateService.Current` | apps/backend/src/modules/inspection-form-templates/inspection-form-templates.service.ts:74-92 | finds the row not superseded |
| `TemplateChain.TemplateService.BeginUpsert` | apps/backend/src/modules/inspection-form-templates/inspection-form-templates.service.ts:267-286 | rejects a stale base or a wrong version against what was read |
| `TemplateChain.TemplateService.CommitUpsert` | apps/backend/src/modules/inspection-form-templates/inspection-form-templates.service.ts:292-325 | inserts unless the version exists, and marks the base superseded |
| `TemplateChain.ForkForm.HandleSubmit` | apps/frontend/hooks/use-inspection-fork.ts:134-152 | creates at once, or keeps the form contents and asks |
| `TemplateChain.ForkForm.HandleForkChoice` | apps/frontend/hooks/use-inspection-fork.ts:154-175 | creates for this inspection only, or sends the next version on the template last fetched |
| `Backfill.SourceIsLatestUnlessOneHasNoTime` | apps/backend/scripts/backfill-inspection-templates.ts:92-104 | the source of a template is the last approved inspection of its equipment if and only if no approved one lacks an approval time |
| `Backfill.UntimedInspectionWins` | apps/backend/scripts/backfill-inspection-templates.ts:92-104 | two approved inspections, one without an approval time: that one is the source |
| `Backfill.OneResultPerEquipment` | apps/backend/scripts/backfill-inspection-templates.ts:98-207 | each distinct equipment of the query gets exactly one result |
| `Backfill.ResultsAreIndependent` | apps/backend/scripts/backfill-inspection-templates.ts:112-207 | each result and each live template depends only on the state before the run and its own equipment; a dry run writes nothing |
| `Backfill.ResultMeans` | apps/backend/scripts/backfill-inspection-templates.ts:112-207 | in a real run: created if and only if there is content, no live template, no version 1 and a working insert, and then version 1 is there, live, with the inspection's structure; skipped if and only if there is a live template or no content |
| `Backfill.OneLiveTemplateIsKept` | apps/backend/scripts/backfill-inspection-templates.ts:112-136 | at most one live template for each equipment and kind is kept |
| `Backfill.SecondRunRetriesOnlyFailures` | apps/backend/scripts/backfill-inspection-templates.ts:112-207 | a second run skips all but what failed, and after a run without failures writes nothing |
| `Backfill.DryRunAnnouncesTheAttempts` | apps/backend/scripts/backfill-inspection-templates.ts:170-206 | a dry run reports as created exactly the equipment for which a real run attempts the insert |
| `Backfill.DeadFirstVersionAlwaysFails` | apps/backend/scripts/backfill-inspection-templates.ts:181-206 | with the database up a failure means a superseded or deleted version 1 and no live template, and every rerun fails again |
| `Backfill.SupersededFirstVersionBlocks` | apps/backend/scripts/backfill-inspection-templates.ts:181-206 | a table with version 1 superseded by a version 2 that was deleted: the run reports a failure and writes nothing |
| `Backfill.OnlyFirstVersionsAreAdded` | apps/backend/scripts/backfill-inspection-templates.ts:181-191 | existing templates are untouched; each new one is the live version 1 made from a listed, non-empty inspection |
| `Backfill.LatestIsFirstRows` | apps/backend/scripts/backfill-inspection-templates.ts:98-104 | the grouping keeps one row for each equipment of the query, its first |
| `Backfill.TemplateTable.Backfill` | apps/backend/scripts/backfill-inspection-templates.ts:98-209 | the two loops of the script |
| `Backfill.TemplateTable.Insert` | apps/backend/scripts/backfill-inspection-templates.ts:181-206 | inserts unless the version exists or the database refuses |
| `UndoableState.StacksStayBounded` | apps/frontend/hooks/use-undoable-state.ts:71-95 | both stacks together never exceed `limit`, so the trim in redo never fires |
| `UndoableState.UndoRedoInverse` | apps/frontend/hooks/use-undoable-state.ts:78-95 | undo then redo, and redo then undo, restore value and stacks |
| `UndoableState.StepRefinesMove` | apps/frontend/hooks/use-undoable-state.ts:71-95 | every operation is the corresponding move on a timeline with a cursor |
| `UndoableState.TravelKeepsTimeline` | apps/frontend/hooks/use-undoable-state.ts:78-95 | any mix of undos and redos leaves the timeline unchanged |
| `UndoableState.UndoRestoresEarlierValue` | apps/frontend/hooks/use-undoable-state.ts:71-85 | after any use of the hook and any further edits, `k` undos give the value of `k` edits ago, those that could be undone before included, for as many as there are within the limit |
| `UndoableState.UndoableHook.PushSnapshot` | apps/frontend/hooks/use-undoable-state.ts:71-76 | saves the current value, drops the oldest beyond the limit, forgets the redo stack |
| `UndoableState.UndoableHook.UndoLast` | apps/frontend/hooks/use-undoable-state.ts:78-85 | undo, with the two flags kept right |
| `UndoableState.UndoableHook.RedoLast` | apps/frontend/hooks/use-undoable-state.ts:87-95 | redo, with the two flags kept right |
| `RateLimiter.AtMostTwentyInAnyMinute` | apps/frontend/lib/error-reporter.ts:41-58 | any half-open minute lets at most twenty reports through |
| `RateLimiter.TwentyWithinAMillisecond` | apps/frontend/lib/error-reporter.ts:41-58 | calls that get twenty through within a millisecond |
| `RateLimiter.AtMostTenInAWindow` | apps/frontend/lib/error-reporter.ts:47-58 | the minute from a window start lets at most ten through, and the next window starts no earlier than its end |
| `RateLimiter.AtMostTenUnlessAWindowBegins` | apps/frontend/lib/error-reporter.ts:47-58 | a minute with no window beginning strictly inside it lets at most ten through |
| `RateLimiter.MinuteLetsThrough` | apps/frontend/lib/error-reporter.ts:41-58 | exactly how many reports a minute lets through, from the limiter before it and the calls in it; more than ten if and only if the old window takes some and the calls after its end are more than ten less those |
| `RateLimiter.TurnedAwayOnlyAfterTen` | apps/frontend/lib/error-reporter.ts:53-55 | a report is turned away if and only if ten went through in the window that is still open |
| `RateLimiter.ErrorReporter.IsRateLimited` | apps/frontend/lib/error-reporter.ts:47-58 | the limiter step |
| `IdleTimeout.LogoutMeansIdle` | apps/frontend/hooks/use-idle-timeout.ts:73-91 | a tick logs out only if every input seen, throttled ones included, is more than 1795 s back and every continue at least 1800 s |
| `IdleTimeout.LogoutIsPrompt` | apps/frontend/hooks/use-idle-timeout.ts:86-91 | over any run with a tick in every second: the tab is logged out no later than 1801 s after the activity on record |
| `IdleTimeout.LoggedOutIff` | apps/frontend/hooks/use-idle-timeout.ts:86-91 | a tab is logged out if and only if some tick came at least 1800 s after the activity on record |
| `IdleTimeout.AcceptedInputBuysThirtyMinutes` | apps/frontend/hooks/use-idle-timeout.ts:74-91 | after an input that is not throttled a tick logs out if and only if 1800 s have passed |
| `IdleTimeout.InputBuysThirtyMinutesIff` | apps/frontend/hooks/use-idle-timeout.ts:74-91 | no tick within 1800 s of an input logs out if and only if the input is not throttled or activity is on record for that very moment |
| `IdleTimeout.ThrottledInputShortensTheTimeout` | apps/frontend/hooks/use-idle-timeout.ts:74-79 | a run logged out 1795.001 s after its last input |
| `IdleTimeout.WarningCountsDown` | apps/frontend/hooks/use-idle-timeout.ts:92-102 | the warning shows exactly in the last 300 s, with the whole seconds left, between 1 and 300 |
| `IdleTimeout.ActivityHidesWarning` | apps/frontend/hooks/use-idle-timeout.ts:35-42 | "continue", and an input no other preceded by less than five seconds, is recorded and hides the warning at once |
| `IdleTimeout.LogoutIsFinal` | apps/frontend/hooks/use-idle-timeout.ts:44-58 | a logged-out tab stays logged out |
| `IdleTimeout.IdleHook.HandleActivity` | apps/frontend/hooks/use-idle-timeout.ts:74-79 | throttled reset |
| `IdleTimeout.IdleHook.ResetTimer` | apps/frontend/hooks/use-idle-timeout.ts:35-42 | records the activity and hides a visible warning |
| `IdleTimeout.IdleHook.OnTick` | apps/frontend/hooks/use-idle-timeout.ts:86-103 | logout, warning or nothing |
| `WorkerPool.ResultsInInputOrder` | apps/frontend/public/sw.js:948-964 | for any pool size of at least 1 and any interleaving, if the pool resolves it returns every item's own result in input order |
| `WorkerPool.ResolvesWhenAllAreNoted` | apps/frontend/public/sw.js:951-958 | at every moment each item is on the stack, with one worker, or noted once; the pool resolves if and only if all are noted |
| `WorkerPool.TakenFromTheEnd` | apps/frontend/public/sw.js:953-954 | items are taken from the end of the list |
| `WorkerPool.CanResolveIff` | apps/frontend/public/sw.js:951-960 | at every moment of every run the pool can still resolve if and only if no task was rejected so far |
| `WorkerPool.RejectionHangsThePool` | apps/frontend/public/sw.js:951-959 | after a rejected task the pool never resolves, whatever else completes |
| `WorkerPool.OneOfTwoRejected` | apps/frontend/public/sw.js:951-959 | two items and two workers: one task rejected, the other done, and the pool hangs |
| `WorkerPool.EmptyPoolRunsNothing` | apps/frontend/public/sw.js:959-963 | with no workers the pool resolves at once and runs nothing |
| `WorkerPool.Pool.OnComplete` | apps/frontend/public/sw.js:953-957 | notes the result and takes the next item |
| `WorkerPool.Pool.Collect` | apps/frontend/public/sw.js:960-963 | flattens, sorts by index and keeps the results |
| `CacheExpiration.LimitsHold` | apps/frontend/public/sw.js:1005-1017 | at most `maxEntries` rows of the cache remain, none older than the cutoff; a row young enough goes only if there is a limit and exactly that many remain |
| `CacheExpiration.CounterCountsOwnRows` | apps/frontend/public/sw.js:1011-1014 | for a row that is not too old the counter is the number of newer rows of its cache, up to the limit |
| `CacheExpiration.NewerRowsStayFirst` | apps/frontend/public/sw.js:1010-1014 | no row of the cache stays while a newer one goes |
| `CacheExpiration.OtherCachesUntouched` | apps/frontend/public/sw.js:1012-1012 | rows of other caches stay in order |
| `CacheExpiration.KeptOrReported` | apps/frontend/public/sw.js:1012-1016 | every row is kept or its url returned, and only urls of expired own rows are returned |
| `CacheExpiration.SweepIsIdempotent` | apps/frontend/public/sw.js:1005-1017 | a second sweep with the same limits deletes nothing |
| `CacheExpiration.TimestampStore.ExpireEntries` | apps/frontend/public/sw.js:1005-1017 | the cursor loop leaves exactly the rows that stay and returns the urls of the others |
| `SavedViews.MoveSwapsNeighbours` | apps/frontend/hooks/use-saved-views.ts:213-222 | the list shown after a move is the list with exactly the two neighbours exchanged and `sortOrder` equal to place |
| `SavedViews.MoveFromPlace` | apps/frontend/hooks/use-saved-views.ts:213-222 | up from any place but the first and down from any but the last exchanges a view with that neighbour; otherwise the list stays as it is |
| `SavedViews.MovesPermute` | apps/frontend/hooks/use-saved-views.ts:103-110 | any run of moves is a permutation of the views, other columns untouched |
| `SavedViews.MoveBackRestores` | apps/frontend/hooks/use-saved-views.ts:213-222 | a move and the opposite move restore the order |
| `SavedViews.MoveView` | apps/frontend/hooks/use-saved-views.ts:213-222 | the orders sent for a legal move, none for an illegal one |
| `Sorting.SortedIsUnique` | apps/frontend/hooks/use-saved-views.ts:105-109 | a sorted rearrangement of a strictly sorted list is that list |
| `ConditionText.JoinRoundTrip` | scripts/codemods/button-loading.ts:56-64 | joining pieces with "||" and cutting the text again gives the same pieces |
| `ConditionText.TrimTakesWhiteSpace` | scripts/codemods/button-loading.ts:60-60 | trimming takes white space and line ends of every kind off both ends |
| `ButtonLoading.ExtractIsExpressionIff` | scripts/codemods/button-loading.ts:56-64 | the extracted text is an expression if and only if the pending pieces, read one after the other, close whatever they open and nothing else; so if each is one by itself, and of a single piece exactly then |
| `ExpressionText.ScanDecides` | scripts/codemods/button-loading.ts:56-64 | the grammar of expressions and the one-pass scanner agree on every text |
| `ExpressionText.JoinedIsExpressionIff` | scripts/codemods/button-loading.ts:63-63 | pieces joined by "||" are an expression if and only if they close up: neither the separator nor the seam changes how a piece is read |
| `ExpressionText.BracketedIsOneUnit` | scripts/codemods/button-loading.ts:72-89 | wherever an expression in braces or other brackets is inserted, what follows is read as if a finished value stood there |
| `ExpressionText.BracketedIsExpression` | scripts/codemods/button-loading.ts:56-64 | an expression in brackets of any kind is one |
| `ExpressionText.OperatorJoins` | scripts/codemods/button-loading.ts:56-64 | two expressions with an operator between them are one |
| `ExpressionText.ConditionalNeedsBothHalves` | scripts/codemods/button-loading.ts:56-64 | three expressions make a conditional, and without its second half it is none |
| `ExpressionText.CommaNeedsBrackets` | scripts/codemods/button-loading.ts:56-64 | a comma joins expressions inside brackets only |
| `ButtonLoading.ExtractStaysReadable` | scripts/codemods/button-loading.ts:56-64 | from an expression whose operators join conditions the codemod extracts an expression of the same kind |
| `ButtonLoading.LoadingMeansSomePending` | scripts/codemods/button-loading.ts:51-64 | where every operator joins conditions: the extracted text holds exactly when some pending condition of the original does |
| `ConditionMeaning.PiecesImplyWholeIff` | scripts/codemods/button-loading.ts:56-64 | conditions joined by "||" imply the expression they come from if and only if each is a disjunct by itself |
| `ButtonLoading.LoadingImpliesDisabledIff` | scripts/codemods/button-loading.ts:56-64 | where every operator joins conditions: loading implies disabled for every truth of the conditions if and only if each pending condition is a disjunct by itself |
| `ButtonLoading.FlatDisjunctionKeepsBehaviour` | scripts/codemods/button-loading.ts:11-11 | for a flat disjunction disabled-or-loading equals disabled |
| `ButtonLoading.ConjunctionChangesBehaviour` | scripts/codemods/button-loading.ts:56-64 | for a pending condition and another joined by "&&" it does not |
| `ButtonLoading.GuardedPendingChangesBehaviour` | scripts/codemods/button-loading.ts:56-64 | the expression `isPending && ready`: loading does not imply disabled |
| `ButtonLoading.ParenthesesComeApart` | scripts/codemods/button-loading.ts:56-64 | the expression `!(isPending && x)`: what is extracted is `!(isPending`, which is no expression |
| `ButtonLoading.ConditionalComesApart` | scripts/codemods/button-loading.ts:56-64 | the expression `x ? isPending || y : z`: what is extracted is `x ? isPending`, which is no expression |
| `ButtonLoading.StringComesApart` | scripts/codemods/button-loading.ts:56-64 | the expression `f('isPending || x')`: what is extracted is `f('isPending`, which is no expression |
| `ButtonLoading.OnlyLoadingIsInserted` | scripts/codemods/button-loading.ts:67-91 | in a file where all extracted texts are expressions, a run leaves every element its tag and, apart from `loading`, its attributes in order |
| `ButtonLoading.TargetIff` | scripts/codemods/button-loading.ts:132-200 | an element is rewritten if and only if it is a `Button` without `asChild` and `loading` whose first pending `disabled` value has a condition that mentions the flag |
| `ButtonLoading.PendingIsAWord` | scripts/codemods/button-loading.ts:47-49 | `isPending` counts behind a member access and not as part of a longer name |
| `ButtonLoading.RunKeepsUseIff` | scripts/codemods/button-loading.ts:11-11 | after a run over such a file a button whose operators join conditions is out of use in the same cases as before if and only if it was not rewritten or each of its pending conditions is a disjunct by itself |
| `RewriteLoop.RewritingRemovesTargets` | scripts/codemods/button-loading.ts:208-222 | each insertion removes exactly one target, given that it makes its element none and leaves the others |
| `ButtonLoading.SecondRunAddsNothing` | scripts/codemods/button-loading.ts:208-222 | in a file where all extracted texts are expressions, with at most 200 targets: a run rewrites each, leaves the rest alone, and a second run adds nothing |
| `ButtonLoading.RunStopsAtTheLimit` | scripts/codemods/button-loading.ts:209-211 | in such a file with more than 200 targets exactly 200 are done |
| `RewriteLoop.RewriteAll` | scripts/codemods/button-loading.ts:209-222 | the loop that rewrites the first target and collects again |
| `ButtonLoading.RewriteFile` | scripts/codemods/button-loading.ts:207-222 | that loop on one such file: attributes added and targets left make up the targets there were |
| `StripComments.SurvivorsKeepTheirLine` | apps/frontend/scripts/verify-design-tokens.ts:41-49 | every surviving character has the same line number in the stripped text as in the original, for any text |
| `StripComments.NewlineCountIsKept` | apps/frontend/scripts/verify-design-tokens.ts:41-45 | no newline is lost or added and survivors keep their order |
| `StripComments.OnlyUrlSlashesSurvive` | apps/frontend/scripts/verify-design-tokens.ts:44-44 | a double slash survives only right behind a colon |
| `StripComments.BlockPassKeepsIff` | apps/frontend/scripts/verify-design-tokens.ts:43-43 | the block pass keeps exactly the newlines and the characters that lie in none of the comments it takes |
| `StripComments.OpenersAreOutermost` | apps/frontend/scripts/verify-design-tokens.ts:43-43 | an opener with a closer begins one of those comments if and only if it lies in no earlier one |
| `StripComments.LinePassKeepsIff` | apps/frontend/scripts/verify-design-tokens.ts:44-44 | the line pass takes exactly what lies behind a double slash, at the start or not right behind a colon, up to the end of its line |
| `StripComments.LinesCountFromOne` | apps/frontend/scripts/verify-design-tokens.ts:47-49 | the line number is one more than the newlines before the place |
| `StripComments.PlainTextIsUnchanged` | apps/frontend/scripts/verify-design-tokens.ts:41-45 | text without comment openers comes out unchanged |
| `StripComments.CountLines` | apps/frontend/scripts/verify-design-tokens.ts:47-49 | line number by counting newlines |
| `HistoryHandlers.ShownIsPendingReversed` | apps/frontend/hooks/use-equipment-history-handlers.ts:172-217 | after any run of adds and deletes in create mode each list shows exactly its pending rows, newest first |
| `HistoryHandlers.AddThenDelete` | apps/frontend/hooks/use-equipment-history-handlers.ts:196-210 | deleting the row just added restores both lists and touches no other |
| `HistoryHandlers.SubmitsWhatIsShown` | apps/frontend/hooks/use-equipment-history-handlers.ts:341-354 | nothing is submitted exactly when nothing is shown; what is submitted is what is shown, in reverse |
| `HistoryHandlers.SubmitsInOrderOfAdding` | apps/frontend/hooks/use-equipment-history-handlers.ts:172-217 | each list submits exactly the rows added to it and not deleted since, in the order of the adds |
| `HistoryHandlers.HistoryList.HandleAdd` | apps/frontend/hooks/use-equipment-history-handlers.ts:187-197 | prepends to the list shown and appends to the pending one |
| `HistoryHandlers.HistoryList.HandleDelete` | apps/frontend/hooks/use-equipment-history-handlers.ts:203-210 | drops the id from the list shown, and a temporary id from the pending one |

## Left out

- Rendering, effects, toasts, translations, analytics, routing and the network itself.
- Memoisation of `selectedItems`: it is the list for the current selection and map, not a cached one.
- Page status of the row selection (all selected, some selected) and the deprecated alias hook: one expression each.
- Changing `maxSnapshots` or `limit` between renders: both are fixed for the life of a hook.
- Sign-in providers, the session callback, and session data that no callback decides on.
- Cookies issued before session starts were recorded; every session here begins with a login.
- Success and error callbacks of a mutation, and the error toast of a conflict.
- Queries that nobody observes: every cached entry here can be fetched again.
- TemplateChain.NoLostUpdate: says nothing of the audit log and the cache events that follow a commit.
- TemplateChain.InspectionFollowsItsUpsert: does not claim that every accepted upsert is followed by an inspection, because the answer may never be handled.
- The service's check that the equipment exists and the shape validation of a submitted structure: every request here names known equipment and a well-formed body.
- Superseding and deleting templates by hand, the template gallery, and permission checks.
- Backfill.TemplateTable.Backfill: takes the query result as given and does not extract structures; the two passes of the script differ only in tables and the wording of a reason.
- Command-line parsing and the summary of the backfill; check and dry modes and the file selection of the codemod.
- ButtonLoading.LoadingMeansSomePending: says nothing of an expression with an operator inside brackets, a string, a comment or a conditional, or beside an assignment or arrow (`ExpressionText.Readable`); the codemod cuts through those.
- ButtonLoading.LoadingImpliesDisabledIff: the same restriction.
- ButtonLoading.FlatDisjunctionKeepsBehaviour: the same restriction; a conditional inside brackets, strings and divisions are covered.
- ButtonLoading.RunKeepsUseIff: the same restriction for the button asked about.
- ButtonLoading.OnlyLoadingIsInserted: says nothing of a file in which some extracted text is no expression; what the next parse makes of such a file is not modelled.
- ButtonLoading.SecondRunAddsNothing: the same.
- ButtonLoading.RunStopsAtTheLimit: the same.
- ButtonLoading.RewriteFile: the same.
- ExpressionText.ScanDecides: the grammar leaves out regular-expression literals, JSX, type annotations and type arguments inside an expression, and takes everything that is complete and well placed for an expression.
- Spread attributes of a button, which may set `disabled` or `loading` themselves.
- Create, delete and rename of saved views, and the import from local storage: single list edits.
- SavedViews.MoveSwapsNeighbours: the list being updated is the one the move was made on.
- Edit mode of the history lists, which goes through the server; there a calibration row is shown and never submitted.
- Deleting the expired responses from the cache storage, and the rest of the service worker.
- Sending the report, session data and messages between tabs other than "continue".
- Keyboard shortcuts of undo and redo.
