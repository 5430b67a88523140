# A verified model of the SNMP polling server's in-memory components

The server polls SNMP targets on a schedule, keeps samples and states in memory, saves
them in batches, and lets clients find targets by tag, attribute and path. This project
models its stateful components in Dafny, in the form the program has them - classes with
the program's fields, its loops and its branches - and proves what they keep over whole
runs, including runs in which several goroutines take turns.

A component usually has three parts: a state machine of pure step functions, theorems
about every run of it, and a class whose methods are proved to take those steps. The
methods take the abstract state they start from as a ghost argument.

| component | files |
|---|---|
| poll scheduler | `PollHeap`, `PollerKeys`, `SchedulerModel`, `SchedulerNeverLost`, `SchedulerOrderly`, `SchedulerRuns`, `SchedulerInterval`, `SchedulerHeap`, `SchedulerRetry`, `SchedulerLimits`, `Scheduler` |
| ring buffer, statistics, delivery of a sample | `TargetBuffer`, `SampleDispatch` |
| tag index and secondary indices | `TagPaths`, `TagIndex`, `Indices` |
| configuration layers and cache | `ConfigLayers`, `ConfigFields`, `ConfigCache`, `ConfigResolver` |
| poller table and its indexes | `PollerIndexes`, `PollerTable` |
| poller states and dispatches | `PollerStates`, `Dispatch`, `DispatchHistory` |
| batched saving | `SampleFlow`, `StateFlush`, `StateSaving`, `Sync` |
| tree of links, store rows | `Like`, `Paths`, `TreeModel`, `TreeParents`, `TreeRows`, `TreeStore` |
| listing and paths | `Pagination`, `ShellPath` |
| strings, histories | `Text`, `History` |

What the proofs brought to light about the program:

- A retry counts its 10 ms from the pass's clock reading, which is taken before the lock
  (`internal/scheduler/scheduler.go:332,365`). A poller waits 10 ms from the moment it found
  the queue full exactly if that is the moment of the reading, or the retry is held up that
  long (`SchedulerRetries.RetryWaitsIff`).
- The slice of the scheduler stops being a heap in two ways only: a retry pushes an item that
  is in it already, or a completion writes an item in it a time that does not fit there
  (`SchedulerHeaps.HeapKeptIff`). It gets a removed poller in one way only, the retry of one
  (`SchedulerHeaps.RegisteredKeptIff`). Runs lead to all three: a Resume between the two
  phases of `processDueItems`, a Resume while a job is out, and a Remove between the phases
  (`SchedulerLimits`). Calm and disciplined runs keep more, one place for every key, so that
  none of it can come about (`SchedulerRuns.DisciplinedRunsAreOrderly`).
- The combined query drops filters at the front that match nothing
  (`internal/server/indices.go:309-314`), so it can answer too much; when it does not is
  stated at `IndicesModel.Indices.AnswerIsExactIff`.
- A cached configuration can be older than 30 s by as long as its Resolve took, and a
  Resolve under way at an invalidation brings the old configuration back, exactly then
  (`ConfigCache.InvalidationRefreshesIff`, `ConfigCache.SweepRefreshesIff`).
- A poller filled in by `Get` and missing from the index is missing from `List` and
  `ListInNamespace`, and no other call makes that happen (`PollerIndexes.CompleteKeptIff`).
  `CountInTarget` also counts a poller that `InvalidateCache` has forgotten
  (`PollerIndexes.CountIsOffBy`; no call but these two makes a list or a count wrong,
  `PollerIndexes.ExactKeptIff`).
- A Disable of a running poller whose store update fails, and nothing else, leaves it running
  but marked disabled (`Dispatching.AgreementKeptIff`).
- `AddSample` flushes in its caller's goroutine, which Stop does not wait for: a batch that a
  call has taken when Stop flushes may still be on its way when Stop returns, exactly then
  (`SampleFlow.StopStoresAllIff`).
- A state with a row that changes, to something else, between its copy and the clearing of
  its flag is not saved, exactly then (`StateSaving.ChangeIsSavedIff`).
- A poll result that comes after its poller's deletion makes a state again; once a flush has
  cleared its flag, a new poller of that name starts with a new row and that old state, which
  no flush will save (`StateSaving.LateResultIsLost`).
- A flush updates rows by name (`internal/store/poller.go:386`) and shares no lock with the
  calls that delete and create pollers. When a poller is deleted and made again while a flush
  holds its old state, that state goes into the new row, and the new state is clean and says
  otherwise (`StateSaving.OldStateOverwritesNew`). `StateSaving.CreateIsSavedIff` says for
  every moment of a flush when a poller made then is saved, `StateSaving.SavedKeptIff` the
  same for every step; `StateFlush.CreateKeepsIff` is about the moment of the creation only.
- LIKE patterns are built from names without escaping: deleting target `a_b` deletes the
  poller links of target `axb` as well, and a recursive delete of `/a_b` takes what lies
  beneath `/axb` (`TreeModel.TakesOnlyOwnIff`, `TreeParents.SelectionIsSubtreeIff`).
- A directory beneath a link, a link whose path has no parent directory, and a forced delete
  that is not recursive leave nodes without their parent directory, exactly as
  `TreeParents.NestedKeptIff` says.
- The server's next cursor is the page's last id that is a target. A page of ids that are none
  says that there is more and gives no cursor (`internal/server/browse.go:158-190`); exactly
  such a gap ends a listing early (`Pagination.BrowseListsAllIff`).
- `normalizePath` gives `/.` for the empty path and keeps `..` at the front of relative ones;
  only the second normalisation, in the store, is canonical for all
  (`Paths.NormalizeAgainIff`).

## Model

| member | source | states |
|---|---|---|
| PollHeap.SwapRearranges | internal/scheduler/scheduler.go:52 | A swap keeps the items, and keeps every back-pointer right where it was |
| PollHeap.SmallerChild | internal/scheduler/scheduler.go:51 | The child that sifting down looks at is the earlier one |
| PollHeap.UpRearranges | internal/scheduler/scheduler.go:51-52 | Sifting up keeps the items and right back-pointers, and touches no later slot |
| PollHeap.DownRearranges | internal/scheduler/scheduler.go:51-52 | Sifting down keeps the items and right back-pointers, and touches no slot outside its range |
| PollHeap.PushPutsIn | internal/scheduler/scheduler.go:53 | A push adds exactly the pushed item to the slots and keeps every back-pointer right, even when the item is already in |
| PollHeap.RemoveTakesOut | internal/scheduler/scheduler.go:50-63 | A removal takes out exactly the item of the slot, sets its index to -1, and keeps every other back-pointer right |
| PollHeap.PopTakesOut | internal/scheduler/scheduler.go:50-63 | A pop takes out exactly the root |
| PollHeap.RootIsEarliest | internal/scheduler/scheduler.go:51 | The root of an ordered heap has the least NextPollMs |
| PollHeap.UpRestoresOrder | internal/scheduler/scheduler.go:51-52 | Sifting up restores the heap order after one slot got an earlier time |
| PollHeap.DownRestoresOrder | internal/scheduler/scheduler.go:51-52 | Sifting down restores the heap order after one slot got a later time |
| PollHeap.PushKeepsOrder | internal/scheduler/scheduler.go:51-53 | A push keeps the heap order |
| PollHeap.RemoveKeepsOrder | internal/scheduler/scheduler.go:50-63 | A removal at any slot keeps the heap order |
| PollHeap.PopKeepsOrder | internal/scheduler/scheduler.go:50-63 | A pop keeps the heap order |
| PollerKeys.ParseUndoesString | internal/scheduler/scheduler.go:21-36 | Parsing a key's string gives the key back if and only if namespace and target have no slash |
| PollerKeys.StringUndoesParse | internal/scheduler/scheduler.go:21-36 | Whatever parses is the string of the key it parses to |
| PollerKeys.ParsesIffTwoSlashes | internal/scheduler/scheduler.go:26-36 | A string parses if and only if it has at least two slashes |
| PollerKeys.StringInjective | internal/scheduler/scheduler.go:21-23 | Keys without slashes in namespace and target never share an index entry |
| SchedulerModel.AddStep | internal/scheduler/scheduler.go:169-193 | Add leaves slots, back-pointers, item fields and key index consistent, in every interleaving |
| SchedulerModel.RemoveStep | internal/scheduler/scheduler.go:196-211 | Remove leaves slots, back-pointers, item fields and key index consistent, in every interleaving |
| SchedulerClass.UpdateIntervalFields | internal/scheduler/scheduler.go:214-226 | UpdateInterval of a registered key sets that item's interval and nothing else; of any other it changes nothing |
| SchedulerModel.UpdateIntervalStep | internal/scheduler/scheduler.go:214-226 | UpdateInterval leaves slots, back-pointers, item fields and key index consistent, in every interleaving |
| SchedulerModel.PauseStep | internal/scheduler/scheduler.go:229-244 | Pause leaves slots, back-pointers, item fields and key index consistent, in every interleaving |
| SchedulerModel.ResumeStep | internal/scheduler/scheduler.go:247-264 | Resume leaves slots, back-pointers, item fields and key index consistent, in every interleaving |
| SchedulerModel.CollectStep | internal/scheduler/scheduler.go:331-354 | The collecting phase leaves slots, back-pointers, item fields and key index consistent, in every interleaving |
| SchedulerModel.RescheduleStep | internal/scheduler/scheduler.go:357-369 | The retry after a full queue leaves slots, back-pointers, item fields and key index consistent, in every interleaving |
| SchedulerModel.CompleteStep | internal/scheduler/scheduler.go:373-392 | MarkComplete leaves slots, back-pointers, item fields and key index consistent, in every interleaving |
| SchedulerModel.Next | internal/scheduler/scheduler.go:169-411 | Every step leaves slots, back-pointers, item fields and key index consistent, in every interleaving |
| SchedulerNeverLost.CollectAccounts | internal/scheduler/scheduler.go:331-354 | Whatever leaves the heap in a pass was collected, or was marked Polling already |
| SchedulerNeverLost.StepKeeps | internal/scheduler/scheduler.go:169-392 | Every step keeps: Polling means outstanding work, and every registered poller is in the heap, has outstanding work, or was paused |
| SchedulerNeverLost.NoPollerIsLost | internal/scheduler/scheduler.go:169-411 | After every interleaving of all steps, so every poller is accounted for and every `index` >= 0 points at its item; the drop of items marked Polling is therefore safe |
| SchedulerOrderly.CollectTakesExactlyTheDue | internal/scheduler/scheduler.go:331-354 | From a valid heap without marked items the pass takes exactly the items with NextPollMs <= now, each once, in order of time, and leaves a valid heap of later items |
| SchedulerOrderly.AddKeepsOrderly | internal/scheduler/scheduler.go:169-193 | Add of a key without job or leftover item keeps heap order, right back-pointers, one job a key and one place a key |
| SchedulerOrderly.RemoveKeepsOrderly | internal/scheduler/scheduler.go:196-211 | Remove keeps heap order, right back-pointers, one job a key and one place a key |
| SchedulerOrderly.PauseKeepsOrderly | internal/scheduler/scheduler.go:229-244 | Pause keeps heap order, right back-pointers, one job a key and one place a key |
| SchedulerOrderly.ResumeKeepsOrderly | internal/scheduler/scheduler.go:247-264 | Resume of an item that is out of the heap, not collected and without a job keeps heap order, right back-pointers, one job a key and one place a key |
| SchedulerOrderly.CollectKeepsOrderly | internal/scheduler/scheduler.go:331-354 | The collecting phase keeps heap order, right back-pointers, one job a key and one place a key |
| SchedulerOrderly.DispatchKeepsOrderly | internal/scheduler/scheduler.go:357-360 | Queueing a collected item keeps heap order, right back-pointers, one job a key and one place a key |
| SchedulerOrderly.RescheduleKeepsOrderly | internal/scheduler/scheduler.go:361-368 | Putting a collected item back keeps heap order, right back-pointers, one job a key and one place a key |
| SchedulerOrderly.CompleteKeepsOrderly | internal/scheduler/scheduler.go:373-392 | MarkComplete keeps heap order, right back-pointers, one job a key and one place a key, because the item is out of the heap then |
| SchedulerOrderly.StepKeepsOrderly | internal/scheduler/scheduler.go:169-392 | Every calm step keeps heap order, right back-pointers, one job a key and one place a key |
| SchedulerOrderly.OrderlyKeptIff | internal/scheduler/scheduler.go:169-392 | A step keeps heap order, right back-pointers, one job a key and one place a key, all of them, if and only if it is calm |
| SchedulerOrderly.OrderlyThroughoutIff | internal/scheduler/scheduler.go:169-411 | The runs that keep all of them are exactly the calm ones |
| SchedulerRuns.CalmRunsAreOrderly | internal/scheduler/scheduler.go:48-62 | After every calm run the slice is a min-heap on NextPollMs, heap[i].index == i, no item occurs twice, none in it is marked Polling, and no key has two jobs |
| SchedulerRuns.CalmPassTakesExactlyTheDue | internal/scheduler/scheduler.go:331-354 | In calm runs the test for an item being polled never succeeds: a pass takes exactly the due items |
| SchedulerRuns.DisciplinedRunsAreOrderly | internal/scheduler/scheduler.go:169-264 | After every disciplined run all that and: the heap holds registered items only, and a registered item is at heap[index] or has index -1 and is not in the heap |
| SchedulerRuns.DisciplineKeptIff | internal/scheduler/scheduler.go:169-392 | A step keeps that all, with only registered items collected as well, if and only if it is disciplined |
| SchedulerRuns.DisciplinedRunsAreCalm | internal/scheduler/scheduler.go:169-392 | Disciplined runs are calm |
| SchedulerRuns.FirstAddsRunsAreCalm | internal/scheduler/scheduler.go:169-392 | Runs without Resume and without adding a key again are calm |
| SchedulerRuns.DispatchWaitsForInterval | internal/scheduler/scheduler.go:373-392 | In calm runs a poller is never dispatched before its completion plus the interval in force then, unless that poller is resumed or registered anew in between |
| SchedulerRuns.FirstAddsRunsAreKeeping | internal/scheduler/scheduler.go:169-264 | Runs without Resume and without adding a key again renew no poller that has been added |
| SchedulerRuns.RetryWaitsTenMs | internal/scheduler/scheduler.go:361-368 | In calm runs a retry is never dispatched before 10 ms after the clock reading of the pass that found the queue full, unless the poller is renewed |
| SchedulerRetries.RetryEarliest | internal/scheduler/scheduler.go:331-369 | From every timely state: the earliest dispatch that can follow a retry is exactly at the later of the retry itself and 10 ms after the reading |
| SchedulerRetries.RetryWaitsIff | internal/scheduler/scheduler.go:331-369 | After every calm run: a poller waits at least 10 ms from the moment it found the queue full if and only if that moment is the clock reading, or the retry itself comes 10 ms later |
| SchedulerIntervals.IntervalIsAsked | internal/scheduler/scheduler.go:169-226 | In every interleaving the scheduler has exactly the registrations that Add, Remove and UpdateInterval ask for, call by call, each with the interval asked for last |
| SchedulerIntervals.DispatchWaitsAsAsked | internal/scheduler/scheduler.go:373-392 | So in calm runs a poller is never dispatched before a completion plus the interval asked for last before it, unless it has been resumed or registered anew since |
| SchedulerIntervals.DispatchWaitsForUpdate | internal/scheduler/scheduler.go:214-226 | From UpdateInterval of a registered poller on, until another call concerns its registration, completions are followed by no dispatch before the interval of that call is over |
| SchedulerHeaps.RewriteIff | internal/scheduler/scheduler.go:385-390 | Rewriting the time of an item inside leaves the slice in heap order if and only if the new time lies between its parent's and its children's |
| SchedulerHeaps.PushedTwice | internal/scheduler/scheduler.go:53 | Pushing an item that is inside leaves a slot that is not its item's index |
| SchedulerHeaps.HeapKeptIff | internal/scheduler/scheduler.go:169-392 | A step leaves a heap in order without repetition one, if and only if it is neither a retry of an item inside nor a completion that writes an item inside a time that does not fit there |
| SchedulerHeaps.HeapThroughoutIff | internal/scheduler/scheduler.go:169-411 | The runs on which the slice stays such a heap are exactly those of such steps |
| SchedulerHeaps.RegisteredKeptIff | internal/scheduler/scheduler.go:169-392 | A step leaves a heap of registered items one, if and only if it is not the retry of an item that is no longer registered |
| SchedulerHeaps.RegisteredThroughoutIff | internal/scheduler/scheduler.go:169-411 | Of the runs on which the slice stays a heap, those that never have a removed poller in it are exactly those whose retries are of registered items |
| SchedulerHeaps.OneJobKeptIff | internal/scheduler/scheduler.go:357-411 | A step leaves every key at most one job if and only if it does not send one for a key that has one |
| SchedulerLimits.RetryCanComeSooner | internal/scheduler/scheduler.go:331-369 | That reading can precede the failed attempt: a run in which the retry goes out less than 10 ms after it |
| SchedulerLimits.RemoveBetweenLeavesOrphan | internal/scheduler/scheduler.go:361-368 | A run to it: a Remove between collect and reschedule leaves an unregistered item in the heap |
| SchedulerLimits.ResumeBetweenPushesTwice | internal/scheduler/scheduler.go:361-368 | A run to it: a Resume there pushes the item twice |
| SchedulerLimits.ResumeWhileBusyBreaksOrder | internal/scheduler/scheduler.go:385-390 | A run to it: a Resume while the job is out, then its completion, break the heap order |
| SchedulerClass.ItemHeap.Swap | internal/scheduler/scheduler.go:52 | The objects and their index fields do what the specification's swap does |
| SchedulerClass.ItemHeap.Up | internal/scheduler/scheduler.go:51-53 | The loop ends where the recursive sifting ends |
| SchedulerClass.ItemHeap.Down | internal/scheduler/scheduler.go:51-53 | The loop ends where the recursive sifting ends |
| SchedulerClass.ItemHeap.SmallerChild | internal/scheduler/scheduler.go:51 | The earlier child |
| SchedulerClass.ItemHeap.Push | internal/scheduler/scheduler.go:53 | Refines the specified push |
| SchedulerClass.ItemHeap.Pop | internal/scheduler/scheduler.go:50-63 | Refines the specified pop and returns the root |
| SchedulerClass.ItemHeap.Remove | internal/scheduler/scheduler.go:50-63 | Refines the specified removal and returns the item |
| SchedulerClass.Scheduler.Add | internal/scheduler/scheduler.go:169-193 | The fields take the machine's Add step |
| SchedulerClass.Scheduler.Remove | internal/scheduler/scheduler.go:196-211 | The fields take the machine's Remove step |
| SchedulerClass.Scheduler.UpdateInterval | internal/scheduler/scheduler.go:214-226 | The fields take the machine's UpdateInterval step |
| SchedulerClass.Scheduler.Pause | internal/scheduler/scheduler.go:229-244 | The fields take the machine's Pause step |
| SchedulerClass.Scheduler.Resume | internal/scheduler/scheduler.go:247-264 | The fields take the machine's Resume step |
| SchedulerClass.Scheduler.CollectDueItems | internal/scheduler/scheduler.go:331-354 | The collecting loop computes what the recursive specification collects, and terminates |
| SchedulerClass.Scheduler.QueueFirst | internal/scheduler/scheduler.go:357-369 | One turn of the second phase is an Enqueue, or a Reschedule when the queue is full |
| SchedulerClass.Scheduler.ProcessDueItems | internal/scheduler/scheduler.go:331-370 | Without interruption the second phase empties the list of collected items |
| SchedulerClass.Scheduler.TakeJob | internal/scheduler/scheduler.go:394-411 | A worker takes the oldest job |
| SchedulerClass.Scheduler.HandOff | internal/scheduler/scheduler.go:357-360 | A waiting worker receives the first collected item's job |
| SchedulerClass.Scheduler.MarkComplete | internal/scheduler/scheduler.go:373-392 | The fields take the Complete step: rewritten in place when the item is in the heap, pushed otherwise |
| TargetBuffer.ReplayKeepsMostRecent | internal/server/poller.go:163-259 | After any writes and resizes the buffer stands for the last so many of all samples ever written, where the number grows by one a write up to the size and a resize cuts it to the new size |
| TargetBuffer.WritesKeepLastCap | internal/server/poller.go:163-200 | Without resizes those are the last bufSize samples |
| TargetBuffer.ExtremesAreRight | internal/server/poller.go:193-200 | The running minimum and maximum are the least and greatest poll times written |
| TargetBuffer.AverageIsBetween | internal/server/poller.go:269-281 | The truncated average lies between minimum and maximum |
| TargetBuffer.SumsAdd | internal/server/poller.go:193 | The total of the poll times is additive over the history, and so is the count of successes |
| TargetBuffer.PutView | internal/server/poller.go:168-172 | One write at the write index, with wrap-around, appends to the oldest-first view and drops the oldest if it was full |
| TargetBuffer.Target.WriteSample | internal/server/poller.go:163-200 | The contents become the last bufSize of old contents and new sample; every statistic stays that of all samples written; unreachable exactly after three failures in a row |
| TargetBuffer.Target.ReadLastN | internal/server/poller.go:203-220 | Exactly the last min(n, count) samples, oldest first |
| TargetBuffer.Target.ResizeBuffer | internal/server/poller.go:224-259 | The contents become the last min(count, newSize) samples |
| TargetBuffer.Target.Timing | internal/server/poller.go:269-281 | The reported minimum and maximum are those of all samples ever written, and the average is their total divided by their number, towards zero |
| SampleDispatching.DispatchSample | internal/server/poller.go:717-782 | After a result the state index holds the target under its new state and no other, and no other target's entry has moved; a result for a target that is gone changes nothing |
| TagPaths.PrefixIsAbove | internal/server/tagindex.go:61-70 | Each prefix the program forms of a tag is the tag or ends where a segment ends |
| TagPaths.AboveIsPrefix | internal/server/tagindex.go:61-70 | and every such text is one of those prefixes |
| TagPaths.UnderSomeChild | internal/server/tagindex.go:297-361 | A tag below a prefix is the prefix itself or lies under one of its child segments |
| TagPaths.FirstSegmentIs | internal/server/tagindex.go:310-345 | The segment taken of a text is what comes before its first slash, or all of it when nothing does |
| TagIndexing.IndexIsDetermined | internal/server/tagindex.go:38-181 | The explicit tags determine the index, whichever adds, removals and updates led there |
| TagIndexing.OthersUnchanged | internal/server/tagindex.go:109-128 | A change of one target's tags leaves every other target's entries as they were |
| TagIndexing.SegmentsAreChildren | internal/server/tagindex.go:297-361 | For tags without empty segments the directories listed are exactly the next segments |
| TagIndexing.QueryIsDirectAndChildren | internal/server/tagindex.go:201-212 | For a non-empty prefix a query is the targets with exactly that tag united with the queries of the children |
| TagIndexing.TagIndex.AddTag | internal/server/tagindex.go:61-70 | Adding one tag puts the target under all its prefixes and nothing else |
| TagIndexing.TagIndex.AddTags | internal/server/tagindex.go:81-97 | id is under p if and only if an explicit tag of id has p as a segment prefix; no stored set is empty |
| TagIndexing.TagIndex.Add | internal/server/tagindex.go:38-57 | The target's tags become the given ones and the index agrees |
| TagIndexing.TagIndex.RemoveLocked | internal/server/tagindex.go:109-128 | The target's tags go, the index agrees, no empty set stays |
| TagIndexing.TagIndex.Remove | internal/server/tagindex.go:73-77 | The target's tags go, under the lock of its own |
| TagIndexing.TagIndex.UpdateTags | internal/server/tagindex.go:135-181 | A replacement gives the sorted given tags; otherwise the sorted set of current minus removed plus added non-empty tags; the index agrees |
| TagIndexing.TagIndex.Query | internal/server/tagindex.go:201-212 | The ids with a tag under the queried one, ascending, each once |
| TagIndexing.TagIndex.Count | internal/server/tagindex.go:277-281 | Their number |
| TagIndexing.TagIndex.HasTag | internal/server/tagindex.go:284-291 | Whether one of the target's tags lies under the queried one |
| TagIndexing.TagIndex.QueryAND | internal/server/tagindex.go:215-254 | The ids that match every tag, ascending, each once; none for no tags |
| TagIndexing.TagIndex.Smallest | internal/server/tagindex.go:223-231 | A tag with the fewest matches |
| TagIndexing.TagIndex.QueryOR | internal/server/tagindex.go:257-274 | The ids that match some tag, ascending, each once |
| TagIndexing.TagIndex.ListChildren | internal/server/tagindex.go:297-361 | Directories and exact-tag targets, ascending; for clean tags exactly the next segments |
| IndicesModel.ApplyAllNarrows | internal/server/indices.go:304-341 | From a set on, filters intersect |
| IndicesModel.ApplyAllSkipsEmptyLead | internal/server/indices.go:304-341 | Filters at the front that match nothing are skipped; nil comes out exactly if all match nothing |
| IndicesModel.ExactIff | internal/server/indices.go:299-341 | The combined query never misses an id that passes all filters, and is the exact conjunction if and only if the first filter matches something, or none does, or nothing passes the filters left after the empty front |
| IndicesModel.ExactlyOneSet | internal/server/indices.go:116-197 | Every registered id is in exactly one set of an index, its value's, and no other id is in any |
| IndicesModel.Indices.Add | internal/server/indices.go:116-140 | State, protocol and host sets stay partitions of the registered targets |
| IndicesModel.Indices.Remove | internal/server/indices.go:143-173 | They do, and no empty set stays |
| IndicesModel.Indices.UpdateState | internal/server/indices.go:176-197 | The target moves from the old state's set to the new one's |
| IndicesModel.Indices.UpdateTags | internal/server/indices.go:200-202 | Only the tag index changes |
| IndicesModel.Indices.QueryByHost | internal/server/indices.go:231-254 | The ids whose host equals the pattern, or matches it when it has a wildcard |
| IndicesModel.Indices.QueryByTags | internal/server/indices.go:267-278 | The ids under every tag |
| IndicesModel.Indices.AnswerIsLiving | internal/server/indices.go:299-341 | The combined query is nil when no condition of the filter lives, and otherwise exactly what satisfies the filter without the conditions at its front that no target satisfies |
| IndicesModel.Indices.AnswerIsExactIff | internal/server/indices.go:299-341 | So it never misses a match, and is exactly the matches if and only if some target satisfies the first condition, or no condition lives, or no target satisfies the living ones |
| IndicesModel.Indices.Narrowed | internal/server/indices.go:304-341 | The conditions are applied one after the other in the program's order |
| IndicesModel.Indices.Query | internal/server/indices.go:299-341 | Nil for an empty filter, and otherwise that answer |
| ConfigLayers.InnermostIsUnique | internal/manager/config_resolver.go:67-120 | At most one setting is the innermost one |
| ConfigLayers.LayersDetermine | internal/manager/config_resolver.go:67-120 | The layers determine every value and source of the result |
| ConfigLayers.Overwritten | internal/manager/config_resolver.go:157-251 | A layer applied last overwrites what it sets and leaves the rest: the result is innermost for one layer more |
| ConfigLayers.ApplyServerDefaults | internal/manager/config_resolver.go:157-170 | Applying the server defaults adds the server layer |
| ConfigLayers.ApplyDefaults | internal/manager/config_resolver.go:172-232 | Applying namespace or target defaults adds their layer |
| ConfigLayers.ApplyV3 | internal/manager/config_resolver.go:179-213 | The SNMPv3 fields take what the layer sets |
| ConfigLayers.ApplyPasswords | internal/manager/config_resolver.go:194-212 | A password wins over a secret reference of the same layer, whose source is marked |
| ConfigLayers.ApplyPollingConfig | internal/manager/config_resolver.go:234-251 | The poller's own settings are the innermost layer |
| ConfigLayers.ResolveWithPoller | internal/manager/config_resolver.go:126-155 | Each field's value and source come from the innermost of the layers present that sets it, and are empty if none does |
| ConfigFields.PasswordsAre | internal/manager/config_resolver.go:193-213 | Told from the stored fields: authentication and privacy password are that of the target's layer, or its secret's reference where it has none, under a source marked "(secret)"; if it has neither, the namespace's in the same way; otherwise empty |
| ConfigFields.TextsAre | internal/manager/config_resolver.go:180-209 | Security name, security level and both protocols are the target's, or else the namespace's, each with its source; otherwise empty |
| ConfigFields.CommunityIs | internal/manager/config_resolver.go:157-177 | The community is the target's, or else the namespace's, even an empty one; or else "public" from the server |
| ConfigFields.NumbersAre | internal/manager/config_resolver.go:157-251 | Interval, timeout, retries and buffer size are the poller's own, or else the target's, the namespace's, the server's, each with its source |
| ConfigCache.HitsAreRecent | internal/manager/config_resolver.go:67-122 | In any interleaving of Resolves, with their reads one by one, and of invalidations, a hit answers from rows read for that key, each layer at its own moment, all less than the time to live plus the storing delay ago; without delay, less than 30 s ago |
| ConfigCache.HitsCanBeThatOld | internal/manager/config_resolver.go:115-119 | The delay between reading and storing cannot be left out of that bound |
| ConfigCache.MissesAreCounted | internal/manager/config_resolver.go:67-119 | Over any run: every Resolve that missed has stored its result, failed, or is under way |
| ConfigCache.InvalidateTargetIsExact | internal/manager/config_resolver.go:302-310 | With slash-free names exactly the target's entries go, except one with an empty poller name |
| ConfigCache.InvalidateNamespaceIsExact | internal/manager/config_resolver.go:313-321 | With slash-free names exactly the namespace's entries go |
| ConfigCache.InvalidateIsExact | internal/manager/config_resolver.go:296-299 | Exactly the poller's entry goes |
| ConfigCache.InvalidateNamespaceIff | internal/manager/config_resolver.go:313-321 | For any key: its entry goes with a slash-free namespace if and only if that is its own, or its own continues it after a slash |
| ConfigCache.InvalidationRefreshesIff | internal/manager/config_resolver.go:296-326 | After Invalidate and InvalidateAll every later answer comes from rows read then or later, if and only if no older result still waits to be stored |
| ConfigCache.SweepRefreshesIff | internal/manager/config_resolver.go:302-321 | The same of InvalidateTarget and InvalidateNamespace, from their end on and counted from their start, with entries dropped one by one and other calls in between |
| ConfigCache.SweptIsARun | internal/manager/config_resolver.go:302-321 | Dropping exactly the matching entries is what such a call does when nothing comes in between |
| ConfigCache.ResolvedIsARun | internal/manager/config_resolver.go:79-119 | Storing the result is what a Resolve that misses does when no other call comes in between |
| ConfigResolving.MissIsResolveWithPoller | internal/manager/config_resolver.go:67-155 | A Resolve that misses gives what ResolveWithPoller gives for the rows it read |
| ConfigResolving.AskedIsGiven | internal/manager/config_resolver.go:79-111 | It fails exactly unless the server's row is there and no read fails; otherwise it goes through the layers of the four rows found under the names asked for |
| ConfigResolving.ConfigResolver.Lookup | internal/manager/config_resolver.go:70-77 | A hit is an entry younger than the time to live, and reflects each row at the moment of its read |
| ConfigResolving.ConfigResolver.Read | internal/manager/config_resolver.go:79-113 | Either some read failed, or the result reflects the rows read, which may be of four moments |
| ConfigResolving.ConfigResolver.Keep | internal/manager/config_resolver.go:115-119 | Storing takes the step of the cache machine |
| ConfigResolving.ConfigResolver.Resolve | internal/manager/config_resolver.go:67-122 | Hit, failure (nothing cached) or fresh result (cached) |
| ConfigResolving.ConfigResolver.Invalidate | internal/manager/config_resolver.go:296-299 | Takes the Invalidate step |
| ConfigResolving.ConfigResolver.DropBeyond | internal/manager/config_resolver.go:304-309 | The loop drops exactly the longer keys with the prefix, in any order of visit |
| ConfigResolving.ConfigResolver.InvalidateTarget | internal/manager/config_resolver.go:302-310 | Drops exactly the entries beyond the target's prefix |
| ConfigResolving.ConfigResolver.InvalidateNamespace | internal/manager/config_resolver.go:313-321 | Drops exactly the entries beyond the namespace's prefix |
| ConfigResolving.ConfigResolver.InvalidateAll | internal/manager/config_resolver.go:324-326 | Empties the cache |
| PollerIndexes.StoreAndIndexKeepsExact | internal/manager/poller.go:147-185 | Storing and indexing a poller keeps both indexes exact |
| PollerIndexes.DeleteKeepsExact | internal/manager/poller.go:307-341 | Deleting keeps both exact and leaves no empty set |
| PollerIndexes.LoadedIsExact | internal/manager/poller.go:62-108 | Loading rows makes both exact |
| PollerIndexes.ListsAreFilters | internal/manager/poller.go:62-256 | After any loads, creates, updates and deletes with slash-free namespaces and targets, List, ListInNamespace and CountInTarget are a filter over the table, and no index set is empty |
| PollerIndexes.ListsAreSound | internal/manager/poller.go:188-214 | With Get's cache fill and InvalidateCache in the runs, the lists still hold right pollers only |
| PollerIndexes.RunKeepsPaired | internal/manager/poller.go:108-144 | In all runs with slash-free namespaces and targets both indexes have the same pollers |
| PollerIndexes.CompleteIffListIsFilter | internal/manager/poller.go:217-256 | List is the filter for every target, and ListInNamespace for every namespace, if and only if every poller of the table is in its target's set |
| PollerIndexes.CompleteKeptIff | internal/manager/poller.go:188-214 | One call keeps that if and only if it is not a cache fill - which may come late and overwrite - of a poller missing from the index |
| PollerIndexes.CountIsOffBy | internal/manager/poller.go:452-462 | In all those runs CountInTarget is off by the pollers it counts that the table has forgotten, less those of the table that it misses |
| PollerIndexes.ExactKeptIff | internal/manager/poller.go:188-214 | One call leaves exact indexes exact, so that all lists and counts are filters, if and only if it is neither a cache fill of a poller not in the table nor a forget of one that is |
| PollerIndexes.ExactThroughoutIff | internal/manager/poller.go:62-504 | The runs on which they stay exact are exactly those of such calls |
| PollerIndexes.PollerManager.AddToIndexes | internal/manager/poller.go:111-124 | One key enters one set of each index |
| PollerIndexes.PollerManager.RemoveFromIndexes | internal/manager/poller.go:127-144 | One key leaves one set of each, and an emptied set goes |
| PollerIndexes.PollerManager.Load | internal/manager/poller.go:62-108 | Table and indexes are those of the rows, whatever was there |
| PollerIndexes.PollerManager.Create | internal/manager/poller.go:147-185 | Created exactly if new, well named and stored |
| PollerIndexes.PollerManager.Update | internal/manager/poller.go:259-292 | Replaced exactly if present and stored, one version on; the scheduler is told exactly a changed effective interval |
| PollerIndexes.PollerManager.Delete | internal/manager/poller.go:307-341 | Deleted exactly if present and the store agrees |
| PollerIndexes.PollerManager.GetPoller | internal/manager/poller.go:188-214 | From the table, or from the store and then filled in |
| PollerIndexes.PollerManager.InvalidateCache | internal/manager/poller.go:498-504 | The table forgets the poller, the indexes keep it |
| PollerIndexes.PollerManager.List | internal/manager/poller.go:218-236 | Each listed poller once; with exact indexes, the target's pollers |
| PollerIndexes.PollerManager.ListInNamespace | internal/manager/poller.go:240-256 | Each listed poller once; with exact indexes, the namespace's pollers |
| PollerIndexes.PollerManager.CountInTarget | internal/manager/poller.go:452-462 | With exact indexes the number of the target's pollers |
| PollerTables.TableIsTold | internal/manager/poller.go:62-504 | After any calls, with slash-free namespaces and targets, the table has for each key exactly what the calls for that key tell: a new poller disabled unless it says otherwise and at version 1, an update one version on with all else replaced |
| PollerStates.CountersAreRuns | internal/manager/state.go:209-248 | The failure and success counters are the lengths of the runs at the end of the results |
| PollerStates.HealthIsExpected | internal/manager/state.go:209-248 | For every sequence of results the state is the one told by the results alone |
| PollerStates.HealthByRuns | internal/manager/state.go:209-248 | Degraded if and only if 3 or 4 failures end the results; 5 or more mean Down; Unknown if and only if no success yet and fewer than 3 results |
| PollerStates.DownIsLeftTwoWays | internal/manager/state.go:209-248 | Down is left for Up, by the second of two successes in a row, or for Degraded, by the third failure after a single success that followed a Down |
| PollerStates.StartedIsOn | internal/manager/state.go:116-187 | After any calls from a new state on: a poller that is starting or running was started while enabled and neither stopped nor marked failed since; and one that was is starting or running, or still stopping |
| PollerStates.OneMoreCall | internal/manager/state.go:116-187 | What each further call makes of the oper state: running exactly from starting, stopping exactly from starting and running, restartable from stopped and error |
| PollerStates.PollerState.Enable | internal/manager/state.go:85-92 | Enabled and dirty |
| PollerStates.PollerState.Disable | internal/manager/state.go:95-102 | Disabled and dirty |
| PollerStates.PollerState.Start | internal/manager/state.go:116-136 | Starts from stopped or error when enabled; refuses otherwise, except when already starting or running |
| PollerStates.PollerState.MarkRunning | internal/manager/state.go:139-147 | Only from starting |
| PollerStates.PollerState.Stop | internal/manager/state.go:150-168 | Running and starting become stopping, error becomes stopped |
| PollerStates.PollerState.MarkStopped | internal/manager/state.go:171-177 | Stopped and dirty |
| PollerStates.PollerState.MarkError | internal/manager/state.go:180-187 | Error, with its text, and dirty |
| PollerStates.PollerState.RecordPollResult | internal/manager/state.go:209-248 | The branches do what the health function says, and mark the state dirty |
| Dispatching.StepKeepsRunningScheduled | internal/server/dispatch.go:245-337 | Every complete dispatch keeps: a running poller exists, is enabled in its state, and is scheduled |
| Dispatching.RunningImpliesEnabledAndScheduled | internal/server/dispatch.go:245-337 | So it holds after any dispatches that start with none running, whichever store updates and resolutions fail |
| Dispatching.FailedDisableLeavesRunning | internal/manager/poller.go:367-387 | The poller's own admin state can disagree: a Disable whose store update fails |
| Dispatching.AgreementKeptIff | internal/manager/poller.go:344-387 | A dispatch keeps that admin state in agreement if and only if it is not a Disable, failing in the store, of a running poller |
| Dispatching.Dispatcher.StateOf | internal/manager/state.go:307-330 | The state manager's object for a key, made fresh when missing |
| Dispatching.Dispatcher.HandleCreate | internal/server/dispatch.go:245-274 | Poller, state and schedule change as the dispatch function says |
| Dispatching.Dispatcher.HandleEnable | internal/server/dispatch.go:292-315 | Poller, state and schedule change as the dispatch function says; the schedule and the running state only with a configuration |
| Dispatching.Dispatcher.HandleDisable | internal/server/dispatch.go:317-337 | Poller, state and schedule change as the dispatch function says; state and schedule only if the store agrees |
| Dispatching.Dispatcher.HandleDelete | internal/handler/poller.go:239-258 | Refused for a running poller; otherwise unscheduled, and gone if the store agrees |
| DispatchHistory.OthersStay | internal/server/dispatch.go:245-337 | No dispatch changes the poller, state or schedule of another key |
| DispatchHistory.CreateDoes | internal/server/dispatch.go:245-274 | The new poller is disabled unless it asks otherwise, its state says the same, and it is scheduled exactly if it is enabled and has a configuration |
| DispatchHistory.EnableDoes | internal/server/dispatch.go:291-316 | A successful Enable leaves the poller and its state enabled, and with a configuration scheduled and, from stopped, error or starting, running |
| DispatchHistory.DisableDoes | internal/server/dispatch.go:318-337 | A successful Disable leaves the poller disabled, stopped and not scheduled; a failing one writes the poller's own admin state only |
| DispatchHistory.DeleteDoes | internal/handler/poller.go:239-257 | Refused for a running poller and for an unknown one; otherwise it is off the schedule, and without poller and state if the store agrees |
| DispatchHistory.PollersStand | internal/server/dispatch.go:245-337 | After any dispatches there are exactly the pollers that were created and not deleted since |
| DispatchHistory.ScheduledStand | internal/server/dispatch.go:245-337 | Exactly those keys are scheduled that a successful Enable, or a Create as enabled, scheduled with a configuration, and no successful Disable and no Delete that was not refused has unscheduled since |
| DispatchHistory.RunningStand | internal/server/dispatch.go:245-337 | Exactly those pollers run that a successful Enable with a configuration started and no successful Disable has stopped since |
| SampleFlow.StepConserves | internal/manager/sync.go:94-103 | Each lock section and each insert keeps: added == buffered + in flight + stored + lost, as multisets |
| SampleFlow.SamplesAreConserved | internal/manager/sync.go:94-263 | So under any interleaving of AddSample calls, the flush loop and Stop no sample is dropped or doubled |
| SampleFlow.LessThanABatchWaits | internal/manager/sync.go:94-103 | Between calls less than a batch is buffered |
| SampleFlow.StopStoresAllIff | internal/manager/sync.go:78-104 | At the moment when Stop flushes: whatever the calls under way do next, without further samples and failing inserts Stop returns with every sample stored exactly once, if and only if no AddSample call holds a batch that it has taken and nothing was lost before |
| SampleFlow.StepMoves | internal/manager/sync.go:94-264 | Where each step moves samples: into the buffer, from it into the hands of a call, the loop or Stop, and from there into the table |
| SampleFlow.EachFillIsFlushed | internal/manager/sync.go:94-103 | Every AddSample whose sample fills a batch flushes once, or has still to |
| SampleFlow.LoopStaysEnded | internal/manager/sync.go:78-155 | Once the flush loop has ended it has no batch and takes none |
| StateFlush.WriteKeepsSound | internal/manager/sync.go:183-187 | The batch update keeps clean states saved, if the copies are still true |
| StateFlush.ClearKeepsSound | internal/manager/sync.go:189-192 | So does clearing one flag |
| StateFlush.SoundKeptIff | internal/manager/sync.go:157-195 | A step of the flush, or a change, creation or deletion of a poller meanwhile, keeps clean states saved and the flush's copies true if and only if it is quiet |
| StateFlush.SoundThroughoutIff | internal/manager/sync.go:157-195 | The runs that stay so are exactly the quiet ones |
| StateFlush.CleanMeansSaved | internal/manager/sync.go:157-195 | At every moment of a quiet run, in the middle of a flush as well, a clean state's existing row equals memory |
| StateFlush.CreateKeepsIff | internal/manager/poller.go:147-185 | At the moment it is made: making a poller leaves clean states saved if and only if the state there is for its name, if any, is dirty or what a new row holds |
| StateSaving.FinishedSavedIff | internal/manager/sync.go:157-195 | In any reachable state: once the flush under way is through, every clean state equals its row if and only if each will still be dirty, or holds what the flush is to write there, or equals the row that it leaves alone |
| StateSaving.SavedKeptIff | internal/manager/sync.go:157-195 | In any reachable state in which that is so: a step of the flush, or a change, creation or deletion meanwhile, leaves it so if and only if it saves: changes of a copied state only to what its row will hold, creations as in CreateIsSavedIff, failing writes only with nothing to repair |
| StateSaving.SavedThroughoutIff | internal/manager/sync.go:157-195 | The runs on which it stays so are exactly those whose every step saves |
| StateSaving.SavedWhenIdle | internal/manager/sync.go:157-195 | After such a run, with no flush under way, a clean state equals its row |
| StateSaving.ChangeIsSavedIff | internal/manager/sync.go:157-195 | However far a flush has come: once it is through, clean states equal their rows if and only if the change made now is of a state not yet copied or already cleared, or changes nothing, or has no row |
| StateSaving.CreateIsSavedIff | internal/manager/poller.go:147-185 | However far a flush has come: once it is through, clean states equal their rows if and only if the state of the poller made now stays dirty, or holds what the flush is still to write for its name, or if there is nothing to write for it what a new row holds |
| StateSaving.LateResultIsLost | internal/manager/manager.go:178-192 | A run to it: a late poll result makes a state for a deleted poller; a flush clears it without a row; the next poller of that name has a new row and that state, and no change came between copy and clearing |
| StateSaving.OldStateOverwritesNew | internal/store/poller.go:386-414 | A run to it: a poller is deleted and made again while a flush holds its old state; the batch update, which goes by name, writes the old state into the new row |
| StateSaving.ChangeBetweenIsLost | internal/manager/sync.go:157-195 | A run to it: a change between copy and clearing is lost: clean state, old row |
| Syncing.SyncManager.AddSample | internal/manager/sync.go:94-103 | An add, with the flush it owes when the buffer is full |
| Syncing.SyncManager.FlushSamples | internal/manager/sync.go:244-263 | The whole buffer moves to the table, or is lost when the insert fails; the buffer is empty |
| Syncing.SyncManager.Stop | internal/manager/sync.go:78-91 | With the loop ended and no call under way Stop flushes states and samples: no state stays dirty if the update works, and then every sample ever added is stored exactly once if no insert has failed |
| Syncing.SyncManager.GetDirty | internal/manager/state.go:342-353 | Exactly the dirty states, each once |
| Syncing.SyncManager.SnapshotIs | internal/manager/sync.go:163-180 | What a row holds of a state, with the four health texts |
| Syncing.SyncManager.FlushStates | internal/manager/sync.go:157-195 | Every dirty state's existing row becomes its snapshot and its flag is cleared, or nothing changes when the update fails |
| Likes.LikeItself | internal/store/target.go:290-297 | A text with anything appended is LIKE the text with % appended, whatever wildcards it has |
| Likes.LikeMore | internal/store/tree.go:229-239 | What extends a match of such a pattern matches |
| Likes.LikePrefixIff | internal/store/tree.go:229-239 | Such a pattern means "starts with" if and only if the text has no wildcard |
| Paths.NormalizeTwice | internal/store/tree.go:341-350 | Normalised by the manager and again by the store, every path is canonical |
| Paths.NormalizeTwiceLeads | internal/store/tree.go:341-350 | Both together make of any path where it leads from the root, whether it starts there or not |
| Paths.NormalizeAgainIff | internal/store/tree.go:341-350 | One normalisation is enough if and only if the path starts at the root or leads to something below where it starts; the empty path gives /. |
| Paths.DestinationJoin | cmd/snmpctl/shell/context.go:76-104 | Walking a joined path is walking the first part and then the second |
| TreeModel.NormalizedIsCanonical | internal/manager/tree.go:35-44 | What manager and store make of any path is canonical |
| TreeModel.OwnLinksAreTaken | internal/store/target.go:290-297 | The deletion of a target takes along every link to it and to its pollers |
| TreeModel.TakesOnlyOwnIff | internal/store/target.go:290-297 | It takes no other link if and only if the name has neither % nor _; names may have _ |
| TreeModel.PollerRef | internal/manager/tree.go:212-224 | A reference that parses to a poller is the formatted reference of that poller |
| TreeModel.NewLinkLeads | internal/store/tree.go:55-88 | A reference that was validated parses to what was validated |
| TreeModel.StepKeepsLeading | internal/store/tree.go:55-103 | Every operation keeps: each stored link parses and leads to a stored target or poller |
| TreeModel.EveryLinkLeads | internal/store/target.go:234-312 | So it is after any creates and deletes, with any names and paths; and each poller has one state row and one stats row |
| TreeRows.DeleteTargetTakes | internal/store/target.go:234-312 | A target goes with its pollers, their states and stats and the links to it and them, and no other row does; while it has pollers, only by force |
| TreeRows.NoLinkIsLeft | internal/store/target.go:234-312 | After that no link leads to it or to one of its pollers |
| TreeRows.CreatePollerPuts | internal/store/poller.go:63-112 | A poller comes with its state row and its stats row, or not at all |
| TreeRows.DeletePollerTakes | internal/store/poller.go:266-317 | A poller goes with its state, its stats and the links to it, and no other row does |
| TreeRows.UnlinkTakes | internal/store/tree.go:258-294 | Deleting links deletes exactly those whose reference is the target's, the poller's, or like the target's pollers' |
| TreeRows.SelectedIsLed | internal/store/tree.go:258-281 | The references selected for a target or a poller are exactly those that lead to it |
| TreeRows.DeleteNamespaceTakes | internal/store/namespace.go:167-209 | A namespace goes with everything in it; while it has targets, only by force |
| TreeRows.MakeDirectoryMakes | internal/store/tree.go:23-52 | The directory is made with its description, the missing ones above it with none, and every node there stays as it is |
| TreeRows.MakeLinkMakes | internal/store/tree.go:55-88 | A link is made exactly if what it refers to exists and its path is free once the directories are made; it is of its kind and leads there |
| TreeRows.DeleteNodeTakes | internal/store/tree.go:214-255 | Exactly the node goes, or with recursion also what its pattern selects; nothing when it has children and neither recursion nor force is asked for |
| TreeRows.TargetsStand | internal/store/target.go:28-312 | After any operations there are exactly the targets that were created and not deleted since, by themselves or with their namespace |
| TreeRows.PollersStand | internal/store/poller.go:63-317 | And exactly the pollers that were created and not deleted since, by themselves, with their target or with their namespace; each with its state row and its stats row, and no others |
| TreeParents.DirectChildIff | internal/store/tree.go:193-211 | isDirectChild holds exactly for the nodes whose parent path it is |
| TreeParents.DirectoriesKeepNested | internal/store/tree.go:23-52 | Making a directory and those above it leaves every node with its parent directory |
| TreeParents.LinkKeepsNested | internal/store/tree.go:55-88 | So does a link with a single-segment name |
| TreeParents.SelectionIsClosed | internal/store/tree.go:229-239 | A recursive delete removes a descendant-closed set, for every path |
| TreeParents.SelectionIsSubtreeIff | internal/store/tree.go:229-239 | It removes exactly the subtree if and only if the path has no wildcard |
| TreeParents.SingleDeleteIff | internal/store/tree.go:240-250 | Deleting one node leaves the rest nested if and only if it is absent or childless |
| TreeParents.DeleteNodeKeepsNestedIff | internal/store/tree.go:214-255 | A delete keeps the tree nested if and only if it is recursive, or not forced, or meets no node, or no child |
| TreeParents.DirectoriesNestedIff | internal/store/tree.go:23-52 | Making the directories to a path keeps the tree nested if and only if no link is on the way |
| TreeParents.LinkNestedIff | internal/store/tree.go:55-88 | A new link keeps it nested if and only if it is at the top level or in a directory |
| TreeParents.MakeLinkNestedIff | internal/manager/tree.go:66-84 | Both at once for the manager's CreateLink, with any name |
| TreeParents.PlainNameIsOrderly | internal/manager/tree.go:66-84 | With a single-segment name, no link on the way and none at its end, that is so |
| TreeParents.NestedKeptIff | internal/store/tree.go:23-255 | An operation keeps every node's parent directory if and only if it is orderly |
| TreeParents.NestedThroughoutIff | internal/store/tree.go:23-255 | The runs that keep every parent are exactly the orderly ones |
| TreeParents.EveryNodeHasItsParent | internal/store/tree.go:23-255 | So it is after any orderly run |
| TreeParents.BeneathLinkIsLeftBehind | internal/store/tree.go:23-52 | A directory made beneath a link is left without its parent when the link goes |
| TreeParents.SlashedLinkNameHasNoParent | internal/store/tree.go:55-58 | A link whose name has a slash has none |
| TreeStores.Store.CreateTarget | internal/store/target.go:28-52 | Adds the row unless there is one |
| TreeStores.Store.DeleteTarget | internal/store/target.go:234-312 | Target, pollers, states, stats and links go, with the numbers reported; refused with pollers and without force |
| TreeStores.Store.CreatePoller | internal/store/poller.go:63-112 | Three rows or none |
| TreeStores.Store.DeletePoller | internal/store/poller.go:266-317 | Three rows and the links go, with the number of links reported |
| TreeStores.Store.DeleteLinksToTarget | internal/store/tree.go:258-268 | The links to the target go |
| TreeStores.Store.DeleteLinksToPoller | internal/store/tree.go:271-281 | The links to the poller go |
| TreeStores.Store.DeleteLinksToTargetAndPollers | internal/store/tree.go:284-294 | Both kinds go |
| TreeStores.Store.DeleteNamespace | internal/store/namespace.go:167-209 | Everything goes, with the numbers of targets and pollers reported; refused with targets and without force |
| TreeStores.Store.CreateTreeDirectory | internal/store/tree.go:23-52 | The loop makes exactly the missing directories on the way, with the description on the last |
| TreeStores.Store.CreateDirectory | internal/manager/tree.go:53-63 | Through the manager, for any path: the directories on the way to its canonical form |
| TreeStores.Store.CreateTreeLink | internal/store/tree.go:55-88 | Links exactly if the reference exists and the path is free |
| TreeStores.Store.CreateLink | internal/manager/tree.go:66-84 | Directories first, and then the link; a link made leads somewhere |
| TreeStores.Store.ValidateLinkRef | internal/store/tree.go:90-103 | Whether the referenced target or poller exists |
| TreeStores.Store.DeleteSelected | internal/store/tree.go:228-255 | The node or its selection goes, and their number is reported |
| TreeStores.Store.DeleteTreeNode | internal/store/tree.go:214-255 | Refused exactly with children and neither recursive nor force; the number of removed nodes is reported |
| Pagination.AfterIsLater | internal/server/browse.go:135-150 | What remains after a cursor is the tail of the later ids, whether or not the cursor is still an id |
| Pagination.NextIsLater | internal/server/browse.go:152-190 | A next cursor leaves exactly what the page has not shown |
| Pagination.FollowListsAllIff | internal/store/target.go:129-194 | Following next cursors lists every matching name once, ascending, if and only if the empty name does not stand alone on the first of several pages |
| Pagination.BrowseListsAllIff | internal/server/browse.go:98-193 | Following the server's next cursors lists every matching id that is a target once, ascending, if and only if nowhere in the sorted ids a page's worth in a row are no targets, or empty, with a target behind |
| Pagination.SearchStrings | internal/server/browse.go:137 | The binary search finds where the cursor belongs |
| Pagination.ClampLimit | internal/server/browse.go:24-31 | 100 for a request that is not positive, 1000 for one beyond, otherwise what is requested |
| Pagination.BrowseTargetList | internal/server/browse.go:98-193 | One page of the sorted matching ids without those that are no target, and the total |
| Pagination.BrowsePageIsPage | internal/server/browse.go:98-193 | When every id is a target that is the plain page |
| Pagination.Nodes | internal/server/browse.go:158-180 | The ids that are targets, and the last of them |
| Pagination.ListTargetsFiltered | internal/store/target.go:129-194 | The same page with a positive limit, everything without |
| ShellPaths.NormalIdempotent | cmd/snmpctl/shell/context.go:76-104 | Exactly the canonical paths are left alone, so normalising is idempotent |
| ShellPaths.ResolveIsCanonical | cmd/snmpctl/shell/context.go:58-73 | Resolved paths are canonical, and a canonical path resolves to itself |
| ShellPaths.ResolveJoins | cmd/snmpctl/shell/context.go:58-104 | Resolving a and then b is resolving a/b, for non-empty relative a and b, from any current path |
| ShellPaths.DownAndUp | cmd/snmpctl/shell/context.go:58-104 | Into a name and up again leads back |
| ShellPaths.NormalizePath | cmd/snmpctl/shell/context.go:76-104 | The loop with its stack ends where the path leads |
| ShellPaths.Context.ResolvePath | cmd/snmpctl/shell/context.go:58-73 | Refines the specified resolution |
| ShellPaths.Context.Cd | cmd/snmpctl/shell/context.go:45-55 | The current path stays canonical and valid, and changes exactly for valid paths |
| ShellPaths.IsValidPath | cmd/snmpctl/shell/context.go:107-122 | The root, or under one of the four top-level directories |

## Left out

- SNMP execution, TLS, sockets, framing and the accept loop: the poll function's result is an arbitrary value.
- Secret encryption, and `ResolveSecrets`, which changes the cached result in place: cached results are never written to here.
- The subscription reverse index, the request wrappers in `internal/handler`, the loader, the bridge and the command line beyond path resolution.
- The second copy of the scheduler (`internal/server/poller.go:315-582`): the same shape as the one modelled.
- SchedulerModel.Next: a Reschedule may come whatever the queue holds by then, so the runs include some in which it never was full; the theorems cover more for it.
- Integer widths: int64 milliseconds, uint32 intervals and int counters are unbounded here.
- The clock is an input that never goes back; `rand.Int63n`'s jitter is an arbitrary number below the interval, which must be at least 1.
- Starting and stopping the scheduler's workers, its result channel and the wake-up signal: any step may come at any time.
- SchedulerClass.Scheduler.ProcessDueItems: states the uninterrupted case; interruptions are steps of the state machine.
- TargetBuffer.Target.ResizeBuffer: requires a size of at least 1, because the program divides by it.
- `Target`'s owners and configuration fields, and `ToProto` beyond its timing fields.
- SampleDispatching.DispatchSample: `Server.UpdateTargetState` is not part of the repository and is taken to be `Indices.UpdateState`; sending to subscribed sessions is not modelled.
- IndicesModel.Indices.QueryByHost: `path.Match` is a parameter; a malformed pattern matches nothing.
- TagIndexing.TagIndex.UpdateTags: returns a value, so that the caller could change the returned slice, which the index shares, is not captured.
- The locking of the indices, and `GetTags`, `GetRootCategories`, `AllTargets` and `Size`, which copy or count.
- ConfigResolving.ConfigResolver.Resolve: the call that no other call interrupts; the rows may change between its reads. Interleaved calls are steps of `ConfigCache`.
- PollerIndexes.PollerManager.Update: pollers are values, so a caller that changes a poller it was given is not captured.
- PollerIndexes.PollerManager.Load: the states and statistics that the program loads along with the pollers.
- `LastPollAt`, `LastSuccessAt` and `LastFailureAt`: set and saved along with the other fields of a state.
- Dispatching.RunningImpliesEnabledAndScheduled: dispatches are complete steps; two at once are not modelled.
- SampleFlow.StopStoresAllIff: `FlushAll` called by others than Stop is not a step; a flush of `AddSample` is.
- Syncing.SyncManager.AddSample: the call that nothing interrupts; interleaved calls are steps of `SampleFlow`.
- Syncing.SyncManager.Stop: with no call under way, and without the flush of statistics.
- StateFlush.CleanMeansSaved: quiet runs only; the exact condition, with the flush brought to its end, is at `StateSaving.SavedThroughoutIff`. One flush at a time, as the loop and Stop arrange it; the flush of statistics has the same shape.
- TreeModel.EveryLinkLeads: operations are sequential and each transaction is atomic; in the program a target may go between the check and the insertion of a link (`internal/store/tree.go:70-84`).
- One namespace: every statement of the store selects one, so namespaces do not touch each other.
- The samples table in the deletes, versions and timestamps of rows, and the node cache of `TreeManager`, which the deletes of targets and pollers do not invalidate.
- Pagination.BrowseListsAllIff: the ids found and the targets do not change between pages.
- Pagination.ListTargetsFiltered: takes the names that match the labels, in order, as the query returns them.
- Completion and listing of paths in the shell, and the other views of the server's browse requests.
