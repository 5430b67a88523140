/** What the scheduler keeps over whole runs: calm runs, disciplined runs, and runs
    that never resume a poller or add a key twice. */
module SchedulerRuns {
  import opened PollHeap
  import opened PollerKeys
  import opened SchedulerModel
  import opened SchedulerNeverLost
  import opened SchedulerOrderly

  // ----- calm runs -----

  lemma {:induction false} CalmRunKeeps(s: State, steps: seq<Step>, t: State)
    requires Sane(s) && Orderly(s) && Run(CalmRun, s, steps, t)
    ensures Sane(t) && Orderly(t)
    decreases |steps|
  {
    if steps != [] {
      StepKeepsOrderly(s, steps[0]);
      CalmRunKeeps(Next(s, steps[0]), steps[1..], t);
    }
  }

  /** After a calm run the slice is a min-heap on NextPollMs in which no item occurs
      twice and every slot is its item's index; no heap item is marked Polling; no
      key has two jobs; and nothing waits whose key has a job. */
  lemma CalmRunsAreOrderly(queueSize: nat, clock: int, steps: seq<Step>, t: State)
    requires Run(CalmRun, Init(queueSize, clock), steps, t)
    ensures Sane(t) && Orderly(t)
  {
    CalmRunKeeps(Init(queueSize, clock), steps, t);
  }

  /** The test for an item that is already being polled never succeeds in a calm
      run: at every turn of the collecting loop the root is unmarked, so the pass
      takes exactly the due items, earliest first. */
  lemma CalmPassTakesExactlyTheDue(queueSize: nat, clock: int, steps: seq<Step>, t: State, now: int)
    requires Run(CalmRun, Init(queueSize, clock), steps, t)
    ensures Sane(t)
    ensures CollectedInOrder(t.heap, t.next, now, CollectDue(t.heap, t.next, t.polling, now))
  {
    CalmRunsAreOrderly(queueSize, clock, steps, t);
    CollectTakesExactlyTheDue(t.heap, t.next, t.polling, now);
  }

  // ----- what starts to wait -----

  /** Nothing starts to wait, and what waits keeps its time. */
  ghost predicate Quiet(s: State, r: State) {
    forall y: nat | Waiting(r, y) && y < |r.next| ::
      Waiting(s, y) && y < |s.next| && r.next[y] == s.next[y]
  }

  /** Only x can start to wait, and then is timed at t. */
  ghost predicate OnlyTimes(s: State, r: State, x: nat, t: int) {
    forall y: nat | Waiting(r, y) && y < |r.next| ::
      (Waiting(s, y) && y < |s.next| && r.next[y] == s.next[y]) || (y == x && r.next[y] == t)
  }

  lemma RequeueTimes(s: State, x: nat, t: int)
    requires Sane(s) && x < |s.next|
    ensures OnlyTimes(s, Requeue(s, x, t), x, t)
  {
    PushMembers(s.heap, s.next[x := t], x);
  }

  lemma AddTimes(s: State, k: PollerKey, interval: nat, jitter: nat, at: int)
    requires Sane(s)
    ensures OnlyTimes(s, AddStep(s, k, interval, jitter, at), |s.next|, at + jitter)
  {
    if k.String() !in s.idx {
      var s1 := NewItem(s, k, interval, at + jitter);
      PushMembers(s1.heap, s1.next, |s.next|);
    }
  }

  lemma TakeOutIsQuiet(s: State, x: nat)
    requires Sane(s) && x < |s.next|
    ensures Quiet(s, TakeOut(s, x))
  {
    assert TrackedAt(s.heap, x);
    if s.heap.index[x] >= 0 {
      RemoveMembers(s.heap, s.next, s.heap.index[x]);
    }
  }

  lemma RemoveIsQuiet(s: State, k: PollerKey)
    requires Sane(s)
    ensures Quiet(s, RemoveStep(s, k))
  {
    if k.String() in s.idx {
      TakeOutIsQuiet(s, s.idx[k.String()]);
      assert RemoveStep(s, k).heap == TakeOut(s, s.idx[k.String()]).heap;
    }
  }

  lemma PauseIsQuiet(s: State, k: PollerKey)
    requires Sane(s)
    ensures Quiet(s, PauseStep(s, k))
  {
    if k.String() in s.idx && s.heap.index[s.idx[k.String()]] >= 0 {
      TakeOutIsQuiet(s, s.idx[k.String()]);
      assert PauseStep(s, k).heap == TakeOut(s, s.idx[k.String()]).heap;
    }
  }

  lemma CollectIsQuiet(s: State, now: int)
    requires Sane(s)
    ensures Quiet(s, CollectStep(s, now))
  {
    CollectAccounts(s.heap, s.next, s.polling, now);
  }

  lemma DropIsQuiet(s: State)
    requires Sane(s) && s.due != []
    ensures Quiet(s, EnqueueStep(s)) && Quiet(s, HandOffStep(s)) && Quiet(s, s.(due := s.due[1..]))
  {
    assert s.due == [s.due[0]] + s.due[1..];
  }

  lemma CompleteTimes(s: State, k: PollerKey, at: int)
    requires Sane(s) && OnePlaceEach(s) && k in s.running
    ensures k.String() !in s.idx ==> Quiet(s, CompleteStep(s, k, at))
    ensures k.String() in s.idx ==>
      var x := s.idx[k.String()]; OnlyTimes(s, CompleteStep(s, k, at), x, at + s.interval[x])
  {
    if k.String() in s.idx {
      BusyIsOut(s, k);
      CompleteIsRequeue(s, k, at);
      RequeueTimes(JobDone(s, k), s.idx[k.String()], at + s.interval[s.idx[k.String()]]);
    }
  }

  lemma RescheduleTimes(s: State)
    requires Sane(s) && s.due != []
    ensures OnlyTimes(s, RescheduleStep(s), s.due[0], s.passNow + 10)
  {
    DropIsQuiet(s);
    RequeueTimes(s.(due := s.due[1..]), s.due[0], s.passNow + 10);
  }

  /** The item a step can make wait, and the time it is given. */
  function Woken(s: State, step: Step): (r: (nat, int))
    requires Sane(s) && Enabled(s, step)
  {
    match step
    case Add(_, _, jitter, at) => (|s.next|, at + jitter)
    case Resume(k, at) =>
      if k.String() in s.idx && s.heap.index[s.idx[k.String()]] < 0 then (s.idx[k.String()], at) else (|s.next|, at)
    case Reschedule(_) => (s.due[0], s.passNow + 10)
    case Complete(k, at) =>
      if k.String() in s.idx then (s.idx[k.String()], at + s.interval[s.idx[k.String()]]) else (|s.next|, at)
    case _ => (|s.next|, 0)
  }

  predicate Wakes(step: Step) {
    step.Add? || step.Resume? || step.Reschedule? || step.Complete?
  }

  lemma ResumeTimes(s: State, k: PollerKey, at: int)
    requires Sane(s) && Enabled(s, Resume(k, at))
    ensures var w := Woken(s, Resume(k, at)); OnlyTimes(s, ResumeStep(s, k, at), w.0, w.1)
  {
    if k.String() in s.idx {
      RequeueTimes(s, s.idx[k.String()], at);
    }
  }

  lemma UpdateAndTakeAreQuiet(s: State, k: PollerKey, interval: nat)
    requires Sane(s)
    ensures Quiet(s, UpdateIntervalStep(s, k, interval))
    ensures s.jobs != [] ==> Quiet(s, TakeStep(s))
  {
  }

  lemma CompletionTimes(s: State, k: PollerKey, at: int)
    requires Sane(s) && OnePlaceEach(s) && Enabled(s, Complete(k, at))
    ensures var w := Woken(s, Complete(k, at)); OnlyTimes(s, CompleteStep(s, k, at), w.0, w.1)
  {
    CompleteTimes(s, k, at);
  }

  lemma EffectTimes(s: State, step: Step)
    requires Sane(s) && OnePlaceEach(s) && Enabled(s, step)
    ensures if Wakes(step) then OnlyTimes(s, Effect(s, step), Woken(s, step).0, Woken(s, step).1)
            else Quiet(s, Effect(s, step))
  {
    hide AddStep, RemoveStep, UpdateIntervalStep, PauseStep, ResumeStep, CollectStep, Quiet, OnlyTimes;
    hide EnqueueStep, HandOffStep, RescheduleStep, TakeStep, CompleteStep, Sane, OnePlaceEach;
    match step
    case Add(k, interval, jitter, at) => AddTimes(s, k, interval, jitter, at);
    case Remove(k, _) => RemoveIsQuiet(s, k);
    case UpdateInterval(k, interval, _) => UpdateAndTakeAreQuiet(s, k, interval);
    case Pause(k, _) => PauseIsQuiet(s, k);
    case Resume(k, at) => ResumeTimes(s, k, at);
    case Collect(now, _) => CollectIsQuiet(s, now);
    case Enqueue(_) => DropIsQuiet(s);
    case HandOff(_) => DropIsQuiet(s);
    case Reschedule(_) => RescheduleTimes(s);
    case Take(_) => UpdateAndTakeAreQuiet(s, PollerKey("", "", ""), 0);
    case Complete(k, at) => CompletionTimes(s, k, at);
  }

  /** Whatever waits after a step waited before at the same time, or is the woken
      item with its new time. */
  lemma TimesAfter(s: State, step: Step, y: nat)
    requires Sane(s) && OnePlaceEach(s) && Enabled(s, step)
    requires Waiting(Next(s, step), y) && y < |Next(s, step).next|
    ensures (Waiting(s, y) && y < |s.next| && Next(s, step).next[y] == s.next[y])
         || (Wakes(step) && y == Woken(s, step).0 && Next(s, step).next[y] == Woken(s, step).1)
  {
    EffectTimes(s, step);
    assert Waiting(Effect(s, step), y);
  }

  // ----- disciplined runs -----

  /** Everything that waits is the item registered under its own key. */
  ghost predicate AllRegistered(s: State)
    requires Sane(s)
  {
    forall x: nat | x < |s.key| && Waiting(s, x) :: Registered(s, x)
  }

  lemma DisciplinedIsCalm(s: State, step: Step)
    requires Sane(s) && AllRegistered(s) && DisciplinedStep(s, step)
    ensures CalmStep(s, step)
  {
  }

  lemma RemovedDoesNotWait(s: State, k: PollerKey, at: int)
    requires Sane(s) && Orderly(s) && DisciplinedStep(s, Remove(k, at)) && k.String() in s.idx
    ensures !Waiting(RemoveStep(s, k), s.idx[k.String()])
  {
    var x := s.idx[k.String()];
    assert TrackedAt(s.heap, x);
    if s.heap.index[x] >= 0 {
      RemoveTakesOut(s.heap, s.next, s.heap.index[x]);
    } else {
      OutOfHeap(s.heap, x);
    }
  }

  lemma WokenIsRegistered(s: State, step: Step)
    requires Sane(s) && Enabled(s, step) && Wakes(step) && !step.Reschedule?
    ensures var x := Woken(s, step).0;
            var r := Next(s, step);
            x < |r.key| ==> r.key[x].String() in r.idx && (r.idx[r.key[x].String()] == x)
  {
  }

  ghost predicate Registered(s: State, x: nat)
    requires x < |s.key|
  {
    s.key[x].String() in s.idx && s.idx[s.key[x].String()] == x
  }

  lemma StaysRegistered(s: State, step: Step, x: nat)
    requires Sane(s) && Enabled(s, step) && x < |s.key| && Registered(s, x)
    ensures x < |Next(s, step).key|
    ensures Registered(Next(s, step), x)
         || (step.Remove? && step.key.String() in s.idx && x == s.idx[step.key.String()])
  {
  }

  lemma DisciplinedStepKeeps(s: State, step: Step)
    requires Sane(s) && Orderly(s) && AllRegistered(s)
    requires Enabled(s, step) && DisciplinedStep(s, step)
    ensures Orderly(Next(s, step)) && AllRegistered(Next(s, step))
  {
    var r := Next(s, step);
    DisciplinedIsCalm(s, step);
    StepKeepsOrderly(s, step);
    forall x: nat | x < |r.key| && Waiting(r, x)
      ensures Registered(r, x)
    {
      TimesAfter(s, step, x);
      if Waiting(s, x) && x < |s.key| {
        StaysRegistered(s, step, x);
        if step.Remove? && step.key.String() in s.idx {
          RemovedDoesNotWait(s, step.key, step.at);
        }
      } else {
        WokenIsRegistered(s, step);
      }
    }
  }

  /** And exactly the disciplined steps do: any other leaves an item waiting that is
      not registered, or no order. */
  lemma DisciplineKeptIff(s: State, step: Step)
    requires Sane(s) && Orderly(s) && AllRegistered(s) && Enabled(s, step)
    ensures Orderly(Next(s, step)) && AllRegistered(Next(s, step)) <==> DisciplinedStep(s, step)
  {
    if DisciplinedStep(s, step) {
      DisciplinedStepKeeps(s, step);
    } else if step.Remove? {
      var x := s.idx[step.key.String()];
      assert Waiting(Next(s, step), x) && !Registered(Next(s, step), x);
    } else {
      OrderlyKeptIff(s, step);
    }
  }

  lemma {:induction false} DisciplinedRunKeeps(s: State, steps: seq<Step>, t: State)
    requires Sane(s) && Orderly(s) && AllRegistered(s) && Run(DisciplinedRun, s, steps, t)
    ensures Sane(t) && Orderly(t) && AllRegistered(t)
    decreases |steps|
  {
    if steps != [] {
      DisciplinedStepKeeps(s, steps[0]);
      DisciplinedRunKeeps(Next(s, steps[0]), steps[1..], t);
    }
  }

  /** The place of a registered item follows from its index field: at that slot,
      or, with index -1, in no slot. */
  ghost predicate PlaceFollowsIndex(s: State, x: nat)
    requires Sane(s) && x < |s.next|
  {
    if s.heap.index[x] >= 0
    then s.heap.index[x] < |s.heap.slots| && s.heap.slots[s.heap.index[x]] == x
    else s.heap.index[x] == -1 && x !in s.heap.slots
  }

  /** After a disciplined run, moreover, only registered items are in the heap or
      collected, and every registered item is where its index field says. */
  lemma DisciplinedRunsAreOrderly(queueSize: nat, clock: int, steps: seq<Step>, t: State)
    requires Run(DisciplinedRun, Init(queueSize, clock), steps, t)
    ensures Sane(t) && Orderly(t) && AllRegistered(t)
    ensures forall k | k in t.idx :: PlaceFollowsIndex(t, t.idx[k])
  {
    DisciplinedRunKeeps(Init(queueSize, clock), steps, t);
    forall k | k in t.idx
      ensures PlaceFollowsIndex(t, t.idx[k])
    {
      assert TrackedAt(t.heap, t.idx[k]);
      if t.heap.index[t.idx[k]] < 0 {
        OutOfHeap(t.heap, t.idx[k]);
      }
    }
  }

  // ----- when polls are dispatched -----

  /** Every job is for the key of some item. */
  ghost predicate JobsHaveItems(s: State) {
    forall j | j in s.jobs || j in s.running :: exists x: nat :: KeyOf(s, x, j.String())
  }

  lemma FirstAddIsCalm(s: State, step: Step)
    requires Sane(s) && JobsHaveItems(s) && FirstAddStep(s, step)
    ensures CalmStep(s, step)
  {
    if step.Add? && step.key.String() !in s.idx {
      forall j | j in s.jobs || j in s.running
        ensures j.String() != step.key.String()
      {
        var x: nat :| KeyOf(s, x, j.String());
      }
    }
  }

  lemma JobsAfter(s: State, step: Step, j: PollerKey)
    requires Sane(s) && Enabled(s, step)
    requires j in Next(s, step).jobs || j in Next(s, step).running
    ensures j in s.jobs || j in s.running
         || ((step.Enqueue? || step.HandOff?) && j == s.key[s.due[0]])
  {
  }

  lemma KeysGrow(s: State, step: Step)
    requires Sane(s) && Enabled(s, step)
    ensures forall x, k | KeyOf(s, x, k) :: KeyOf(Next(s, step), x, k)
  {
  }

  lemma JobsKeepItems(s: State, step: Step)
    requires Sane(s) && JobsHaveItems(s) && Enabled(s, step)
    ensures JobsHaveItems(Next(s, step))
  {
    var r := Next(s, step);
    KeysGrow(s, step);
    forall j | j in r.jobs || j in r.running
      ensures exists x: nat :: KeyOf(r, x, j.String())
    {
      JobsAfter(s, step, j);
      if j in s.jobs || j in s.running {
        var x: nat :| KeyOf(s, x, j.String());
        assert KeyOf(r, x, j.String());
      } else {
        assert KeyOf(r, s.due[0], j.String());
      }
    }
  }

  /** No job for k will be sent before time b: what waits for k is timed at b or
      later, what is collected was due when its pass read the clock, and a job for
      k that is out already went out at b or later. */
  ghost predicate NotBefore(s: State, k: string, b: int)
    requires Sane(s)
  {
    && (forall x: nat | Waiting(s, x) && KeyOf(s, x, k) :: s.next[x] >= b)
    && (JobFor(s, k) ==> b <= s.clock)
  }

  ghost predicate PassIsPast(s: State)
    requires Sane(s)
  {
    s.due != [] ==> s.passNow <= s.clock && forall x | x in s.due :: s.next[x] <= s.passNow
  }

  /** What the timing argument needs of a state. */
  ghost predicate Timely(s: State)
    requires Sane(s)
  {
    Orderly(s) && JobsHaveItems(s) && PassIsPast(s)
  }

  lemma NewKeys(s: State, step: Step, x: nat, k: string)
    requires Sane(s) && Enabled(s, step) && KeyOf(Next(s, step), x, k) && !KeyOf(s, x, k)
    ensures step.Add? && step.key.String() == k && k !in s.idx && x == |s.key|
  {
  }

  lemma CollectedAreDue(s: State, now: int)
    requires Sane(s)
    ensures forall x | x in CollectStep(s, now).due :: s.next[x] <= now
  {
    CollectAccounts(s.heap, s.next, s.polling, now);
  }

  /** A step writes no poll time but the woken item's. */
  lemma OnlyWokenIsTimed(s: State, step: Step, x: nat)
    requires Sane(s) && Enabled(s, step) && x < |s.next|
    ensures x < |Next(s, step).next|
    ensures (Wakes(step) && x == Woken(s, step).0) || Next(s, step).next[x] == s.next[x]
  {
    hide Push, CollectDue, PollHeap.Remove, Pop, PollerKey.String;
  }

  lemma DueShrinks(s: State, step: Step, x: nat)
    requires Sane(s) && Enabled(s, step) && !step.Collect?
    requires x in Next(s, step).due
    ensures x in s.due && Next(s, step).passNow == s.passNow
    ensures NoRepeats(s.due) && step.Reschedule? ==> x != s.due[0]
  {
    hide Push, PollHeap.Remove, PollerKey.String;
    assert s.due != [] ==> s.due == [s.due[0]] + s.due[1..];
  }

  /** What is collected and not yet queued keeps its poll time in calm runs. */
  lemma DueAfter(s: State, step: Step, x: nat)
    requires Sane(s) && Orderly(s) && Enabled(s, step) && CalmStep(s, step) && !step.Collect?
    requires x in Next(s, step).due
    ensures x in s.due
    ensures Next(s, step).passNow == s.passNow
    ensures x < |Next(s, step).next| && Next(s, step).next[x] == s.next[x]
  {
    DueShrinks(s, step, x);
    OnlyWokenIsTimed(s, step, x);
    assert Waiting(s, x);
    if step.Complete? && step.key.String() in s.idx {
      BusyIsOut(s, step.key);
    }
  }

  lemma PassStaysPast(s: State, step: Step)
    requires Sane(s) && Timely(s) && Enabled(s, step) && CalmStep(s, step)
    ensures PassIsPast(Next(s, step))
  {
    var r := Next(s, step);
    if step.Collect? {
      CollectedAreDue(s, step.now);
    } else {
      forall x | x in r.due
        ensures r.next[x] <= r.passNow && s.due != []
      {
        DueAfter(s, step, x);
      }
      if r.due != [] {
        DueAfter(s, step, r.due[0]);
      }
    }
  }

  lemma StepKeepsTimely(s: State, step: Step)
    requires Sane(s) && Timely(s) && Enabled(s, step) && CalmStep(s, step)
    ensures Timely(Next(s, step))
  {
    StepKeepsOrderly(s, step);
    JobsKeepItems(s, step);
    PassStaysPast(s, step);
  }

  lemma WokenIsNotBefore(s: State, step: Step, k: string, b: int)
    requires Sane(s) && Timely(s) && Enabled(s, step) && CalmStep(s, step) && !Renews(s, step, k)
    requires NotBefore(s, k, b) && Wakes(step) && KeyOf(s, Woken(s, step).0, k)
    ensures Woken(s, step).1 >= b
  {
    if step.Reschedule? {
      assert Waiting(s, s.due[0]);
    }
    if step.Complete? {
      assert JobFor(s, step.key.String());
    }
  }

  lemma WaitersNotBefore(s: State, step: Step, k: string, b: int, x: nat)
    requires Sane(s) && Timely(s) && Enabled(s, step) && CalmStep(s, step) && !Renews(s, step, k)
    requires NotBefore(s, k, b)
    requires Waiting(Next(s, step), x) && KeyOf(Next(s, step), x, k)
    ensures Next(s, step).next[x] >= b
  {
    if !KeyOf(s, x, k) {
      NewKeys(s, step, x, k);
    } else {
      TimesAfter(s, step, x);
      if Wakes(step) && x == Woken(s, step).0 {
        WokenIsNotBefore(s, step, k, b);
      }
    }
  }

  lemma JobsNotBefore(s: State, step: Step, k: string, b: int)
    requires Sane(s) && Timely(s) && Enabled(s, step) && CalmStep(s, step) && !Renews(s, step, k)
    requires NotBefore(s, k, b) && JobFor(Next(s, step), k)
    ensures b <= step.at
  {
    var r := Next(s, step);
    var j :| (j in r.jobs || j in r.running) && j.String() == k;
    JobsAfter(s, step, j);
    if j in s.jobs || j in s.running {
      assert JobFor(s, k);
    } else {
      assert Waiting(s, s.due[0]) && KeyOf(s, s.due[0], k);
    }
  }

  lemma StepKeepsNotBefore(s: State, step: Step, k: string, b: int)
    requires Sane(s) && Timely(s) && Enabled(s, step) && CalmStep(s, step) && !Renews(s, step, k)
    requires NotBefore(s, k, b)
    ensures NotBefore(Next(s, step), k, b)
  {
    var r := Next(s, step);
    KeysGrow(s, step);
    forall x: nat | Waiting(r, x) && KeyOf(r, x, k)
      ensures r.next[x] >= b
    {
      WaitersNotBefore(s, step, k, b, x);
    }
    if JobFor(r, k) {
      JobsNotBefore(s, step, k, b);
    }
  }

  lemma {:induction false} RunKeepsNotBefore(s: State, steps: seq<Step>, t: State, k: string, b: int)
    requires Sane(s) && Timely(s) && NotBefore(s, k, b) && Run(KeepingRun(k), s, steps, t)
    ensures Sane(t) && Timely(t) && NotBefore(t, k, b)
    decreases |steps|
  {
    if steps != [] {
      StepKeepsTimely(s, steps[0]);
      StepKeepsNotBefore(s, steps[0], k, b);
      RunKeepsNotBefore(Next(s, steps[0]), steps[1..], t, k, b);
    }
  }

  lemma {:induction false} RunKeepsTimely(s: State, steps: seq<Step>, t: State)
    requires Sane(s) && Timely(s) && Run(CalmRun, s, steps, t)
    ensures Sane(t) && Timely(t)
    decreases |steps|
  {
    if steps != [] {
      StepKeepsTimely(s, steps[0]);
      RunKeepsTimely(Next(s, steps[0]), steps[1..], t);
    }
  }

  /** The step sends a job for this key. */
  predicate Dispatches(s: State, step: Step, k: string)
    requires Sane(s) && Enabled(s, step)
  {
    (step.Enqueue? || step.HandOff?) && s.key[s.due[0]].String() == k
  }

  lemma DispatchIsNotBefore(s: State, step: Step, k: string, b: int)
    requires Sane(s) && Timely(s) && NotBefore(s, k, b)
    requires Enabled(s, step) && Dispatches(s, step, k)
    ensures step.at >= b
  {
    assert Waiting(s, s.due[0]) && KeyOf(s, s.due[0], k);
  }

  lemma CompletionEndsJobs(s: State, done: Step)
    requires Sane(s) && OneJobEach(s.jobs, s.running) && Enabled(s, done) && done.Complete?
    ensures !JobFor(Next(s, done), done.key.String())
  {
    NoJobLeft(s, done.key);
    SameJobs(JobDone(s, done.key), Next(s, done));
  }

  lemma CompletionSetsBound(s: State, done: Step)
    requires Sane(s) && Timely(s) && Enabled(s, done)
    requires done.Complete? && done.key.String() in s.idx
    ensures NotBefore(Next(s, done), done.key.String(), done.at + s.interval[s.idx[done.key.String()]])
  {
    var k := done.key.String();
    var r := Next(s, done);
    CompletionEndsJobs(s, done);
    assert KeyOf(r, s.idx[k], k);
    assert JobFor(s, k);
    forall y: nat | Waiting(r, y) && KeyOf(r, y, k)
      ensures r.next[y] >= done.at + s.interval[s.idx[k]]
    {
      assert KeyOf(s, y, k);
      TimesAfter(s, done, y);
    }
  }

  lemma InitIsTimely(queueSize: nat, clock: int)
    ensures Timely(Init(queueSize, clock)) && AllRegistered(Init(queueSize, clock))
  {
  }

  /** Not before b, from the step that sets the bound to the dispatch. */
  lemma BoundHolds(s: State, between: seq<Step>, t: State, send: Step, k: string, b: int)
    requires Sane(s) && Timely(s) && NotBefore(s, k, b)
    requires Run(KeepingRun(k), s, between, t)
    requires Sane(t) && Enabled(t, send) && Dispatches(t, send, k)
    ensures send.at >= b
  {
    RunKeepsNotBefore(s, between, t, k, b);
    DispatchIsNotBefore(t, send, k, b);
  }

  /** In calm runs a poller is never dispatched before a completion plus the interval
      in force then, unless it has been resumed or registered anew since. */
  lemma DispatchWaitsForInterval(queueSize: nat, clock: int, before: seq<Step>, s1: State, done: Step,
                                 between: seq<Step>, s2: State, send: Step)
    requires Run(CalmRun, Init(queueSize, clock), before, s1)
    requires Sane(s1) && Enabled(s1, done) && done.Complete? && done.key.String() in s1.idx
    requires Run(KeepingRun(done.key.String()), Next(s1, done), between, s2)
    requires Sane(s2) && Enabled(s2, send) && Dispatches(s2, send, done.key.String())
    ensures send.at >= done.at + s1.interval[s1.idx[done.key.String()]]
  {
    InitIsTimely(queueSize, clock);
    RunKeepsTimely(Init(queueSize, clock), before, s1);
    StepKeepsTimely(s1, done);
    CompletionSetsBound(s1, done);
    BoundHolds(Next(s1, done), between, s2, send, done.key.String(),
               done.at + s1.interval[s1.idx[done.key.String()]]);
  }

  lemma RescheduleSetsBound(s: State, retry: Step)
    requires Sane(s) && Timely(s) && Enabled(s, retry) && retry.Reschedule?
    ensures NotBefore(Next(s, retry), s.key[s.due[0]].String(), s.passNow + 10)
  {
    var x := s.due[0];
    var k := s.key[x].String();
    var r := Next(s, retry);
    assert Waiting(s, x) && KeyOf(s, x, k) && KeyOf(r, x, k);
    SameJobs(s, r);
    forall y: nat | Waiting(r, y) && KeyOf(r, y, k)
      ensures r.next[y] >= s.passNow + 10
    {
      assert KeyOf(s, y, k);
      TimesAfter(s, retry, y);
      assert y == x;
    }
  }

  /** A poller that found the queue full is not dispatched before 10 ms after the
      clock reading of the pass that tried. */
  lemma RetryWaitsTenMs(queueSize: nat, clock: int, before: seq<Step>, s1: State, retry: Step,
                        between: seq<Step>, s2: State, send: Step)
    requires Run(CalmRun, Init(queueSize, clock), before, s1)
    requires Sane(s1) && Enabled(s1, retry) && retry.Reschedule?
    requires Run(KeepingRun(s1.key[s1.due[0]].String()), Next(s1, retry), between, s2)
    requires Sane(s2) && Enabled(s2, send) && Dispatches(s2, send, s1.key[s1.due[0]].String())
    ensures send.at >= s1.passNow + 10
  {
    InitIsTimely(queueSize, clock);
    RunKeepsTimely(Init(queueSize, clock), before, s1);
    StepKeepsTimely(s1, retry);
    RescheduleSetsBound(s1, retry);
    BoundHolds(Next(s1, retry), between, s2, send, s1.key[s1.due[0]].String(), s1.passNow + 10);
  }

  // ----- every disciplined run, and every run of first adds, is calm -----

  lemma {:induction false} DisciplinedRunsAreCalm(s: State, steps: seq<Step>, t: State)
    requires Sane(s) && Orderly(s) && AllRegistered(s) && Run(DisciplinedRun, s, steps, t)
    ensures Run(CalmRun, s, steps, t)
    decreases |steps|
  {
    if steps != [] {
      DisciplinedIsCalm(s, steps[0]);
      DisciplinedStepKeeps(s, steps[0]);
      DisciplinedRunsAreCalm(Next(s, steps[0]), steps[1..], t);
    }
  }

  lemma {:induction false} FirstAddsRunsAreCalm(s: State, steps: seq<Step>, t: State)
    requires Sane(s) && Timely(s) && Run(FirstAddsRun, s, steps, t)
    ensures Run(CalmRun, s, steps, t)
    decreases |steps|
  {
    if steps != [] {
      FirstAddIsCalm(s, steps[0]);
      StepKeepsTimely(s, steps[0]);
      FirstAddsRunsAreCalm(Next(s, steps[0]), steps[1..], t);
    }
  }

  /** They renew no key that has had an item. */
  lemma {:induction false} FirstAddsRunsAreKeeping(s: State, steps: seq<Step>, t: State, x: nat, k: string)
    requires Sane(s) && Timely(s) && KeyOf(s, x, k) && Run(FirstAddsRun, s, steps, t)
    ensures Run(KeepingRun(k), s, steps, t)
    decreases |steps|
  {
    if steps != [] {
      FirstAddIsCalm(s, steps[0]);
      StepKeepsTimely(s, steps[0]);
      KeysGrow(s, steps[0]);
      FirstAddsRunsAreKeeping(Next(s, steps[0]), steps[1..], t, x, k);
    }
  }
}
