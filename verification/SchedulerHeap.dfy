/** The heap by itself, in every interleaving: exactly which steps leave it a heap in
    which no item occurs twice, and exactly which leave it free of removed pollers. */
module SchedulerHeaps {
  import opened PollHeap
  import opened PollerKeys
  import opened SchedulerModel
  import opened SchedulerNeverLost
  import opened SchedulerOrderly
  import opened SchedulerRuns

  /** Every slot is its item's index, so no item occurs twice, and the order is right. */
  ghost predicate IsHeap(s: State) {
    Exact(s.heap) && Ordered(s.heap, s.next)
  }

  /** The time fits between those of slot i's parent and children. */
  ghost predicate Fits(h: Heap, next: seq<int>, i: nat, t: int)
    requires Timed(h, next) && i < |h.slots|
  {
    && (i > 0 ==> At(h, next, Parent(i)) <= t)
    && forall k: nat | 0 < k < |h.slots| && Parent(k) == i :: t <= At(h, next, k)
  }

  /** A retry finds its item outside the heap; a completion that finds it inside writes
      a time that fits there. */
  ghost predicate HeapSafe(s: State, step: Step)
    requires Sane(s) && Enabled(s, step)
  {
    match step
    case Reschedule(_) => s.due[0] !in s.heap.slots
    case Complete(k, at) => k.String() in s.idx ==> RewriteFits(s, s.idx[k.String()], at)
    case _ => true
  }

  ghost predicate RewriteFits(s: State, x: nat, at: int)
    requires Sane(s) && x < |s.next|
  {
    0 <= s.heap.index[x] < |s.heap.slots| ==> Fits(s.heap, s.next, s.heap.index[x], at + s.interval[x])
  }

  // ----- the pieces -----

  lemma Distinct(h: Heap, i: nat, j: nat)
    requires Exact(h) && i < |h.slots| && j < |h.slots| && h.slots[i] == h.slots[j]
    ensures i == j
  {
    assert ExactAt(h, i) && ExactAt(h, j);
  }

  /** The time of an item outside does not matter. */
  lemma RetimedOutside(h: Heap, next: seq<int>, x: nat, t: int)
    requires Ordered(h, next) && x < |next| && x !in h.slots
    ensures Ordered(h, next[x := t])
  {
    var next' := next[x := t];
    forall k: nat | k < |h.slots| ensures OrderedAt(h, next', k) {
      assert OrderedAt(h, next, k);
      assert h.slots[k] in h.slots && h.slots[Parent(k)] in h.slots;
    }
  }

  lemma RewrittenAt(h: Heap, next: seq<int>, i: nat, t: int, k: nat)
    requires Exact(h) && Timed(h, next) && i < |h.slots| && k < |h.slots|
    ensures At(h, next[h.slots[i] := t], k) == if k == i then t else At(h, next, k)
  {
    if h.slots[k] == h.slots[i] {
      Distinct(h, k, i);
    }
  }

  /** That of an item inside must fit. */
  lemma RewriteIff(h: Heap, next: seq<int>, i: nat, t: int)
    requires Exact(h) && Ordered(h, next) && i < |h.slots|
    ensures Ordered(h, next[h.slots[i] := t]) <==> Fits(h, next, i, t)
  {
    var next' := next[h.slots[i] := t];
    if Fits(h, next, i, t) {
      forall k: nat | k < |h.slots| ensures OrderedAt(h, next', k) {
        assert OrderedAt(h, next, k);
        RewrittenAt(h, next, i, t, k);
        RewrittenAt(h, next, i, t, Parent(k));
      }
    }
    if Ordered(h, next') {
      assert OrderedAt(h, next', i);
      RewrittenAt(h, next, i, t, i);
      RewrittenAt(h, next, i, t, Parent(i));
      forall k: nat | 0 < k < |h.slots| && Parent(k) == i ensures t <= At(h, next, k) {
        assert OrderedAt(h, next', k);
        RewrittenAt(h, next, i, t, k);
      }
    }
  }

  lemma RequeueIsHeap(s: State, x: nat, t: int)
    requires Sane(s) && IsHeap(s) && x < |s.next| && x !in s.heap.slots
    ensures IsHeap(Requeue(s, x, t))
  {
    RetimedOutside(s.heap, s.next, x, t);
    PushPutsIn(s.heap, s.next[x := t], x);
    PushKeepsOrder(s.heap, s.next[x := t], x);
  }

  /** Pushing what is in already leaves it in twice. */
  lemma PushedTwice(h: Heap, next: seq<int>, x: nat)
    requires Timed(h, next) && x < |h.index| && x in h.slots
    ensures !Exact(Push(h, next, x))
  {
    var r := Push(h, next, x);
    PushPutsIn(h, next, x);
    if Exact(r) {
      assert x in multiset(h.slots) && multiset(r.slots)[x] >= 2;
      OncePerItem(r, x);
    }
  }

  lemma OncePerItem(h: Heap, x: nat)
    requires Exact(h)
    ensures multiset(h.slots)[x] <= 1
  {
    if x in h.slots {
      var i: nat :| i < |h.slots| && h.slots[i] == x;
      var a, b := h.slots[..i], h.slots[i + 1..];
      assert h.slots == a + [x] + b;
      forall k | 0 <= k < |a| ensures a[k] != x {
        if h.slots[k] == x { Distinct(h, k, i); }
      }
      forall k | 0 <= k < |b| ensures b[k] != x {
        if h.slots[i + 1 + k] == x { Distinct(h, i + 1 + k, i); }
      }
      assert multiset(h.slots) == multiset(a) + multiset{x} + multiset(b);
    }
  }

  lemma TakeOutIsHeap(s: State, x: nat)
    requires Sane(s) && IsHeap(s) && x < |s.next|
    ensures IsHeap(TakeOut(s, x)) && x !in TakeOut(s, x).heap.slots
    ensures forall y | y in TakeOut(s, x).heap.slots :: y in s.heap.slots
  {
    assert TrackedAt(s.heap, x);
    if s.heap.index[x] >= 0 {
      RemoveTakesOut(s.heap, s.next, s.heap.index[x]);
      RemoveKeepsOrder(s.heap, s.next, s.heap.index[x]);
      RemoveMembers(s.heap, s.next, s.heap.index[x]);
    } else {
      OutOfHeap(s.heap, x);
    }
  }

  lemma {:induction false} CollectIsHeap(h: Heap, next: seq<int>, polling: seq<bool>, now: int)
    requires Exact(h) && Ordered(h, next) && |polling| == |next|
    ensures var r := CollectDue(h, next, polling, now).heap;
            Exact(r) && Ordered(r, next) && forall y | y in r.slots :: y in h.slots
    decreases |h.slots|
  {
    if |h.slots| > 0 && next[h.slots[0]] <= now {
      var x := h.slots[0];
      PopTakesOut(h, next);
      PopKeepsOrder(h, next);
      PopMembers(h, next);
      CollectIsHeap(Pop(h, next), next, polling, now);
      CollectIsHeap(Pop(h, next), next, polling[x := true], now);
    }
  }

  lemma AddIsHeap(s: State, k: PollerKey, interval: nat, jitter: nat, at: int)
    requires Sane(s) && IsHeap(s)
    ensures IsHeap(AddStep(s, k, interval, jitter, at))
  {
    if k.String() in s.idx {
      return;
    }
    var r := NewItem(s, k, interval, at + jitter);
    forall i: nat | i < |r.heap.slots|
      ensures OrderedAt(r.heap, r.next, i) && ExactAt(r.heap, i)
    {
      assert OrderedAt(s.heap, s.next, i) && ExactAt(s.heap, i);
    }
    assert |s.next| !in r.heap.slots;
    PushPutsIn(r.heap, r.next, |s.next|);
    PushKeepsOrder(r.heap, r.next, |s.next|);
  }

  lemma ResumeIsHeap(s: State, k: PollerKey, at: int)
    requires Sane(s) && IsHeap(s)
    ensures IsHeap(ResumeStep(s, k, at))
  {
    if k.String() in s.idx && s.heap.index[s.idx[k.String()]] < 0 {
      OutOfHeap(s.heap, s.idx[k.String()]);
      RequeueIsHeap(s, s.idx[k.String()], at);
    }
  }

  lemma RescheduleIsHeapIff(s: State)
    requires Sane(s) && IsHeap(s) && s.due != []
    ensures IsHeap(RescheduleStep(s)) <==> s.due[0] !in s.heap.slots
  {
    var x := s.due[0];
    var s1 := s.(due := s.due[1..]);
    if x !in s.heap.slots {
      RequeueIsHeap(s1, x, s.passNow + 10);
    } else {
      PushedTwice(s.heap, s.next[x := s.passNow + 10], x);
    }
  }

  lemma CompleteIsHeapIff(s: State, k: PollerKey, at: int)
    requires Sane(s) && IsHeap(s) && Enabled(s, Complete(k, at))
    ensures IsHeap(CompleteStep(s, k, at)) <==> HeapSafe(s, Complete(k, at))
  {
    if k.String() !in s.idx {
      return;
    }
    var x := s.idx[k.String()];
    assert TrackedAt(s.heap, x);
    if s.heap.index[x] < 0 {
      OutOfHeap(s.heap, x);
      RequeueIsHeap(JobDone(s, k), x, at + s.interval[x]);
    } else {
      RewriteIff(s.heap, s.next, s.heap.index[x], at + s.interval[x]);
    }
  }

  // ----- a heap without repetition -----

  /** A step leaves a heap a heap exactly if it is safe: only the second push of a retry,
      and the in-place rewrite of a completion, can spoil it. */
  lemma HeapKeptIff(s: State, step: Step)
    requires Sane(s) && IsHeap(s) && Enabled(s, step)
    ensures IsHeap(Next(s, step)) <==> HeapSafe(s, step)
  {
    hide AddStep, ResumeStep, CollectStep, RescheduleStep, CompleteStep, RewriteFits;
    match step
    case Add(k, interval, jitter, at) => AddIsHeap(s, k, interval, jitter, at);
    case Remove(k, _) => RemoveIsHeap(s, k);
    case UpdateInterval(_, _, _) =>
    case Pause(k, _) => PauseIsHeap(s, k);
    case Resume(k, at) => ResumeIsHeap(s, k, at);
    case Collect(now, _) => CollectStepIsHeap(s, now);
    case Enqueue(_) =>
    case HandOff(_) =>
    case Reschedule(_) => RescheduleIsHeapIff(s);
    case Take(_) =>
    case Complete(k, at) => CompleteIsHeapIff(s, k, at);
  }

  lemma RemoveIsHeap(s: State, k: PollerKey)
    requires Sane(s) && IsHeap(s)
    ensures IsHeap(RemoveStep(s, k))
  {
    if k.String() in s.idx {
      TakeOutIsHeap(s, s.idx[k.String()]);
    }
  }

  lemma PauseIsHeap(s: State, k: PollerKey)
    requires Sane(s) && IsHeap(s)
    ensures IsHeap(PauseStep(s, k))
    ensures forall y | y in PauseStep(s, k).heap.slots :: y in s.heap.slots
  {
    if k.String() in s.idx {
      TakeOutIsHeap(s, s.idx[k.String()]);
    }
  }

  lemma CollectStepIsHeap(s: State, now: int)
    requires Sane(s) && IsHeap(s)
    ensures IsHeap(CollectStep(s, now))
    ensures forall y | y in CollectStep(s, now).heap.slots :: y in s.heap.slots
  {
    CollectIsHeap(s.heap, s.next, s.polling, now);
  }

  ghost predicate HeapThroughout(s: State, steps: seq<Step>, t: State)
    requires Sane(s) && Run(AnyRun, s, steps, t)
    decreases |steps|
  {
    IsHeap(s) && (steps != [] ==> HeapThroughout(Next(s, steps[0]), steps[1..], t))
  }

  ghost predicate SafeRun(s: State, steps: seq<Step>, t: State)
    requires Sane(s) && Run(AnyRun, s, steps, t)
    decreases |steps|
  {
    steps != [] ==> HeapSafe(s, steps[0]) && SafeRun(Next(s, steps[0]), steps[1..], t)
  }

  /** The runs on which the slice stays a heap without repetition are exactly those of
      safe steps. */
  lemma {:induction false} HeapThroughoutIff(s: State, steps: seq<Step>, t: State)
    requires Sane(s) && IsHeap(s) && Run(AnyRun, s, steps, t)
    ensures HeapThroughout(s, steps, t) <==> SafeRun(s, steps, t)
    decreases |steps|
  {
    if steps != [] {
      HeapKeptIff(s, steps[0]);
      if HeapSafe(s, steps[0]) {
        HeapThroughoutIff(Next(s, steps[0]), steps[1..], t);
      }
    }
  }

  // ----- no removed poller in it -----

  ghost predicate HeapRegistered(s: State) {
    forall x: nat | x in s.heap.slots && x < |s.key| :: Registered(s, x)
  }

  /** A retry's item is still the registered one of its key. */
  ghost predicate RetryRegistered(s: State, step: Step)
    requires Sane(s) && Enabled(s, step)
  {
    step.Reschedule? ==> Registered(s, s.due[0])
  }

  lemma PushRegistersIff(s: State, x: nat)
    requires Sane(s) && x < |s.next| && HeapRegistered(s)
    ensures HeapRegistered(PushItem(s, x)) <==> Registered(s, x)
  {
    PushMembers(s.heap, s.next, x);
    assert x in PushItem(s, x).heap.slots;
  }

  lemma FewerRegistered(s: State, r: State)
    requires HeapRegistered(s) && r.key == s.key && r.idx == s.idx
    requires forall y | y in r.heap.slots :: y in s.heap.slots
    ensures HeapRegistered(r)
  {
  }

  lemma AddRegisters(s: State, k: PollerKey, interval: nat, jitter: nat, at: int)
    requires Sane(s) && HeapRegistered(s)
    ensures HeapRegistered(AddStep(s, k, interval, jitter, at))
  {
    if k.String() !in s.idx {
      var r := NewItem(s, k, interval, at + jitter);
      forall x: nat | x in r.heap.slots && x < |r.key| ensures Registered(r, x) {
        assert Registered(s, x);
      }
      PushRegistersIff(r, |s.next|);
    }
  }

  lemma RequeueRegistersIff(s: State, x: nat, t: int)
    requires Sane(s) && x < |s.next| && HeapRegistered(s)
    ensures HeapRegistered(Requeue(s, x, t)) <==> Registered(s, x)
  {
    PushRegistersIff(s.(next := s.next[x := t], polling := s.polling[x := false]), x);
  }

  lemma RemoveRegisters(s: State, k: PollerKey)
    requires Sane(s) && IsHeap(s) && HeapRegistered(s)
    ensures HeapRegistered(RemoveStep(s, k))
  {
    if k.String() in s.idx {
      var x := s.idx[k.String()];
      var r := RemoveStep(s, k);
      TakeOutIsHeap(s, x);
      forall y: nat | y in r.heap.slots && y < |r.key| ensures Registered(r, y) {
        assert Registered(s, y);
      }
    }
  }

  lemma CompleteRegisters(s: State, k: PollerKey, at: int)
    requires Sane(s) && HeapRegistered(s)
    ensures HeapRegistered(CompleteStep(s, k, at))
  {
    if k.String() in s.idx && s.heap.index[s.idx[k.String()]] < 0 {
      RequeueRegistersIff(JobDone(s, k), s.idx[k.String()], at + s.interval[s.idx[k.String()]]);
    }
  }

  lemma ResumeRegisters(s: State, k: PollerKey, at: int)
    requires Sane(s) && HeapRegistered(s)
    ensures HeapRegistered(ResumeStep(s, k, at))
  {
    if k.String() in s.idx && s.heap.index[s.idx[k.String()]] < 0 {
      RequeueRegistersIff(s, s.idx[k.String()], at);
    }
  }

  lemma RescheduleRegistersIff(s: State)
    requires Sane(s) && HeapRegistered(s) && s.due != []
    ensures HeapRegistered(RescheduleStep(s)) <==> Registered(s, s.due[0])
  {
    RequeueRegistersIff(s.(due := s.due[1..]), s.due[0], s.passNow + 10);
  }

  lemma LeavingRegisters(s: State, k: PollerKey, now: int)
    requires Sane(s) && IsHeap(s) && HeapRegistered(s)
    ensures HeapRegistered(PauseStep(s, k)) && HeapRegistered(CollectStep(s, now))
  {
    PauseIsHeap(s, k);
    FewerRegistered(s, PauseStep(s, k));
    CollectStepIsHeap(s, now);
    FewerRegistered(s, CollectStep(s, now));
  }

  lemma OthersRegister(s: State, k: PollerKey, interval: nat)
    requires Sane(s) && HeapRegistered(s)
    ensures HeapRegistered(UpdateIntervalStep(s, k, interval))
    ensures s.due != [] ==> HeapRegistered(EnqueueStep(s)) && HeapRegistered(HandOffStep(s))
    ensures s.jobs != [] ==> HeapRegistered(TakeStep(s))
  {
    FewerRegistered(s, UpdateIntervalStep(s, k, interval));
  }

  lemma EffectRegistersIff(s: State, step: Step)
    requires Sane(s) && IsHeap(s) && HeapRegistered(s) && Enabled(s, step)
    ensures HeapRegistered(Effect(s, step)) <==> RetryRegistered(s, step)
  {
    hide AddStep, RemoveStep, UpdateIntervalStep, PauseStep, ResumeStep, CollectStep, HeapRegistered, Registered;
    hide EnqueueStep, HandOffStep, RescheduleStep, TakeStep, CompleteStep, Sane, IsHeap;
    var none := PollerKey("", "", "");
    match step
    case Add(k, interval, jitter, at) => AddRegisters(s, k, interval, jitter, at);
    case Remove(k, _) => RemoveRegisters(s, k);
    case UpdateInterval(k, interval, _) => OthersRegister(s, k, interval);
    case Pause(k, _) => LeavingRegisters(s, k, 0);
    case Resume(k, at) => ResumeRegisters(s, k, at);
    case Collect(now, _) => LeavingRegisters(s, none, now);
    case Enqueue(_) => OthersRegister(s, none, 0);
    case HandOff(_) => OthersRegister(s, none, 0);
    case Reschedule(_) => RescheduleRegistersIff(s);
    case Take(_) => OthersRegister(s, none, 0);
    case Complete(k, at) => CompleteRegisters(s, k, at);
  }

  /** A step leaves a heap of registered items one exactly if it is not a retry of an
      item that has been removed. */
  lemma RegisteredKeptIff(s: State, step: Step)
    requires Sane(s) && IsHeap(s) && HeapRegistered(s) && Enabled(s, step)
    ensures HeapRegistered(Next(s, step)) <==> RetryRegistered(s, step)
  {
    EffectRegistersIff(s, step);
    hide Effect;
    assert HeapRegistered(Next(s, step)) <==> HeapRegistered(Effect(s, step));
  }

  ghost predicate RegisteredThroughout(s: State, steps: seq<Step>, t: State)
    requires Sane(s) && Run(AnyRun, s, steps, t)
    decreases |steps|
  {
    HeapRegistered(s) && (steps != [] ==> RegisteredThroughout(Next(s, steps[0]), steps[1..], t))
  }

  ghost predicate RetriesRegistered(s: State, steps: seq<Step>, t: State)
    requires Sane(s) && Run(AnyRun, s, steps, t)
    decreases |steps|
  {
    steps != [] ==> RetryRegistered(s, steps[0]) && RetriesRegistered(Next(s, steps[0]), steps[1..], t)
  }

  /** Of the runs on which the slice stays a heap without repetition, those that never
      have a removed poller in it are exactly those whose retries are of registered items. */
  lemma {:induction false} RegisteredThroughoutIff(s: State, steps: seq<Step>, t: State)
    requires Sane(s) && IsHeap(s) && HeapRegistered(s) && Run(AnyRun, s, steps, t) && SafeRun(s, steps, t)
    ensures RegisteredThroughout(s, steps, t) <==> RetriesRegistered(s, steps, t)
    decreases |steps|
  {
    if steps != [] {
      HeapKeptIff(s, steps[0]);
      RegisteredKeptIff(s, steps[0]);
      if RetryRegistered(s, steps[0]) {
        RegisteredThroughoutIff(Next(s, steps[0]), steps[1..], t);
      }
    }
  }

  /** A new scheduler's heap is both. */
  lemma InitIsHeap(queueSize: nat, clock: int)
    ensures IsHeap(Init(queueSize, clock)) && HeapRegistered(Init(queueSize, clock))
  {
  }

  // ----- one job a key -----

  ghost predicate SendsAnother(s: State, step: Step)
    requires Sane(s) && Enabled(s, step)
  {
    (step.Enqueue? || step.HandOff?) && JobFor(s, s.key[s.due[0]].String())
  }

  lemma SecondJob(s: State, r: State)
    requires Sane(s) && s.due != [] && JobFor(s, s.key[s.due[0]].String())
    requires r == EnqueueStep(s) || r == HandOffStep(s)
    ensures !OneJobEach(r.jobs, r.running)
  {
    var k := s.key[s.due[0]];
    var j :| (j in s.jobs || j in s.running) && j.String() == k.String();
    if r == EnqueueStep(s) {
      assert r.jobs[|s.jobs|] == k;
      if j in s.jobs {
        var i :| 0 <= i < |s.jobs| && s.jobs[i] == j;
        assert r.jobs[i] == j;
      } else {
        assert k in r.jobs && j in r.running;
      }
    } else {
      assert k in r.running && (j in r.jobs || j in r.running);
      assert j == k && j !in r.jobs ==> r.running[k] >= 2;
    }
  }

  lemma TakeKeepsOneJob(s: State)
    requires Sane(s) && OneJobEach(s.jobs, s.running) && s.jobs != []
    ensures OneJobEach(TakeStep(s).jobs, TakeStep(s).running)
  {
    assert s.jobs == [s.jobs[0]] + s.jobs[1..] && s.jobs[0] in s.jobs;
  }

  lemma SendKeepsOneJobIff(s: State, r: State)
    requires Sane(s) && OneJobEach(s.jobs, s.running) && s.due != []
    requires r == EnqueueStep(s) || r == HandOffStep(s)
    ensures OneJobEach(r.jobs, r.running) <==> !JobFor(s, s.key[s.due[0]].String())
  {
    if JobFor(s, s.key[s.due[0]].String()) {
      SecondJob(s, r);
    } else {
      OneMoreJob(s, r);
    }
  }

  lemma SameJobLists(s: State, step: Step)
    requires Sane(s) && Enabled(s, step)
    requires !step.Enqueue? && !step.HandOff? && !step.Take? && !step.Complete?
    ensures Effect(s, step).jobs == s.jobs && Effect(s, step).running == s.running
  {
  }

  lemma CompletionJobs(s: State, k: PollerKey, at: int)
    requires Sane(s) && OneJobEach(s.jobs, s.running) && k in s.running
    ensures OneJobEach(CompleteStep(s, k, at).jobs, CompleteStep(s, k, at).running)
  {
    NoJobLeft(s, k);
  }

  /** A step leaves every key at most one job exactly if it does not send one for a key
      that has one. */
  lemma OneJobKeptIff(s: State, step: Step)
    requires Sane(s) && OneJobEach(s.jobs, s.running) && Enabled(s, step)
    ensures OneJobEach(Next(s, step).jobs, Next(s, step).running) <==> !SendsAnother(s, step)
  {
    hide OneJobEach, JobFor, EnqueueStep, HandOffStep, TakeStep, CompleteStep, Sane;
    match step
    case Enqueue(_) => SendKeepsOneJobIff(s, EnqueueStep(s));
    case HandOff(_) => SendKeepsOneJobIff(s, HandOffStep(s));
    case Take(_) => TakeKeepsOneJob(s);
    case Complete(k, at) => CompletionJobs(s, k, at);
    case _ => SameJobLists(s, step);
  }
}
