/** Calm runs keep the strong invariant: a valid heap with exact back-pointers, at
    most one outstanding job a key, and no item in two places. */
module SchedulerOrderly {
  import opened PollHeap
  import opened PollerKeys
  import opened SchedulerModel
  import opened SchedulerNeverLost

  ghost predicate NoRepeats(q: seq<nat>) {
    forall i, j | 0 <= i < j < |q| :: q[i] != q[j]
  }

  /** No two jobs, queued or executing, are for the same key. */
  ghost predicate OneJobEach(jobs: seq<PollerKey>, running: multiset<PollerKey>) {
    && (forall i, j | 0 <= i < j < |jobs| :: jobs[i].String() != jobs[j].String())
    && (forall p, q | p in jobs && q in running :: p.String() != q.String())
    && (forall p, q | p in running && q in running :: p.String() == q.String() ==> p == q)
    && (forall p | p in running :: running[p] == 1)
  }

  ghost predicate HeapIsValid(s: State) {
    && Exact(s.heap)
    && Ordered(s.heap, s.next)
    && (forall x | x in s.heap.slots && x < |s.polling| :: !s.polling[x])
  }

  ghost predicate DueIsValid(s: State) {
    && NoRepeats(s.due)
    && (forall x | x in s.due :: x !in s.heap.slots)
    && (forall x | x in s.due && x < |s.polling| :: s.polling[x])
  }

  ghost predicate KeyOf(s: State, x: nat, k: string) {
    x < |s.key| && s.key[x].String() == k
  }

  /** Nothing waits while a job for its key is outstanding, and of the items of one
      key at most one waits: the registered one if there is one. */
  ghost predicate OnePlaceEach(s: State) {
    && (forall x, k | Waiting(s, x) && KeyOf(s, x, k) :: !JobFor(s, k))
    && (forall x, y, k | Waiting(s, x) && Waiting(s, y) && KeyOf(s, x, k) && KeyOf(s, y, k) :: x == y)
    && (forall x, k | Waiting(s, x) && KeyOf(s, x, k) && k in s.idx :: s.idx[k] == x)
  }

  ghost predicate Orderly(s: State)
    requires Sane(s)
  {
    HeapIsValid(s) && DueIsValid(s) && OneJobEach(s.jobs, s.running) && OnePlaceEach(s)
  }

  // ----- the collecting loop on a valid heap -----

  ghost predicate EarliestFirst(q: seq<nat>, next: seq<int>) {
    forall i, j | 0 <= i < j < |q| && q[i] < |next| && q[j] < |next| :: next[q[i]] <= next[q[j]]
  }

  lemma ConsInOrder(x: nat, q: seq<nat>, next: seq<int>)
    requires EarliestFirst(q, next) && NoRepeats(q) && x < |next|
    requires forall y | y in q :: y != x && y < |next| && next[x] <= next[y]
    ensures EarliestFirst([x] + q, next) && NoRepeats([x] + q)
  {
    var r := [x] + q;
    assert forall i | 0 < i < |r| :: r[i] == q[i - 1] && r[i] in q;
  }

  ghost predicate CollectedInOrder(h: Heap, next: seq<int>, now: int, r: Collected)
    requires |next| == |h.index|
  {
    && Exact(r.heap)
    && Ordered(r.heap, next)
    && multiset(h.slots) == multiset(r.heap.slots) + multiset(r.taken)
    && (forall x | x in r.heap.slots && x < |next| :: next[x] > now)
    && (forall x | x in r.taken && x < |next| :: next[x] <= now)
    && EarliestFirst(r.taken, next)
    && NoRepeats(r.taken)
    && (forall x | x in r.taken :: x !in r.heap.slots)
  }

  /** From a valid heap the loop takes exactly the items that are due, each once and
      earliest first, and leaves a valid heap of items that are not due. */
  lemma {:induction false} CollectTakesExactlyTheDue(h: Heap, next: seq<int>, polling: seq<bool>, now: int)
    requires Exact(h) && Ordered(h, next) && |polling| == |next|
    requires forall x | x in h.slots :: !polling[x]
    ensures CollectedInOrder(h, next, now, CollectDue(h, next, polling, now))
    decreases |h.slots|
  {
    if |h.slots| == 0 {
    } else if next[h.slots[0]] > now {
      forall x | x in h.slots
        ensures next[x] > now
      {
        var k :| 0 <= k < |h.slots| && h.slots[k] == x;
        RootIsEarliest(h, next, k);
      }
    } else {
      var x := h.slots[0];
      var h1 := Pop(h, next);
      PopTakesOut(h, next);
      PopKeepsOrder(h, next);
      PopMembers(h, next);
      CollectTakesExactlyTheDue(h1, next, polling[x := true], now);
      var r1 := CollectDue(h1, next, polling[x := true], now);
      TakenMembers(h1, r1);
      forall y | y in r1.taken
        ensures next[x] <= next[y]
      {
        assert y in h.slots;
        var k :| 0 <= k < |h.slots| && h.slots[k] == y;
        RootIsEarliest(h, next, k);
      }
      PrependTaken(h, h1, next, x, now, r1);
    }
  }

  lemma PrependTaken(h: Heap, h1: Heap, next: seq<int>, x: nat, now: int, r1: Collected)
    requires |next| == |h.index| == |h1.index| && x < |next|
    requires multiset(h.slots) == multiset(h1.slots) + multiset{x} && x !in h1.slots
    requires CollectedInOrder(h1, next, now, r1)
    requires forall y | y in r1.taken :: y in h1.slots && y < |next| && next[x] <= next[y]
    requires forall y | y in r1.heap.slots :: y in h1.slots
    requires next[x] <= now
    ensures CollectedInOrder(h, next, now, r1.(taken := [x] + r1.taken))
  {
    ConsInOrder(x, r1.taken, next);
    hide EarliestFirst, NoRepeats, Ordered, Exact;
    assert multiset([x] + r1.taken) == multiset{x} + multiset(r1.taken);
  }

  lemma TakenMembers(h: Heap, r: Collected)
    requires multiset(h.slots) == multiset(r.heap.slots) + multiset(r.taken)
    ensures forall y :: y in h.slots <==> y in r.heap.slots || y in r.taken
  {
    forall y
      ensures y in h.slots <==> y in r.heap.slots || y in r.taken
    {
      assert y in h.slots <==> y in multiset(h.slots);
      assert y in r.heap.slots <==> y in multiset(r.heap.slots);
      assert y in r.taken <==> y in multiset(r.taken);
    }
  }

  lemma CollectKeepsOrderly(s: State, now: int)
    requires Sane(s) && Orderly(s) && s.due == []
    ensures Orderly(CollectStep(s, now))
  {
    var r := CollectStep(s, now);
    var c := CollectDue(s.heap, s.next, s.polling, now);
    CollectTakesExactlyTheDue(s.heap, s.next, s.polling, now);
    CollectAccounts(s.heap, s.next, s.polling, now);
    TakenMembers(s.heap, c);
    assert forall x :: Waiting(r, x) <==> Waiting(s, x);
    SameJobs(s, r);
    FewerPlaces(s, r);
  }

  lemma SameJobs(s: State, r: State)
    requires forall j :: j in s.jobs || j in s.running <==> j in r.jobs || j in r.running
    ensures forall k :: JobFor(s, k) <==> JobFor(r, k)
  {
    forall k
      ensures JobFor(s, k) <==> JobFor(r, k)
    {
      if JobFor(s, k) {
        var j :| (j in s.jobs || j in s.running) && j.String() == k;
        assert j in r.jobs || j in r.running;
      }
      if JobFor(r, k) {
        var j :| (j in r.jobs || j in r.running) && j.String() == k;
        assert j in s.jobs || j in s.running;
      }
    }
  }

  /** Leaving places, and finishing jobs, keeps every item in one place. */
  lemma FewerPlaces(s: State, r: State)
    requires OnePlaceEach(s) && r.key == s.key
    requires forall y | Waiting(r, y) :: Waiting(s, y)
    requires forall k | JobFor(r, k) :: JobFor(s, k)
    requires forall k | k in r.idx :: k in s.idx && r.idx[k] == s.idx[k]
    ensures OnePlaceEach(r)
  {
    assert forall y, k :: KeyOf(r, y, k) <==> KeyOf(s, y, k);
  }

  // ----- the other steps -----

  lemma PushKeepsValid(s: State, x: nat)
    requires Sane(s) && x < |s.next| && HeapIsValid(s) && DueIsValid(s)
    requires x !in s.heap.slots && x !in s.due && !s.polling[x]
    ensures HeapIsValid(PushItem(s, x)) && DueIsValid(PushItem(s, x))
    ensures forall y :: Waiting(PushItem(s, x), y) <==> y == x || Waiting(s, y)
  {
    PushPutsIn(s.heap, s.next, x);
    PushKeepsOrder(s.heap, s.next, x);
    PushMembers(s.heap, s.next, x);
  }

  /** Writing the poll time of an item outside the heap does not disturb the heap. */
  lemma RetimeKeepsValid(s: State, x: nat, t: int, p: bool)
    requires Sane(s) && x < |s.next| && HeapIsValid(s) && DueIsValid(s)
    requires x !in s.heap.slots && x !in s.due
    ensures var r := s.(next := s.next[x := t], polling := s.polling[x := p]);
            Sane(r) && HeapIsValid(r) && DueIsValid(r)
  {
    var r := s.(next := s.next[x := t], polling := s.polling[x := p]);
    forall k: nat | k < |r.heap.slots|
      ensures OrderedAt(r.heap, r.next, k)
    {
      assert OrderedAt(s.heap, s.next, k);
      assert s.heap.slots[k] in s.heap.slots && s.heap.slots[Parent(k)] in s.heap.slots;
    }
  }

  lemma AddKeepsOrderly(s: State, k: PollerKey, interval: nat, jitter: nat, at: int)
    requires Sane(s) && Orderly(s)
    requires CalmStep(s, Add(k, interval, jitter, at))
    ensures Orderly(AddStep(s, k, interval, jitter, at))
  {
    if k.String() !in s.idx {
      var n := |s.next|;
      var s1 := NewItem(s, k, interval, at + jitter);
      var r := AddStep(s, k, interval, jitter, at);
      forall i: nat | i < |s1.heap.slots|
        ensures OrderedAt(s1.heap, s1.next, i) && ExactAt(s1.heap, i)
      {
        assert OrderedAt(s.heap, s.next, i) && ExactAt(s.heap, i);
      }
      assert n !in s1.heap.slots && n !in s1.due;
      PushKeepsValid(s1, n);
      SameJobs(s, r);
      forall y, l | Waiting(r, y) && KeyOf(r, y, l) && y != n
        ensures Waiting(s, y) && KeyOf(s, y, l) && l != k.String()
      {
      }
    }
  }

  lemma TakeOutKeepsOrderly(s: State, x: nat)
    requires Sane(s) && Orderly(s) && x < |s.next|
    ensures Orderly(TakeOut(s, x))
  {
    assert TrackedAt(s.heap, x);
    if s.heap.index[x] >= 0 {
      var r := TakeOut(s, x);
      var i := s.heap.index[x];
      RemoveTakesOut(s.heap, s.next, i);
      RemoveKeepsOrder(s.heap, s.next, i);
      RemoveMembers(s.heap, s.next, i);
      SameJobs(s, r);
      FewerPlaces(s, r);
    }
  }

  /** Forgetting a key or a pause, or changing an interval, keeps everything. */
  lemma IrrelevantKeepsOrderly(s: State, r: State)
    requires Sane(s) && Orderly(s) && Sane(r)
    requires r == s.(idx := r.idx, parked := r.parked, interval := r.interval, clock := r.clock)
    requires forall k | k in r.idx :: k in s.idx && r.idx[k] == s.idx[k]
    ensures Orderly(r)
  {
    SameJobs(s, r);
    FewerPlaces(s, r);
  }

  lemma RemoveKeepsOrderly(s: State, k: PollerKey)
    requires Sane(s) && Orderly(s)
    ensures Orderly(RemoveStep(s, k))
  {
    if k.String() in s.idx {
      TakeOutKeepsOrderly(s, s.idx[k.String()]);
      IrrelevantKeepsOrderly(TakeOut(s, s.idx[k.String()]), RemoveStep(s, k));
    }
  }

  lemma PauseKeepsOrderly(s: State, k: PollerKey)
    requires Sane(s) && Orderly(s)
    ensures Orderly(PauseStep(s, k))
  {
    if k.String() in s.idx && s.heap.index[s.idx[k.String()]] >= 0 {
      TakeOutKeepsOrderly(s, s.idx[k.String()]);
      IrrelevantKeepsOrderly(TakeOut(s, s.idx[k.String()]), PauseStep(s, k));
    }
  }

  /** Neither the item nor another one of its key waits, the key has no job, and if it is
      registered, then with this item. */
  ghost predicate Free(s: State, x: nat) {
    && x < |s.key|
    && !Waiting(s, x) && !JobFor(s, s.key[x].String())
    && (forall y: nat | Waiting(s, y) :: !KeyOf(s, y, s.key[x].String()))
    && (s.key[x].String() in s.idx ==> s.idx[s.key[x].String()] == x)
  }

  /** Such an item may go into the heap. */
  lemma InsertKeepsOrderly(s: State, x: nat, t: int)
    requires Sane(s) && Orderly(s) && x < |s.next| && Free(s, x)
    ensures Orderly(Requeue(s, x, t))
  {
    var s1 := s.(next := s.next[x := t], polling := s.polling[x := false]);
    var r := PushItem(s1, x);
    RetimeKeepsValid(s, x, t, false);
    PushKeepsValid(s1, x);
    SameJobs(s, r);
    assert forall y :: Waiting(s1, y) <==> Waiting(s, y);
    assert forall y, k :: KeyOf(r, y, k) <==> KeyOf(s, y, k);
  }

  lemma OutOfHeap(h: Heap, x: nat)
    requires Exact(h) && x < |h.index| && h.index[x] < 0
    ensures x !in h.slots
  {
    forall k: nat | k < |h.slots|
      ensures h.slots[k] != x
    {
      assert ExactAt(h, k);
    }
  }

  lemma ResumeKeepsOrderly(s: State, k: PollerKey, at: int)
    requires Sane(s) && Orderly(s)
    requires CalmStep(s, Resume(k, at))
    ensures Orderly(ResumeStep(s, k, at))
  {
    if k.String() in s.idx && s.heap.index[s.idx[k.String()]] < 0 {
      var x := s.idx[k.String()];
      OutOfHeap(s.heap, x);
      assert forall y: nat | Waiting(s, y) :: !KeyOf(s, y, k.String());
      InsertKeepsOrderly(s, x, at);
    }
  }

  lemma DispatchKeepsOnePlace(s: State, r: State, x: nat)
    requires OnePlaceEach(s) && Waiting(s, x) && x < |s.key|
    requires r.key == s.key && r.idx == s.idx
    requires forall y :: Waiting(r, y) <==> Waiting(s, y) && y != x
    requires forall k :: JobFor(r, k) ==> JobFor(s, k) || k == s.key[x].String()
    ensures OnePlaceEach(r)
  {
    assert forall y, k :: KeyOf(r, y, k) <==> KeyOf(s, y, k);
    assert KeyOf(s, x, s.key[x].String());
  }

  lemma OneMoreJob(s: State, r: State)
    requires Sane(s) && s.due != [] && OneJobEach(s.jobs, s.running)
    requires !JobFor(s, s.key[s.due[0]].String())
    requires r == EnqueueStep(s) || r == HandOffStep(s)
    ensures OneJobEach(r.jobs, r.running)
    ensures forall k :: JobFor(r, k) ==> JobFor(s, k) || k == s.key[s.due[0]].String()
  {
    var j := s.key[s.due[0]];
    OneMoreJobFor(s, r, j);
    forall i | i in s.jobs || i in s.running
      ensures i.String() != j.String()
    {
    }
  }

  lemma OneMoreJobFor(s: State, r: State, j: PollerKey)
    requires forall i | i in r.jobs || i in r.running :: i == j || i in s.jobs || i in s.running
    ensures forall k :: JobFor(r, k) ==> JobFor(s, k) || k == j.String()
  {
    forall k | JobFor(r, k)
      ensures JobFor(s, k) || k == j.String()
    {
      var i :| (i in r.jobs || i in r.running) && i.String() == k;
      assert i == j || i in s.jobs || i in s.running;
    }
  }

  lemma DispatchKeepsOrderly(s: State, r: State)
    requires Sane(s) && Orderly(s) && s.due != []
    requires r == EnqueueStep(s) || r == HandOffStep(s)
    ensures Orderly(r)
  {
    var x := s.due[0];
    assert Waiting(s, x) && KeyOf(s, x, s.key[x].String());
    assert s.due == [x] + r.due;
    OneMoreJob(s, r);
    DispatchKeepsOnePlace(s, r, x);
  }

  lemma DropFirstDue(s: State)
    requires Sane(s) && Orderly(s) && s.due != []
    ensures var r := s.(due := s.due[1..]);
            Orderly(r) && Free(r, s.due[0])
  {
    var x := s.due[0];
    var r := s.(due := s.due[1..]);
    assert s.due == [x] + r.due;
    assert Waiting(s, x) && KeyOf(s, x, s.key[x].String());
    assert forall y :: Waiting(r, y) <==> Waiting(s, y) && y != x;
    SameJobs(s, r);
    FewerPlaces(s, r);
    assert forall y, k :: KeyOf(r, y, k) <==> KeyOf(s, y, k);
  }

  lemma RescheduleKeepsOrderly(s: State)
    requires Sane(s) && Orderly(s) && s.due != []
    ensures Orderly(RescheduleStep(s))
  {
    DropFirstDue(s);
    hide Orderly, Free;
    InsertKeepsOrderly(s.(due := s.due[1..]), s.due[0], s.passNow + 10);
  }

  lemma TakeKeepsOrderly(s: State)
    requires Sane(s) && Orderly(s) && s.jobs != []
    ensures Orderly(TakeStep(s))
  {
    var r := TakeStep(s);
    assert s.jobs == [s.jobs[0]] + r.jobs;
    assert s.jobs[0] in s.jobs;
    SameJobs(s, r);
    FewerPlaces(s, r);
  }

  /** With at most one job a key, completing it leaves none. */
  lemma NoJobLeft(s: State, k: PollerKey)
    requires OneJobEach(s.jobs, s.running) && k in s.running
    requires Sane(s)
    ensures OneJobEach(JobDone(s, k).jobs, JobDone(s, k).running)
    ensures !JobFor(JobDone(s, k), k.String())
    ensures forall l :: JobFor(JobDone(s, k), l) ==> JobFor(s, l)
  {
    var r := JobDone(s, k);
    forall l | JobFor(r, l)
      ensures JobFor(s, l)
    {
      var j :| (j in r.jobs || j in r.running) && j.String() == l;
      assert j in s.jobs || j in s.running;
    }
  }

  /** While a job for it is outstanding, a registered item is not in the heap. */
  lemma BusyIsOut(s: State, k: PollerKey)
    requires Sane(s) && OnePlaceEach(s) && k in s.running && k.String() in s.idx
    ensures !Waiting(s, s.idx[k.String()]) && s.heap.index[s.idx[k.String()]] < 0
  {
    var x := s.idx[k.String()];
    assert JobFor(s, k.String()) && KeyOf(s, x, k.String());
    assert !Waiting(s, x) && TrackedAt(s.heap, x);
  }

  lemma CompleteKeepsOrderly(s: State, k: PollerKey, at: int)
    requires Sane(s) && Orderly(s) && k in s.running
    ensures Orderly(CompleteStep(s, k, at))
  {
    JobDoneKeepsOrderly(s, k);
    if k.String() !in s.idx {
      return;
    }
    hide Requeue, JobFor, Waiting, HeapIsValid, DueIsValid, OneJobEach, PollerKey.String;
    var x := s.idx[k.String()];
    BusyIsOut(s, k);
    StillOut(s, k, x);
    CompletesByInsert(JobDone(s, k), x, k, at + s.interval[x]);
    CompleteIsRequeue(s, k, at);
  }

  lemma StillOut(s: State, k: PollerKey, x: nat)
    requires Sane(s) && !Waiting(s, x)
    ensures !Waiting(JobDone(s, k), x)
  {
  }

  lemma CompleteIsRequeue(s: State, k: PollerKey, at: int)
    requires Sane(s) && k.String() in s.idx && s.heap.index[s.idx[k.String()]] < 0
    ensures var x := s.idx[k.String()];
            CompleteStep(s, k, at) == Requeue(JobDone(s, k), x, at + s.interval[x])
  {
  }

  lemma JobDoneKeepsOrderly(s: State, k: PollerKey)
    requires Sane(s) && Orderly(s) && k in s.running
    ensures Orderly(JobDone(s, k)) && !JobFor(JobDone(s, k), k.String())
  {
    NoJobLeft(s, k);
    FewerPlaces(s, JobDone(s, k));
  }

  lemma CompletesByInsert(s: State, x: nat, k: PollerKey, t: int)
    requires Sane(s) && Orderly(s) && k.String() in s.idx && x == s.idx[k.String()]
    requires !Waiting(s, x) && !JobFor(s, k.String())
    ensures Orderly(Requeue(s, x, t))
  {
    assert forall y: nat | Waiting(s, y) :: !KeyOf(s, y, k.String());
    InsertKeepsOrderly(s, x, t);
  }

  lemma EffectKeepsOrderly(s: State, step: Step)
    requires Sane(s) && Orderly(s) && Enabled(s, step) && CalmStep(s, step)
    ensures Orderly(Effect(s, step))
  {
    match step
    case Add(k, interval, jitter, at) => AddKeepsOrderly(s, k, interval, jitter, at);
    case Remove(k, _) => RemoveKeepsOrderly(s, k);
    case UpdateInterval(k, interval, _) => IrrelevantKeepsOrderly(s, UpdateIntervalStep(s, k, interval));
    case Pause(k, _) => PauseKeepsOrderly(s, k);
    case Resume(k, at) => ResumeKeepsOrderly(s, k, at);
    case Collect(now, _) => CollectKeepsOrderly(s, now);
    case Enqueue(_) => DispatchKeepsOrderly(s, EnqueueStep(s));
    case HandOff(_) => DispatchKeepsOrderly(s, HandOffStep(s));
    case Reschedule(_) => RescheduleKeepsOrderly(s);
    case Take(_) => TakeKeepsOrderly(s);
    case Complete(k, at) => CompleteKeepsOrderly(s, k, at);
  }

  lemma StepKeepsOrderly(s: State, step: Step)
    requires Sane(s) && Orderly(s) && Enabled(s, step) && CalmStep(s, step)
    ensures Orderly(Next(s, step))
  {
    EffectKeepsOrderly(s, step);
    IrrelevantKeepsOrderly(Effect(s, step), Next(s, step));
  }

  // ----- exactly the calm steps -----

  /** Pushing an item whose key has a job, or another waiting item, or which is
      collected, leaves no order. */
  lemma PushSpoilsOrder(s: State, x: nat, r: State)
    requires Sane(s) && Sane(r) && x < |s.next|
    requires r == PushItem(s, x).(clock := r.clock)
    requires || JobFor(s, s.key[x].String())
             || x in s.due
             || exists y: nat :: y != x && Waiting(s, y) && KeyOf(s, y, s.key[x].String())
    ensures !Orderly(r)
  {
    PushMembers(s.heap, s.next, x);
    SameJobs(s, r);
    var k := s.key[x].String();
    assert Waiting(r, x) && KeyOf(r, x, k);
    if y: nat :| y != x && Waiting(s, y) && KeyOf(s, y, k) {
      assert Waiting(r, y) && KeyOf(r, y, k);
    }
  }

  lemma AddSpoilsOrder(s: State, step: Step)
    requires Sane(s) && Enabled(s, step) && step.Add? && !CalmStep(s, step)
    ensures !Orderly(Next(s, step))
  {
    var k := step.key.String();
    var s1 := NewItem(s, step.key, step.interval, step.at + step.jitter);
    SameJobs(s, s1);
    hide Orderly;
    if !JobFor(s, k) {
      var y: nat :| Waiting(s, y) && y < |s.key| && s.key[y].String() == k;
      assert Waiting(s1, y) && KeyOf(s1, y, k);
    }
    PushSpoilsOrder(s1, |s.next|, Next(s, step));
  }

  /** An item in the heap of an orderly state has no job and is not collected, so a
      Resume that is not calm finds its item outside the heap. */
  lemma ResumeSpoilsOrder(s: State, step: Step)
    requires Sane(s) && Orderly(s) && Enabled(s, step) && step.Resume? && !CalmStep(s, step)
    ensures !Orderly(Next(s, step))
  {
    var k := step.key.String();
    var x := s.idx[k];
    assert TrackedAt(s.heap, x) && KeyOf(s, x, k);
    assert s.heap.index[x] >= 0 ==> Waiting(s, x);
    var s1 := s.(next := s.next[x := step.at], polling := s.polling[x := false]);
    SameJobs(s, s1);
    PushSpoilsOrder(s1, x, Next(s, step));
  }

  /** A step keeps an orderly state orderly exactly if it is calm. */
  lemma OrderlyKeptIff(s: State, step: Step)
    requires Sane(s) && Orderly(s) && Enabled(s, step)
    ensures Orderly(Next(s, step)) <==> CalmStep(s, step)
  {
    if CalmStep(s, step) {
      StepKeepsOrderly(s, step);
    } else if step.Add? {
      AddSpoilsOrder(s, step);
    } else {
      ResumeSpoilsOrder(s, step);
    }
  }

  /** Every state on the way is orderly. */
  ghost predicate OrderlyThroughout(s: State, steps: seq<Step>, t: State)
    requires Sane(s) && Run(AnyRun, s, steps, t)
    decreases |steps|
  {
    Orderly(s) && (steps != [] ==> OrderlyThroughout(Next(s, steps[0]), steps[1..], t))
  }

  /** So the runs that stay orderly are exactly the calm ones. */
  lemma {:induction false} OrderlyThroughoutIff(s: State, steps: seq<Step>, t: State)
    requires Sane(s) && Orderly(s) && Run(AnyRun, s, steps, t)
    ensures OrderlyThroughout(s, steps, t) <==> Run(CalmRun, s, steps, t)
    decreases |steps|
  {
    if steps != [] {
      OrderlyKeptIff(s, steps[0]);
      if CalmStep(s, steps[0]) {
        OrderlyThroughoutIff(Next(s, steps[0]), steps[1..], t);
      }
    }
  }
}
