/** In every interleaving of the scheduler's steps, no registered poller is lost. */
module SchedulerNeverLost {
  import opened PollHeap
  import opened PollerKeys
  import opened SchedulerModel

  /** Work on the poller is outstanding: it is collected, or a job for it is
      queued or executing. */
  ghost predicate Pending(s: State, k: string)
    requires k in s.idx
  {
    s.idx[k] in s.due || JobFor(s, k)
  }

  /** A poller marked Polling has work outstanding, and every poller is in the heap,
      has work outstanding, or was taken out by a Pause with no push since. */
  ghost predicate Accounted(s: State, k: string)
    requires Sane(s) && k in s.idx
  {
    && (s.polling[s.idx[k]] ==> Pending(s, k))
    && (s.idx[k] in s.heap.slots || Pending(s, k) || s.idx[k] in s.parked)
  }

  ghost predicate NoneLost(s: State)
    requires Sane(s)
  {
    forall k | k in s.idx :: Accounted(s, k)
  }

  lemma PushMembers(h: Heap, next: seq<int>, x: nat)
    requires Timed(h, next) && x < |h.index|
    ensures forall y :: y in Push(h, next, x).slots <==> y == x || y in h.slots
  {
    PushPutsIn(h, next, x);
    forall y
      ensures y in Push(h, next, x).slots <==> y == x || y in h.slots
    {
      assert y in Push(h, next, x).slots <==> y in multiset(Push(h, next, x).slots);
      assert y in h.slots <==> y in multiset(h.slots);
    }
  }

  lemma RemoveMembers(h: Heap, next: seq<int>, i: nat)
    requires Timed(h, next) && i < |h.slots|
    ensures forall y :: y in h.slots <==> y == h.slots[i] || y in PollHeap.Remove(h, next, i).slots
  {
    var r := PollHeap.Remove(h, next, i);
    RemoveTakesOut(h, next, i);
    forall y
      ensures y in h.slots <==> y == h.slots[i] || y in r.slots
    {
      assert y in r.slots <==> y in multiset(r.slots);
      assert y in h.slots <==> y in multiset(h.slots);
    }
  }

  lemma PopMembers(h: Heap, next: seq<int>)
    requires Timed(h, next) && |h.slots| > 0
    ensures forall y :: y in h.slots <==> y == h.slots[0] || y in Pop(h, next).slots
  {
    var r := Pop(h, next);
    PopTakesOut(h, next);
    forall y
      ensures y in h.slots <==> y == h.slots[0] || y in r.slots
    {
      assert y in r.slots <==> y in multiset(r.slots);
      assert y in h.slots <==> y in multiset(h.slots);
    }
  }

  /** What a collecting pass does to any heap, in order or not: an item leaves the
      heap either collected, and then marked Polling, or because it was marked
      Polling already; and only due items are collected. */
  lemma {:induction false} CollectAccounts(h: Heap, next: seq<int>, polling: seq<bool>, now: int)
    requires Timed(h, next) && |polling| == |next|
    ensures var r := CollectDue(h, next, polling, now);
      && (forall x: nat | x < |next| :: r.polling[x] <==> polling[x] || x in r.taken)
      && (forall x | x in r.taken :: x in h.slots && next[x] <= now && !polling[x])
      && (forall x | x in r.heap.slots :: x in h.slots)
      && (forall x | x in h.slots :: x in r.heap.slots || x in r.taken || polling[x])
    decreases |h.slots|
  {
    if |h.slots| > 0 && next[h.slots[0]] <= now {
      var x := h.slots[0];
      PopMembers(h, next);
      var p := if polling[x] then polling else polling[x := true];
      CollectAccounts(Pop(h, next), next, p, now);
    }
  }

  lemma AddKeeps(s: State, k: PollerKey, interval: nat, jitter: nat, at: int)
    requires Sane(s) && NoneLost(s)
    ensures NoneLost(AddStep(s, k, interval, jitter, at))
  {
    if k.String() !in s.idx {
      var s1 := NewItem(s, k, interval, at + jitter);
      PushMembers(s1.heap, s1.next, |s.next|);
      var r := AddStep(s, k, interval, jitter, at);
      forall l | l in r.idx
        ensures Accounted(r, l)
      {
        if l != k.String() {
          assert Accounted(s, l);
          assert JobFor(s, l) ==> JobFor(r, l);
        }
      }
    }
  }

  lemma RemoveKeeps(s: State, k: PollerKey)
    requires Sane(s) && NoneLost(s)
    ensures NoneLost(RemoveStep(s, k))
  {
    if k.String() in s.idx {
      var x := s.idx[k.String()];
      assert TrackedAt(s.heap, x);
      if s.heap.index[x] >= 0 {
        RemoveMembers(s.heap, s.next, s.heap.index[x]);
      }
      var r := RemoveStep(s, k);
      forall l | l in r.idx
        ensures Accounted(r, l)
      {
        assert Accounted(s, l);
        assert JobFor(s, l) ==> JobFor(r, l);
      }
    }
  }

  lemma PauseKeeps(s: State, k: PollerKey)
    requires Sane(s) && NoneLost(s)
    ensures NoneLost(PauseStep(s, k))
  {
    if k.String() in s.idx && s.heap.index[s.idx[k.String()]] >= 0 {
      var x := s.idx[k.String()];
      assert TrackedAt(s.heap, x);
      RemoveMembers(s.heap, s.next, s.heap.index[x]);
      var r := PauseStep(s, k);
      forall l | l in r.idx
        ensures Accounted(r, l)
      {
        assert Accounted(s, l);
        assert JobFor(s, l) ==> JobFor(r, l);
      }
    }
  }

  lemma ResumeKeeps(s: State, k: PollerKey, at: int)
    requires Sane(s) && NoneLost(s)
    ensures NoneLost(ResumeStep(s, k, at))
  {
    if k.String() in s.idx && s.heap.index[s.idx[k.String()]] < 0 {
      var x := s.idx[k.String()];
      PushMembers(s.heap, s.next[x := at], x);
      var r := ResumeStep(s, k, at);
      forall l | l in r.idx
        ensures Accounted(r, l)
      {
        assert Accounted(s, l);
        assert JobFor(s, l) ==> JobFor(r, l);
      }
    }
  }

  lemma CollectKeeps(s: State, now: int)
    requires Sane(s) && NoneLost(s) && s.due == []
    ensures NoneLost(CollectStep(s, now))
  {
    CollectAccounts(s.heap, s.next, s.polling, now);
    var r := CollectStep(s, now);
    forall l | l in r.idx
      ensures Accounted(r, l)
    {
      assert Accounted(s, l);
      assert JobFor(s, l) ==> JobFor(r, l);
    }
  }

  /** Sending the first collected item's job, to the queue or to a worker. */
  lemma DispatchKeeps(s: State, r: State)
    requires Sane(s) && NoneLost(s) && s.due != []
    requires r == EnqueueStep(s) || r == HandOffStep(s)
    ensures NoneLost(r)
  {
    var j := s.key[s.due[0]];
    assert j in r.jobs || j in r.running;
    forall l | l in r.idx
      ensures Accounted(r, l)
    {
      assert Accounted(s, l);
      assert JobFor(s, l) ==> JobFor(r, l) by {
        assert forall i :: i in s.jobs || i in s.running ==> i in r.jobs || i in r.running;
      }
      if s.idx[l] == s.due[0] {
        assert JobFor(r, l);
      } else {
        assert s.idx[l] in s.due ==> s.idx[l] in r.due;
      }
    }
  }

  lemma RescheduleKeeps(s: State)
    requires Sane(s) && NoneLost(s) && s.due != []
    ensures NoneLost(RescheduleStep(s))
  {
    var x := s.due[0];
    PushMembers(s.heap, s.next[x := s.passNow + 10], x);
    var r := RescheduleStep(s);
    forall l | l in r.idx
      ensures Accounted(r, l)
    {
      assert Accounted(s, l);
      assert JobFor(s, l) ==> JobFor(r, l);
      assert s.idx[l] != x && s.idx[l] in s.due ==> s.idx[l] in r.due;
    }
  }

  lemma TakeKeeps(s: State)
    requires Sane(s) && NoneLost(s) && s.jobs != []
    ensures NoneLost(TakeStep(s))
  {
    var r := TakeStep(s);
    assert s.jobs == [s.jobs[0]] + r.jobs;
    assert forall i :: i in s.jobs || i in s.running ==> i in r.jobs || i in r.running;
    forall l | l in r.idx
      ensures Accounted(r, l)
    {
      assert Accounted(s, l);
      assert JobFor(s, l) ==> JobFor(r, l);
    }
  }

  /** Where items are after a completion. */
  lemma CompleteMembers(s: State, k: PollerKey, at: int)
    requires Sane(s)
    ensures var r := CompleteStep(s, k, at);
            && r.idx == s.idx && r.due == s.due && r.jobs == s.jobs && r.running == s.running - multiset{k}
            && (forall y | y in s.heap.slots :: y in r.heap.slots)
            && (k.String() in s.idx ==>
                  s.idx[k.String()] in r.heap.slots && !r.polling[s.idx[k.String()]])
            && (forall y | y in s.parked :: y in r.parked || y in r.heap.slots)
            && (forall y: nat | y < |s.polling| && r.polling[y] :: s.polling[y])
  {
    if k.String() in s.idx {
      var x := s.idx[k.String()];
      if s.heap.index[x] < 0 {
        PushMembers(s.heap, s.next[x := at + s.interval[x]], x);
      } else {
        assert TrackedAt(s.heap, x);
      }
    }
  }

  lemma CompleteKeeps(s: State, k: PollerKey, at: int)
    requires Sane(s) && NoneLost(s) && k in s.running
    ensures NoneLost(CompleteStep(s, k, at))
  {
    var r := CompleteStep(s, k, at);
    CompleteMembers(s, k, at);
    hide CompleteStep;
    forall l | l in r.idx
      ensures Accounted(r, l)
    {
      assert Accounted(s, l);
      if l != k.String() {
        assert JobFor(s, l) ==> JobFor(r, l) by {
          assert forall i :: i != k && (i in s.jobs || i in s.running) ==> i in r.jobs || i in r.running;
        }
      }
    }
  }

  lemma EffectKeeps(s: State, step: Step)
    requires Sane(s) && NoneLost(s) && Enabled(s, step)
    ensures NoneLost(Effect(s, step))
  {
    match step
    case Add(k, interval, jitter, at) => AddKeeps(s, k, interval, jitter, at);
    case Remove(k, _) => RemoveKeeps(s, k);
    case UpdateInterval(k, interval, _) => UpdateIntervalKeeps(s, k, interval);
    case Pause(k, _) => PauseKeeps(s, k);
    case Resume(k, at) => ResumeKeeps(s, k, at);
    case Collect(now, _) => CollectKeeps(s, now);
    case Enqueue(_) => DispatchKeeps(s, EnqueueStep(s));
    case HandOff(_) => DispatchKeeps(s, HandOffStep(s));
    case Reschedule(_) => RescheduleKeeps(s);
    case Take(_) => TakeKeeps(s);
    case Complete(k, at) => CompleteKeeps(s, k, at);
  }

  lemma StepKeeps(s: State, step: Step)
    requires Sane(s) && NoneLost(s) && Enabled(s, step)
    ensures NoneLost(Next(s, step))
  {
    EffectKeeps(s, step);
    ClockKeeps(Effect(s, step), step.at);
  }

  lemma UpdateIntervalKeeps(s: State, k: PollerKey, interval: nat)
    requires Sane(s) && NoneLost(s)
    ensures NoneLost(UpdateIntervalStep(s, k, interval))
  {
    var r := UpdateIntervalStep(s, k, interval);
    forall l | l in r.idx
      ensures Accounted(r, l)
    {
      assert Accounted(s, l);
      assert JobFor(s, l) ==> JobFor(r, l);
    }
  }

  lemma ClockKeeps(s: State, at: int)
    requires Sane(s) && NoneLost(s)
    ensures NoneLost(s.(clock := at))
  {
    var r := s.(clock := at);
    forall l | l in r.idx
      ensures Accounted(r, l)
    {
      assert Accounted(s, l);
      assert JobFor(s, l) ==> JobFor(r, l);
    }
  }

  lemma {:induction false} RunKeeps(g: Regime, s: State, steps: seq<Step>, t: State)
    requires Sane(s) && NoneLost(s) && Run(g, s, steps, t)
    ensures Sane(t) && NoneLost(t)
    decreases |steps|
  {
    if steps != [] {
      StepKeeps(s, steps[0]);
      RunKeeps(g, Next(s, steps[0]), steps[1..], t);
    }
  }

  /** Whatever the interleaving, every key of heapIdx is accounted for and every
      index field is right. */
  lemma NoPollerIsLost(queueSize: nat, clock: int, steps: seq<Step>, t: State)
    requires Run(AnyRun, Init(queueSize, clock), steps, t)
    ensures Tracked(t.heap)
    ensures Sane(t) && NoneLost(t)
  {
    RunKeeps(AnyRun, Init(queueSize, clock), steps, t);
  }
}
