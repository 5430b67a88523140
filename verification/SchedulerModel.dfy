/** The poll scheduler as a state machine.

    A step is what one goroutine does under one hold of the scheduler's lock, or
    one channel operation.  processDueItems is two kinds of step: collecting the
    due items under the lock, and then, without the lock, queueing or
    rescheduling them one by one; every other step may come in between.  */
module SchedulerModel {
  import opened PollHeap
  import opened PollerKeys

  datatype State = State(
    heap: Heap,
    next: seq<int>,             // NextPollMs of every item ever created
    interval: seq<nat>,         // IntervalMs
    polling: seq<bool>,         // Polling
    key: seq<PollerKey>,        // Key
    idx: map<string, nat>,      // heapIdx
    due: seq<nat>,              // dueItems not yet queued or rescheduled
    passNow: int,               // the clock reading of the pass that collected them
    jobs: seq<PollerKey>,       // the jobs channel
    queueSize: nat,             // its capacity
    running: multiset<PollerKey>, // jobs received by workers and not yet marked complete
    clock: int,                 // the time of the last step
    parked: set<nat>)           // history: taken out of the heap by Pause, not pushed since

  datatype Step =
    | Add(key: PollerKey, interval: nat, jitter: nat, at: int)
    | Remove(key: PollerKey, at: int)
    | UpdateInterval(key: PollerKey, interval: nat, at: int)
    | Pause(key: PollerKey, at: int)
    | Resume(key: PollerKey, at: int)
    | Collect(now: int, at: int)
    | Enqueue(at: int)
    | HandOff(at: int)
    | Reschedule(at: int)
    | Take(at: int)
    | Complete(key: PollerKey, at: int)

  function Init(queueSize: nat, clock: int): State {
    State(Heap([], []), [], [], [], [], map[], [], clock, [], queueSize, multiset{}, clock, {})
  }

  /** All fields speak of the same items, and index fields and keys are right. */
  ghost predicate Sane(s: State) {
    && Timed(s.heap, s.next)
    && |s.interval| == |s.polling| == |s.key| == |s.next|
    && Tracked(s.heap)
    && (forall k | k in s.idx :: s.idx[k] < |s.next| && s.key[s.idx[k]].String() == k)
    && (forall i | 0 <= i < |s.due| :: s.due[i] < |s.next|)
  }

  // ----- the steps -----

  function PushItem(s: State, x: nat): (r: State)
    requires Sane(s) && x < |s.next|
    ensures Sane(r)
  {
    PushPutsIn(s.heap, s.next, x);
    s.(heap := Push(s.heap, s.next, x), parked := s.parked - {x})
  }

  /** Puts the item back with a new poll time, no longer marked Polling. */
  function Requeue(s: State, x: nat, time: int): (r: State)
    requires Sane(s) && x < |s.next|
    ensures Sane(r)
  {
    PushItem(s.(next := s.next[x := time], polling := s.polling[x := false]), x)
  }

  /** Takes the item out of the heap when its index field says it is there. */
  function TakeOut(s: State, x: nat): (r: State)
    requires Sane(s) && x < |s.next|
    ensures Sane(r)
  {
    assert TrackedAt(s.heap, x);
    if s.heap.index[x] < 0 then s
    else
      RemoveTakesOut(s.heap, s.next, s.heap.index[x]);
      s.(heap := PollHeap.Remove(s.heap, s.next, s.heap.index[x]))
  }

  lemma GrowTracked(h: Heap)
    requires Tracked(h)
    ensures Tracked(Heap(h.slots, h.index + [-1]))
  {
    var r := Heap(h.slots, h.index + [-1]);
    forall y: nat | y < |r.index|
      ensures TrackedAt(r, y)
    {
      assert y < |h.index| ==> TrackedAt(h, y);
    }
  }

  /** A new item for a key that has none.  Its index field is set by the push. */
  function NewItem(s: State, k: PollerKey, interval: nat, next: int): (r: State)
    requires Sane(s) && k.String() !in s.idx
    ensures Sane(r)
  {
    var h := Heap(s.heap.slots, s.heap.index + [-1]);
    GrowTracked(s.heap);
    s.(heap := h,
       next := s.next + [next],
       interval := s.interval + [interval],
       polling := s.polling + [false],
       key := s.key + [k],
       idx := s.idx[k.String() := |s.next|])
  }

  function AddStep(s: State, k: PollerKey, interval: nat, jitter: nat, at: int): (r: State)
    requires Sane(s)
    ensures Sane(r)
  {
    if k.String() in s.idx then s
    else PushItem(NewItem(s, k, interval, at + jitter), |s.next|)
  }

  function RemoveStep(s: State, k: PollerKey): (r: State)
    requires Sane(s)
    ensures Sane(r)
  {
    if k.String() !in s.idx then s
    else
      var r := TakeOut(s, s.idx[k.String()]);
      r.(idx := r.idx - {k.String()})
  }

  function UpdateIntervalStep(s: State, k: PollerKey, interval: nat): (r: State)
    requires Sane(s)
    ensures Sane(r)
  {
    if k.String() !in s.idx then s
    else s.(interval := s.interval[s.idx[k.String()] := interval])
  }

  function PauseStep(s: State, k: PollerKey): (r: State)
    requires Sane(s)
    ensures Sane(r)
  {
    if k.String() !in s.idx || s.heap.index[s.idx[k.String()]] < 0 then s
    else
      var x := s.idx[k.String()];
      var r := TakeOut(s, x);
      r.(parked := r.parked + {x})
  }

  function ResumeStep(s: State, k: PollerKey, at: int): (r: State)
    requires Sane(s)
    ensures Sane(r)
  {
    if k.String() !in s.idx || s.heap.index[s.idx[k.String()]] >= 0 then s
    else
      var x := s.idx[k.String()];
      Requeue(s, x, at)
  }

  datatype Collected = Collected(heap: Heap, polling: seq<bool>, taken: seq<nat>)

  /** The collecting loop of processDueItems. */
  function CollectDue(h: Heap, next: seq<int>, polling: seq<bool>, now: int): (r: Collected)
    requires Timed(h, next) && |polling| == |next|
    ensures Timed(r.heap, next) && |r.polling| == |next|
    ensures forall i | 0 <= i < |r.taken| :: r.taken[i] < |next|
    decreases |h.slots|
  {
    if |h.slots| == 0 || next[h.slots[0]] > now then Collected(h, polling, [])
    else
      var x := h.slots[0];
      var h1 := Pop(h, next);
      if polling[x] then CollectDue(h1, next, polling, now)
      else
        var r := CollectDue(h1, next, polling[x := true], now);
        r.(taken := [x] + r.taken)
  }

  lemma {:induction false} CollectTracked(h: Heap, next: seq<int>, polling: seq<bool>, now: int)
    requires Timed(h, next) && |polling| == |next| && Tracked(h)
    ensures Tracked(CollectDue(h, next, polling, now).heap)
    decreases |h.slots|
  {
    if |h.slots| > 0 && next[h.slots[0]] <= now {
      PopTakesOut(h, next);
      CollectTracked(Pop(h, next), next, polling, now);
      CollectTracked(Pop(h, next), next, polling[h.slots[0] := true], now);
    }
  }

  function CollectStep(s: State, now: int): (r: State)
    requires Sane(s)
    ensures Sane(r)
  {
    CollectTracked(s.heap, s.next, s.polling, now);
    var c := CollectDue(s.heap, s.next, s.polling, now);
    s.(heap := c.heap, polling := c.polling, due := c.taken, passNow := now)
  }

  function EnqueueStep(s: State): (r: State)
    requires Sane(s) && s.due != []
    ensures Sane(r)
  {
    s.(jobs := s.jobs + [s.key[s.due[0]]], due := s.due[1..])
  }

  /** A send that a waiting worker receives at once. */
  function HandOffStep(s: State): (r: State)
    requires Sane(s) && s.due != []
    ensures Sane(r)
  {
    s.(running := s.running + multiset{s.key[s.due[0]]}, due := s.due[1..])
  }

  function RescheduleStep(s: State): (r: State)
    requires Sane(s) && s.due != []
    ensures Sane(r)
  {
    Requeue(s.(due := s.due[1..]), s.due[0], s.passNow + 10)
  }

  function TakeStep(s: State): (r: State)
    requires Sane(s) && s.jobs != []
    ensures Sane(r)
  {
    s.(running := s.running + multiset{s.jobs[0]}, jobs := s.jobs[1..])
  }

  function JobDone(s: State, k: PollerKey): (r: State)
    requires Sane(s)
    ensures Sane(r)
  {
    s.(running := s.running - multiset{k})
  }

  /** A worker has executed its job and calls MarkComplete. */
  function CompleteStep(s: State, k: PollerKey, at: int): (r: State)
    requires Sane(s)
    ensures Sane(r)
  {
    var s1 := JobDone(s, k);
    if k.String() !in s.idx then s1
    else
      var x := s.idx[k.String()];
      var time := at + s.interval[x];
      if s.heap.index[x] < 0 then Requeue(s1, x, time)
      else s1.(next := s1.next[x := time], polling := s1.polling[x := false])
  }

  function Effect(s: State, step: Step): (r: State)
    requires Sane(s) && Enabled(s, step)
    ensures Sane(r)
  {
    match step
    case Add(k, interval, jitter, at) => AddStep(s, k, interval, jitter, at)
    case Remove(k, _) => RemoveStep(s, k)
    case UpdateInterval(k, interval, _) => UpdateIntervalStep(s, k, interval)
    case Pause(k, _) => PauseStep(s, k)
    case Resume(k, at) => ResumeStep(s, k, at)
    case Collect(now, _) => CollectStep(s, now)
    case Enqueue(_) => EnqueueStep(s)
    case HandOff(_) => HandOffStep(s)
    case Reschedule(_) => RescheduleStep(s)
    case Take(_) => TakeStep(s)
    case Complete(k, at) => CompleteStep(s, k, at)
  }

  /** When a step can happen.  Time does not run backwards; a pass reads the
      clock before it takes the lock; one goroutine runs the passes.  The queue is
      found full before the lock for the retry is taken, so by the Reschedule a worker
      may have taken a job. */
  predicate Enabled(s: State, step: Step) {
    && s.clock <= step.at
    && match step
       case Add(_, interval, jitter, _) => jitter < interval
       case Collect(now, at) => s.due == [] && now <= at
       case Enqueue(_) => s.due != [] && |s.jobs| < s.queueSize
       case HandOff(_) => s.due != [] && s.jobs == []
       case Reschedule(_) => s.due != []
       case Take(_) => s.jobs != []
       case Complete(k, _) => k in s.running
       case _ => true
  }

  function Next(s: State, step: Step): (r: State)
    requires Sane(s) && Enabled(s, step)
    ensures Sane(r)
  {
    Effect(s, step).(clock := step.at)
  }

  // ----- where items are -----

  /** A job for this key is queued or executing. */
  ghost predicate JobFor(s: State, k: string) {
    exists j :: (j in s.jobs || j in s.running) && j.String() == k
  }

  /** The item is in the heap or collected and not yet queued. */
  ghost predicate Waiting(s: State, x: nat) {
    x in s.heap.slots || x in s.due
  }

  // ----- runs -----

  /** Which steps a run may take: any; only calm ones; only calm ones that do not renew
      this key; only disciplined ones; or none that resumes a poller or adds a key a
      second time. */
  datatype Regime = AnyRun | CalmRun | KeepingRun(key: string) | DisciplinedRun | FirstAddsRun

  ghost predicate Allowed(g: Regime, s: State, step: Step)
    requires Sane(s)
  {
    match g
    case AnyRun => true
    case CalmRun => CalmStep(s, step)
    case KeepingRun(k) => CalmStep(s, step) && !Renews(s, step, k)
    case DisciplinedRun => DisciplinedStep(s, step)
    case FirstAddsRun => FirstAddStep(s, step)
  }

  /** No key is added anew while a job for it, or a waiting item left over from an
      earlier registration, is outstanding; no item is resumed between its collect
      and its queueing or while its job is outstanding. */
  ghost predicate CalmStep(s: State, step: Step) {
    && (step.Add? && step.key.String() !in s.idx ==>
          && !JobFor(s, step.key.String())
          && (forall x: nat | Waiting(s, x) && x < |s.key| :: s.key[x].String() != step.key.String()))
    && (step.Resume? && step.key.String() in s.idx ==>
          && s.idx[step.key.String()] !in s.due
          && !JobFor(s, step.key.String()))
  }

  /** The step registers the key anew, or resumes it when it is out of the heap. */
  ghost predicate Renews(s: State, step: Step, k: string)
    requires Sane(s)
  {
    || (step.Add? && step.key.String() == k && k !in s.idx)
    || (step.Resume? && step.key.String() == k && k in s.idx && s.heap.index[s.idx[k]] < 0)
  }

  /** No Remove or Resume of an item between its collect and its queueing or
      rescheduling; no re-Add or Resume of a key while its job is outstanding. */
  ghost predicate DisciplinedStep(s: State, step: Step) {
    && (step.Remove? && step.key.String() in s.idx ==> s.idx[step.key.String()] !in s.due)
    && (step.Add? && step.key.String() !in s.idx ==> !JobFor(s, step.key.String()))
    && (step.Resume? && step.key.String() in s.idx ==>
          && s.idx[step.key.String()] !in s.due
          && !JobFor(s, step.key.String()))
  }

  /** No Resume, and no Add of an unregistered key that had an item before. */
  ghost predicate FirstAddStep(s: State, step: Step) {
    && !step.Resume?
    && (step.Add? && step.key.String() !in s.idx ==>
          forall x | 0 <= x < |s.key| :: s.key[x].String() != step.key.String())
  }

  /** The steps lead from s to t. */
  ghost predicate Run(g: Regime, s: State, steps: seq<Step>, t: State)
    requires Sane(s)
    decreases |steps|
  {
    if steps == [] then t == s
    else
      && Enabled(s, steps[0])
      && Allowed(g, s, steps[0])
      && Run(g, Next(s, steps[0]), steps[1..], t)
  }
}
