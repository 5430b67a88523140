/** Short runs that show why the strong invariant asks for discipline, and that a
    retry may go out less than 10 ms after the moment the queue was found full. */
module SchedulerLimits {
  import opened PollHeap
  import opened PollerKeys
  import opened SchedulerModel

  /** One allowed step leads from s to r. */
  ghost predicate Goes(g: Regime, s: State, step: Step, r: State) {
    Sane(s) && Enabled(s, step) && Allowed(g, s, step) && Next(s, step) == r
  }

  lemma {:induction false} RunSnoc(g: Regime, s: State, steps: seq<Step>, t: State, step: Step, r: State)
    requires Sane(s) && Run(g, s, steps, t) && Goes(g, t, step, r)
    ensures Run(g, s, steps + [step], r)
    decreases |steps|
  {
    hide Next, Enabled, Allowed, Sane;
    if steps == [] {
      assert ([step])[1..] == [];
      assert Run(g, r, [], r);
      assert steps + [step] == [step];
    } else {
      RunSnoc(g, Next(s, steps[0]), steps[1..], t, step, r);
      assert (steps + [step])[1..] == steps[1..] + [step];
    }
  }

  // ----- one poller, due at time 0 -----

  function Added(k: PollerKey): State {
    Init(0, 0).(heap := Heap([0], [0]), next := [0], interval := [10], polling := [false], key := [k],
                idx := map[k.String() := 0])
  }

  lemma AddOne(k: PollerKey)
    ensures Goes(FirstAddsRun, Init(0, 0), Add(k, 10, 0, 0), Added(k))
  {
    assert TrackedAt(Added(k).heap, 0);
  }

  function Due(k: PollerKey, at: int): State {
    Added(k).(heap := Heap([], [-1]), polling := [true], due := [0], passNow := 0, clock := at)
  }

  lemma CollectOne(k: PollerKey, at: int)
    requires 0 <= at
    ensures Goes(FirstAddsRun, Added(k), Collect(0, at), Due(k, at))
  {
    AddOne(k);
    assert Pop(Added(k).heap, [0]) == Heap([], [-1]);
    assert CollectDue(Heap([], [-1]), [0], [true], 0) == SchedulerModel.Collected(Heap([], [-1]), [true], []);
  }

  /** The run so far, in any regime that allows it. */
  lemma ToDue(g: Regime, k: PollerKey, at: int) returns (steps: seq<Step>)
    requires 0 <= at && (g == AnyRun || g == FirstAddsRun)
    ensures Run(g, Init(0, 0), steps, Due(k, at)) && Sane(Due(k, at))
  {
    AddOne(k);
    CollectOne(k, at);
    assert Goes(g, Init(0, 0), Add(k, 10, 0, 0), Added(k)) && Goes(g, Added(k), Collect(0, at), Due(k, at));
    hide Next, Goes;
    RunSnoc(g, Init(0, 0), [], Init(0, 0), Add(k, 10, 0, 0), Added(k));
    RunSnoc(g, Init(0, 0), [] + [Add(k, 10, 0, 0)], Added(k), Collect(0, at), Due(k, at));
    steps := [] + [Add(k, 10, 0, 0)] + [Collect(0, at)];
    DueIsSane(k, at);
  }

  lemma DueIsSane(k: PollerKey, at: int)
    requires 0 <= at
    ensures Sane(Due(k, at))
  {
    CollectOne(k, at);
  }

  // ----- Remove or Resume between the collect and the reschedule -----

  lemma RemoveDue(k: PollerKey)
    ensures Goes(AnyRun, Due(k, 0), Remove(k, 0), Due(k, 0).(idx := map[]))
  {
    DueIsSane(k, 0);
  }

  /** Rescheduling the one collected item, whether registered or not. */
  lemma RescheduleDue(k: PollerKey, s: State)
    requires Sane(s) && s == Due(k, s.clock).(idx := s.idx)
    ensures Goes(FirstAddsRun, s, Reschedule(s.clock),
                 s.(heap := Heap([0], [0]), next := [10], polling := [false], due := []))
  {
    assert Push(Heap([], [-1]), [10], 0) == Heap([0], [0]);
  }

  /** A Remove in between leaves in the heap an item that no key refers to. */
  lemma RemoveBetweenLeavesOrphan(k: PollerKey) returns (steps: seq<Step>, t: State)
    ensures Run(AnyRun, Init(0, 0), steps, t)
    ensures t.heap.slots == [0] && t.idx == map[]
  {
    steps := ToDue(AnyRun, k, 0);
    RemoveDue(k);
    var s := Due(k, 0).(idx := map[]);
    assert Sane(s);
    t := s.(heap := Heap([0], [0]), next := [10], polling := [false], due := []);
    RescheduleDue(k, s);
    assert Goes(AnyRun, s, Reschedule(0), t);
    RunSnoc(AnyRun, Init(0, 0), steps, Due(k, 0), Remove(k, 0), s);
    RunSnoc(AnyRun, Init(0, 0), steps + [Remove(k, 0)], s, Reschedule(0), t);
    steps := steps + [Remove(k, 0)] + [Reschedule(0)];
  }

  function ResumedDue(k: PollerKey): State {
    Due(k, 0).(heap := Heap([0], [0]), next := [0], polling := [false])
  }

  lemma ResumeDue(k: PollerKey)
    ensures Goes(AnyRun, Due(k, 0), Resume(k, 0), ResumedDue(k))
  {
    DueIsSane(k, 0);
    assert Push(Heap([], [-1]), [0], 0) == Heap([0], [0]);
  }

  lemma RescheduleResumed(k: PollerKey)
    ensures Goes(AnyRun, ResumedDue(k), Reschedule(0),
                 ResumedDue(k).(heap := Heap([0, 0], [1]), next := [10], due := []))
  {
    assert TrackedAt(Heap([0], [0]), 0);
    assert Push(Heap([0], [0]), [10], 0) == Heap([0, 0], [1]);
  }

  /** A Resume in between puts the item in the heap twice. */
  lemma ResumeBetweenPushesTwice(k: PollerKey) returns (steps: seq<Step>, t: State)
    ensures Run(AnyRun, Init(0, 0), steps, t)
    ensures t.heap.slots == [0, 0]
  {
    steps := ToDue(AnyRun, k, 0);
    ResumeDue(k);
    RescheduleResumed(k);
    hide Next, Goes, Sane;
    t := ResumedDue(k).(heap := Heap([0, 0], [1]), next := [10], due := []);
    RunSnoc(AnyRun, Init(0, 0), steps, Due(k, 0), Resume(k, 0), ResumedDue(k));
    RunSnoc(AnyRun, Init(0, 0), steps + [Resume(k, 0)], ResumedDue(k), Reschedule(0), t);
    steps := steps + [Resume(k, 0)] + [Reschedule(0)];
  }

  // ----- Resume while a job is out -----

  function Busy(k: PollerKey): State {
    Due(k, 0).(due := [], running := multiset{k})
  }

  function BusyAgain(k: PollerKey): State {
    Busy(k).(heap := Heap([0], [0]), next := [0], polling := [false])
  }

  function Two(k: PollerKey, l: PollerKey, time: int): State {
    BusyAgain(k).(heap := Heap([0, 1], [0, 1]), next := [time, 1], interval := [10, 10],
                  polling := [false, false], key := [k, l], idx := map[k.String() := 0, l.String() := 1])
  }

  lemma HandOffDue(k: PollerKey)
    ensures Goes(AnyRun, Due(k, 0), HandOff(0), Busy(k))
  {
    DueIsSane(k, 0);
  }

  lemma ResumeBusy(k: PollerKey)
    ensures Goes(AnyRun, Busy(k), Resume(k, 0), BusyAgain(k))
  {
    HandOffDue(k);
    assert Push(Heap([], [-1]), [0], 0) == Heap([0], [0]);
  }

  lemma AddAnother(k: PollerKey, l: PollerKey)
    requires k.String() != l.String()
    ensures Goes(AnyRun, BusyAgain(k), Add(l, 10, 1, 0), Two(k, l, 0))
  {
    BusyAgainIsSane(k);
    SecondPush();
    assert [0] + [-1] == [0, -1] && [0] + [1] == [0, 1];
    hide Pop, CollectDue, PollHeap.Remove, Ordered, JobFor, Resift, Push;
  }

  lemma SecondPush()
    ensures Push(Heap([0], [0, -1]), [0, 1], 1) == Heap([0, 1], [0, 1])
  {
  }

  lemma BusyAgainIsSane(k: PollerKey)
    ensures Sane(BusyAgain(k))
  {
    ResumeBusy(k);
  }

  lemma CompleteFirst(k: PollerKey, l: PollerKey)
    requires k.String() != l.String()
    ensures Goes(AnyRun, Two(k, l, 0), Complete(k, 0), Two(k, l, 10).(running := multiset{}))
    ensures Sane(Two(k, l, 10).(running := multiset{}))
    ensures !Ordered(Heap([0, 1], [0, 1]), [10, 1])
  {
    AddAnother(k, l);
    assert !OrderedAt(Heap([0, 1], [0, 1]), [10, 1], 1);
  }

  /** A Resume while the job is out, and the completion that follows, leave a heap
      out of order: the completion rewrites the poll time in place. */
  lemma ResumeWhileBusyBreaksOrder(k: PollerKey, l: PollerKey) returns (steps: seq<Step>, t: State)
    requires k.String() != l.String()
    ensures Run(AnyRun, Init(0, 0), steps, t)
    ensures Sane(t) && !Ordered(t.heap, t.next)
  {
    steps := ToDue(AnyRun, k, 0);
    HandOffDue(k);
    ResumeBusy(k);
    AddAnother(k, l);
    CompleteFirst(k, l);
    hide Next, Goes, Sane, Ordered;
    var s0 := Init(0, 0);
    InitIsSane();
    RunSnoc(AnyRun, s0, steps, Due(k, 0), HandOff(0), Busy(k));
    RunSnoc(AnyRun, s0, steps + [HandOff(0)], Busy(k), Resume(k, 0), BusyAgain(k));
    RunSnoc(AnyRun, s0, steps + [HandOff(0)] + [Resume(k, 0)], BusyAgain(k), Add(l, 10, 1, 0), Two(k, l, 0));
    t := Two(k, l, 10).(running := multiset{});
    RunSnoc(AnyRun, s0, steps + [HandOff(0)] + [Resume(k, 0)] + [Add(l, 10, 1, 0)], Two(k, l, 0), Complete(k, 0), t);
    steps := steps + [HandOff(0)] + [Resume(k, 0)] + [Add(l, 10, 1, 0)] + [Complete(k, 0)];
  }

  lemma InitIsSane()
    ensures Sane(Init(0, 0))
  {
  }

  // ----- a retry -----

  function Retried(k: PollerKey): State {
    Due(k, 5).(heap := Heap([0], [0]), next := [10], polling := [false], due := [])
  }

  function DueAgain(k: PollerKey): State {
    Retried(k).(heap := Heap([], [-1]), polling := [true], due := [0], passNow := 10, clock := 10)
  }

  lemma CollectRetried(k: PollerKey)
    ensures Goes(FirstAddsRun, Retried(k), Collect(10, 10), DueAgain(k))
    ensures Sane(DueAgain(k)) && Enabled(DueAgain(k), HandOff(10))
  {
    assert TrackedAt(Heap([0], [0]), 0);
    assert Pop(Heap([0], [0]), [10]) == Heap([], [-1]);
    assert CollectDue(Heap([], [-1]), [10], [true], 10) == SchedulerModel.Collected(Heap([], [-1]), [true], []);
  }

  /** The pass reads the clock before it takes the lock: here a retry goes out 5 ms
      after the moment the queue was found full. */
  lemma RetryCanComeSooner(k: PollerKey)
    returns (before: seq<Step>, s: State, retry: Step, between: seq<Step>, t: State, send: Step)
    ensures Run(FirstAddsRun, Init(0, 0), before, s)
    ensures Sane(s) && retry.Reschedule? && Enabled(s, retry)
    ensures Run(FirstAddsRun, Next(s, retry), between, t)
    ensures Sane(t) && send.HandOff? && Enabled(t, send)
    ensures |s.due| == |t.due| == 1 && s.due[0] == t.due[0]
    ensures send.at < retry.at + 10
  {
    before := ToDue(FirstAddsRun, k, 5);
    s, retry := Due(k, 5), Reschedule(5);
    RescheduleDue(k, s);
    CollectRetried(k);
    t, send, between := DueAgain(k), HandOff(10), [] + [Collect(10, 10)];
    RunSnoc(FirstAddsRun, Retried(k), [], Retried(k), Collect(10, 10), t);
  }
}
