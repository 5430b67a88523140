/** Samples on their way from the pollers to the table: added to a buffer, taken from
    it in batches, inserted or lost with a failed insert.  Any number of AddSample
    calls and the flush loop take turns, one lock section or one insert a step. */
module SampleFlow {
  import opened PollerKeys

  datatype Sample = Sample(poller: PollerKey, timestampMs: int, value: string)

  type Batch = seq<Sample>

  /** Before Stop; the loop told to end; ended; Stop's own flush; Stop has returned. */
  datatype Phase = Serving | Closing | LoopEnded | Draining | Stopped

  /** owed counts the AddSample calls that have seen a full buffer and not yet flushed
      it; `taken` holds the batches that calls have taken and not yet inserted; `mine`
      is the loop's batch, or Stop's. */
  datatype State = State(
    batchSize: nat,
    buffer: Batch,
    owed: nat,
    taken: seq<Batch>,
    mine: Batch,
    phase: Phase,
    added: multiset<Sample>,
    stored: multiset<Sample>,
    lost: multiset<Sample>)

  datatype Step =
    | Add(x: Sample)
    | Flush                  // an owed flush takes the buffer
    | Insert(i: nat, ok: bool)
    | LoopFlush
    | LoopInsert(ok: bool)   // the loop's, or Stop's
    | Close                  // Stop closes the channel,
    | LoopEnds               // waits for the loop,
    | StopFlush              // flushes itself
    | Return

  function Init(batchSize: nat): State {
    State(batchSize, [], 0, [], [], Serving, multiset{}, multiset{}, multiset{})
  }

  predicate Enabled(s: State, step: Step) {
    match step
    case Add(_) => true
    case Flush => s.owed > 0
    case Insert(i, _) => i < |s.taken|
    case LoopFlush => s.mine == [] && (s.phase.Serving? || s.phase.Closing?)
    case LoopInsert(_) => s.mine != []
    case Close => s.phase.Serving?
    case LoopEnds => s.phase.Closing? && s.mine == []
    case StopFlush => s.phase.LoopEnded? && s.mine == []
    case Return => s.phase.Draining? && s.mine == []
  }

  function Inserted(s: State, b: Batch, ok: bool): State {
    if ok then s.(stored := s.stored + multiset(b)) else s.(lost := s.lost + multiset(b))
  }

  function Next(s: State, step: Step): State
    requires Enabled(s, step)
  {
    match step
    case Add(x) =>
      var b := s.buffer + [x];
      s.(buffer := b, owed := if |b| >= s.batchSize then s.owed + 1 else s.owed, added := s.added + multiset{x})
    case Flush =>
      s.(buffer := [], owed := s.owed - 1, taken := if s.buffer == [] then s.taken else s.taken + [s.buffer])
    case Insert(i, ok) => Inserted(s.(taken := s.taken[..i] + s.taken[i + 1..]), s.taken[i], ok)
    case LoopFlush => s.(buffer := [], mine := s.buffer)
    case LoopInsert(ok) => Inserted(s.(mine := []), s.mine, ok)
    case Close => s.(phase := Closing)
    case LoopEnds => s.(phase := LoopEnded)
    case StopFlush => s.(buffer := [], mine := s.buffer, phase := Draining)
    case Return => s.(phase := Stopped)
  }

  ghost predicate Run(s: State, steps: seq<Step>, t: State)
    decreases |steps|
  {
    if steps == [] then s == t
    else Enabled(s, steps[0]) && Run(Next(s, steps[0]), steps[1..], t)
  }

  // ----- conservation -----

  function Sum(batches: seq<Batch>): multiset<Sample> {
    if batches == [] then multiset{} else Sum(batches[..|batches| - 1]) + multiset(batches[|batches| - 1])
  }

  lemma {:induction false} SumWithout(batches: seq<Batch>, i: nat)
    requires i < |batches|
    ensures Sum(batches) == Sum(batches[..i] + batches[i + 1..]) + multiset(batches[i])
    decreases |batches|
  {
    var n := |batches| - 1;
    var rest := batches[..i] + batches[i + 1..];
    if i == n {
      assert rest == batches[..n];
    } else {
      SumWithout(batches[..n], i);
      assert rest[..n - 1] == batches[..n][..i] + batches[..n][i + 1..];
      assert rest[n - 1] == batches[n];
    }
  }

  function Buffered(s: State): multiset<Sample> {
    multiset(s.buffer)
  }

  function InFlight(s: State): multiset<Sample> {
    Sum(s.taken) + multiset(s.mine)
  }

  ghost predicate Conserved(s: State) {
    s.added == Buffered(s) + InFlight(s) + s.stored + s.lost
  }

  lemma SumSnoc(batches: seq<Batch>, b: Batch)
    ensures Sum(batches + [b]) == Sum(batches) + multiset(b)
  {
    assert (batches + [b])[..|batches|] == batches;
  }

  lemma StepConserves(s: State, step: Step)
    requires Conserved(s) && Enabled(s, step)
    ensures Conserved(Next(s, step))
  {
    hide Sum;
    match step
    case Flush => FlushConserves(s);
    case Insert(i, ok) => InsertConserves(s, i, ok);
    case Add(x) => AddConserves(s, x);
    case LoopFlush => LoopFlushConserves(s);
    case StopFlush => LoopFlushConserves(s);
    case _ =>
  }

  lemma AddConserves(s: State, x: Sample)
    requires Conserved(s)
    ensures Conserved(Next(s, Add(x)))
  {
    hide Sum;
    assert multiset(s.buffer + [x]) == Buffered(s) + multiset{x};
  }

  lemma FlushConserves(s: State)
    requires Conserved(s) && s.owed > 0
    ensures Conserved(Next(s, Flush))
  {
    hide Sum;
    SumSnoc(s.taken, s.buffer);
  }

  lemma LoopFlushConserves(s: State)
    requires Conserved(s) && s.mine == []
    ensures s.added == multiset{} + (Sum(s.taken) + multiset(s.buffer)) + s.stored + s.lost
  {
    hide Sum;
  }

  lemma InsertConserves(s: State, i: nat, ok: bool)
    requires Conserved(s) && i < |s.taken|
    ensures Conserved(Inserted(s.(taken := s.taken[..i] + s.taken[i + 1..]), s.taken[i], ok))
  {
    hide Sum;
    SumWithout(s.taken, i);
  }

  lemma {:induction false} RunConserves(s: State, steps: seq<Step>, t: State)
    requires Conserved(s) && Run(s, steps, t)
    ensures Conserved(t)
    decreases |steps|
  {
    if steps != [] {
      StepConserves(s, steps[0]);
      RunConserves(Next(s, steps[0]), steps[1..], t);
    }
  }

  /** No sample is dropped or doubled, however the calls and the loop take turns. */
  lemma SamplesAreConserved(batchSize: nat, steps: seq<Step>, t: State)
    requires Run(Init(batchSize), steps, t)
    ensures t.added == Buffered(t) + InFlight(t) + t.stored + t.lost
  {
    RunConserves(Init(batchSize), steps, t);
  }

  // ----- the buffer is bounded -----

  ghost predicate Bounded(s: State) {
    |s.buffer| <= s.owed + (if s.batchSize == 0 then 0 else s.batchSize - 1)
  }

  lemma {:induction false} RunKeepsBounded(s: State, steps: seq<Step>, t: State)
    requires Bounded(s) && Run(s, steps, t)
    ensures Bounded(t) && t.batchSize == s.batchSize
    decreases |steps|
  {
    if steps != [] {
      RunKeepsBounded(Next(s, steps[0]), steps[1..], t);
    }
  }

  /** Between calls, less than a batch is buffered. */
  lemma LessThanABatchWaits(batchSize: nat, steps: seq<Step>, t: State)
    requires Run(Init(batchSize), steps, t) && t.owed == 0
    ensures |t.buffer| < batchSize || t.buffer == []
  {
    RunKeepsBounded(Init(batchSize), steps, t);
  }

  // ----- what each step moves -----

  /** One step: a call's sample into the buffer; the buffer into a call's hands, or the
      loop's or Stop's; a batch into the table, or nowhere. */
  lemma StepMoves(s: State, step: Step)
    requires Enabled(s, step)
    ensures var r := Next(s, step);
            match step
            case Add(x) => r.buffer == s.buffer + [x] && r.added == s.added + multiset{x}
            case Flush =>
              r.buffer == [] && r.mine == s.mine && InFlight(r) == InFlight(s) + Buffered(s)
            case LoopFlush => r.buffer == [] && r.mine == s.buffer && r.taken == s.taken
            case StopFlush => r.buffer == [] && r.mine == s.buffer && r.taken == s.taken
            case Insert(i, ok) =>
              && InFlight(s) == InFlight(r) + multiset(s.taken[i])
              && r.stored == s.stored + (if ok then multiset(s.taken[i]) else multiset{})
            case LoopInsert(ok) =>
              && r.mine == [] && r.taken == s.taken
              && r.stored == s.stored + (if ok then multiset(s.mine) else multiset{})
            case _ => r == s.(phase := r.phase)
  {
    hide Sum;
    SumSnoc(s.taken, s.buffer);
    if step.Insert? {
      SumWithout(s.taken, step.i);
    }
  }

  /** The calls whose sample filled a batch. */
  function Filled(s: State, steps: seq<Step>): nat
    decreases |steps|
  {
    if steps == [] || !Enabled(s, steps[0]) then 0
    else (if steps[0].Add? && |s.buffer| + 1 >= s.batchSize then 1 else 0) + Filled(Next(s, steps[0]), steps[1..])
  }

  function Flushed(steps: seq<Step>): nat
    decreases |steps|
  {
    if steps == [] then 0 else (if steps[0].Flush? then 1 else 0) + Flushed(steps[1..])
  }

  lemma {:induction false} RunOwes(s: State, steps: seq<Step>, t: State)
    requires Run(s, steps, t)
    ensures t.owed + Flushed(steps) == s.owed + Filled(s, steps)
    decreases |steps|
  {
    if steps != [] {
      RunOwes(Next(s, steps[0]), steps[1..], t);
    }
  }

  /** Every call whose sample fills the batch flushes once, or has still to. */
  lemma EachFillIsFlushed(batchSize: nat, steps: seq<Step>, t: State)
    requires Run(Init(batchSize), steps, t)
    ensures t.owed + Flushed(steps) == Filled(Init(batchSize), steps)
  {
    RunOwes(Init(batchSize), steps, t);
  }

  /** Until it has ended the loop flushes whenever it has inserted its last batch. */
  lemma LoopFlushesIff(s: State)
    ensures Enabled(s, LoopFlush) <==> s.mine == [] && s.phase in {Serving, Closing}
  {
  }

  /** Once the loop has ended it has no batch, and takes none. */
  lemma {:induction false} LoopStaysEnded(s: State, steps: seq<Step>, t: State)
    requires Run(s, steps, t) && (s.phase.LoopEnded? ==> s.mine == [])
    ensures t.phase.LoopEnded? ==> t.mine == []
    ensures !s.phase.Serving? && !s.phase.Closing? ==>
              && !t.phase.Serving? && !t.phase.Closing?
              && forall i | 0 <= i < |steps| :: !steps[i].LoopFlush? && !steps[i].LoopEnds?
    decreases |steps|
  {
    if steps != [] {
      LoopStaysEnded(Next(s, steps[0]), steps[1..], t);
      assert forall i | 0 < i < |steps| :: steps[i] == steps[1..][i - 1];
    }
  }

  // ----- stopping -----

  /** After Stop the loop has nothing in hand. */
  lemma {:induction false} RunStopsClean(s: State, steps: seq<Step>, t: State)
    requires (s.phase.Stopped? ==> s.mine == []) && Run(s, steps, t)
    ensures t.phase.Stopped? ==> t.mine == []
    decreases |steps|
  {
    if steps != [] {
      RunStopsClean(Next(s, steps[0]), steps[1..], t);
    }
  }

  lemma {:induction false} SumEmptyIff(batches: seq<Batch>)
    requires forall i | 0 <= i < |batches| :: batches[i] != []
    ensures Sum(batches) == multiset{} <==> batches == []
  {
    if batches != [] {
      var last := batches[|batches| - 1];
      assert last[0] in multiset(last);
      assert last[0] in Sum(batches);
    }
  }

  lemma {:induction false} RunTakesSomething(s: State, steps: seq<Step>, t: State)
    requires (forall i | 0 <= i < |s.taken| :: s.taken[i] != []) && Run(s, steps, t)
    ensures forall i | 0 <= i < |t.taken| :: t.taken[i] != []
    decreases |steps|
  {
    if steps != [] {
      RunTakesSomething(Next(s, steps[0]), steps[1..], t);
    }
  }

  /** Once Stop has returned, every sample added is stored exactly once, if and only if
      nothing came in after its flush took the buffer, no AddSample call is still
      flushing, and no insert has failed. */
  lemma AllStoredIff(batchSize: nat, steps: seq<Step>, t: State)
    requires Run(Init(batchSize), steps, t) && t.phase.Stopped?
    ensures t.stored == t.added <==> t.buffer == [] && t.taken == [] && t.lost == multiset{}
  {
    var s := Init(batchSize);
    RunConserves(s, steps, t);
    RunStopsClean(s, steps, t);
    RunTakesSomething(s, steps, t);
    SumEmptyIff(t.taken);
    hide Sum;
    var rest := Buffered(t) + Sum(t.taken) + t.lost;
    assert t.added == rest + t.stored && |t.added| == |rest| + |t.stored|;
    assert multiset(t.buffer) <= rest && Sum(t.taken) <= rest && t.lost <= rest;
    assert t.buffer != [] ==> t.buffer[0] in multiset(t.buffer);
  }

  predicate Fails(step: Step) {
    (step.Insert? || step.LoopInsert?) && !step.ok
  }

  /** No more samples and no failures. */
  predicate Undisturbed(steps: seq<Step>) {
    forall i | 0 <= i < |steps| :: !steps[i].Add? && !Fails(steps[i])
  }

  /** Nothing is buffered, taken or lost then, even if calls still have to flush. */
  lemma {:induction false} NothingIsLeft(s: State, steps: seq<Step>, t: State)
    requires Run(s, steps, t) && s.buffer == [] && s.taken == [] && s.lost == multiset{} && Undisturbed(steps)
    ensures t.buffer == [] && t.taken == [] && t.lost == multiset{}
    decreases |steps|
  {
    if steps != [] {
      assert !steps[0].Add? && !Fails(steps[0]);
      NothingIsLeft(Next(s, steps[0]), steps[1..], t);
    }
  }

  lemma {:induction false} RunAppend(s: State, a: seq<Step>, m: State, b: seq<Step>, t: State)
    requires Run(s, a, m) && Run(m, b, t)
    ensures Run(s, a + b, t)
    decreases |a|
  {
    if a == [] {
      assert a + b == b;
    } else {
      RunAppend(Next(s, a[0]), a[1..], m, b, t);
      assert (a + b)[1..] == a[1..] + b;
    }
  }

  lemma RunCons(s: State, step: Step, rest: seq<Step>, t: State)
    requires Enabled(s, step) && Run(Next(s, step), rest, t)
    ensures Run(s, [step] + rest, t)
  {
    assert ([step] + rest)[1..] == rest;
  }

  /** Whatever comes after its own flush, except further samples and failing inserts:
      Stop returns with every sample stored exactly once. */
  ghost predicate StopStoresAll(s: State)
    requires Enabled(s, StopFlush)
  {
    forall after, t | Run(Next(s, StopFlush), after, t) && Undisturbed(after) && t.phase.Stopped? ::
      t.stored == t.added
  }

  /** Stop can always return at once, with what the calls have taken still in their
      hands and what was lost still lost. */
  lemma ReturnsAtOnce(s: State) returns (after: seq<Step>, t: State)
    requires Enabled(s, StopFlush)
    ensures Run(Next(s, StopFlush), after, t) && Undisturbed(after) && t.phase.Stopped?
    ensures t.taken == s.taken && t.lost == s.lost
  {
    var r := Next(s, StopFlush);
    var u := if r.mine == [] then r else Next(r, LoopInsert(true));
    t := Next(u, Return);
    assert Run(t, [], t);
    RunCons(u, Return, [], t);
    after := [Return];
    if r.mine != [] {
      RunCons(r, LoopInsert(true), after, t);
      after := [LoopInsert(true)] + after;
    }
  }

  lemma RunThroughStop(batchSize: nat, before: seq<Step>, s: State, after: seq<Step>, t: State)
    returns (steps: seq<Step>)
    requires Run(Init(batchSize), before, s) && Enabled(s, StopFlush) && Run(Next(s, StopFlush), after, t)
    ensures Run(Init(batchSize), steps, t)
  {
    RunCons(s, StopFlush, after, t);
    hide Run, Next, Enabled;
    RunAppend(Init(batchSize), before, s, [StopFlush] + after, t);
    steps := before + ([StopFlush] + after);
  }

  /** At the moment when Stop flushes: everything is stored in the end, whatever the
      calls under way do next, if and only if no call holds a batch that it has taken
      from the buffer and nothing was lost before.  Calls that still have to flush do
      not matter. */
  lemma StopStoresAllIff(batchSize: nat, before: seq<Step>, s: State)
    requires Run(Init(batchSize), before, s) && Enabled(s, StopFlush)
    ensures StopStoresAll(s) <==> s.taken == [] && s.lost == multiset{}
  {
    if s.taken == [] && s.lost == multiset{} {
      forall after, t | Run(Next(s, StopFlush), after, t) && Undisturbed(after) && t.phase.Stopped?
        ensures t.stored == t.added
      {
        NothingIsLeft(Next(s, StopFlush), after, t);
        var steps := RunThroughStop(batchSize, before, s, after, t);
        AllStoredIff(batchSize, steps, t);
      }
    } else {
      var after, t := ReturnsAtOnce(s);
      var steps := RunThroughStop(batchSize, before, s, after, t);
      AllStoredIff(batchSize, steps, t);
    }
  }
}
