/** How soon a poller that found the queue full can be dispatched again, and so exactly
    when it waits 10 ms from that moment. */
module SchedulerRetries {
  import opened PollHeap
  import opened PollerKeys
  import opened SchedulerModel
  import opened SchedulerNeverLost
  import opened SchedulerOrderly
  import opened SchedulerRuns

  /** The poll time that a retry writes. */
  lemma RetryTimeIff(s: State, at: int)
    requires Sane(s) && Timely(s) && Enabled(s, Reschedule(at))
    ensures Next(s, Reschedule(at)).next[s.due[0]] >= at + 10 <==> at == s.passNow
  {
  }

  /** Whatever happens that does not renew its key, the poller is not dispatched before b. */
  ghost predicate NoSooner(s: State, retry: Step, b: int)
    requires Sane(s) && Enabled(s, retry) && retry.Reschedule?
  {
    forall between, t, send |
      && Run(KeepingRun(s.key[s.due[0]].String()), Next(s, retry), between, t)
      && Sane(t) && Enabled(t, send) && Dispatches(t, send, s.key[s.due[0]].String()) ::
      send.at >= b
  }

  function Earliest(s: State, retry: Step): int {
    if s.passNow + 10 <= retry.at then retry.at else s.passNow + 10
  }

  /** The earliest dispatch that can follow. */
  lemma RetryEarliest(s: State, retry: Step, b: int)
    requires Sane(s) && Timely(s) && Enabled(s, retry) && retry.Reschedule?
    ensures NoSooner(s, retry, b) <==> b <= Earliest(s, retry)
  {
    var k := s.key[s.due[0]].String();
    if b <= Earliest(s, retry) {
      StepKeepsTimely(s, retry);
      RescheduleSetsBound(s, retry);
      forall between, t, send |
        && Run(KeepingRun(k), Next(s, retry), between, t)
        && Sane(t) && Enabled(t, send) && Dispatches(t, send, k)
        ensures send.at >= b
      {
        BoundHolds(Next(s, retry), between, t, send, k, s.passNow + 10);
        TimePasses(KeepingRun(k), Next(s, retry), between, t);
      }
    } else {
      var between, t, send := DispatchEarliest(s, retry);
    }
  }

  /** In every calm run: a poller that found the queue full at moment `full` waits at
      least 10 ms from then if and only if no time had passed since the pass read the
      clock, or the retry itself was held up that long. */
  lemma RetryWaitsIff(queueSize: nat, clock: int, before: seq<Step>, s: State, full: int, retry: Step)
    requires Run(CalmRun, Init(queueSize, clock), before, s)
    requires Sane(s) && Enabled(s, retry) && retry.Reschedule? && s.passNow <= full <= retry.at
    ensures NoSooner(s, retry, full + 10) <==> full == s.passNow || full + 10 <= retry.at
  {
    InitIsTimely(queueSize, clock);
    RunKeepsTimely(Init(queueSize, clock), before, s);
    RetryEarliest(s, retry, full + 10);
  }

  lemma {:induction false} TimePasses(g: Regime, s: State, steps: seq<Step>, t: State)
    requires Sane(s) && Run(g, s, steps, t)
    ensures s.clock <= t.clock
    decreases |steps|
  {
    if steps != [] {
      TimePasses(g, Next(s, steps[0]), steps[1..], t);
    }
  }

  // ----- a run to the early dispatch -----

  lemma {:induction false} RunAppend(g: Regime, s: State, a: seq<Step>, m: State, b: seq<Step>, t: State)
    requires Sane(s) && Run(g, s, a, m) && Sane(m) && Run(g, m, b, t)
    ensures Run(g, s, a + b, t)
    decreases |a|
  {
    hide Next, Enabled, Allowed, Sane;
    if a == [] {
      assert a + b == b;
    } else {
      RunAppend(g, Next(s, a[0]), a[1..], m, b, t);
      assert (a + b)[1..] == a[1..] + b;
    }
  }

  lemma RunCons(g: Regime, s: State, step: Step, rest: seq<Step>, t: State)
    requires Sane(s) && Enabled(s, step) && Allowed(g, s, step) && Run(g, Next(s, step), rest, t)
    ensures Run(g, s, [step] + rest, t)
  {
    hide Next, Enabled, Allowed, Sane;
    assert ([step] + rest)[1..] == rest;
  }

  /** What the select in phase 2 does with the first collected item when no worker waits. */
  function Turn(s: State, at: int): Step {
    if |s.jobs| < s.queueSize then Enqueue(at) else Reschedule(at)
  }

  lemma TurnIsCalm(s: State, at: int)
    requires Sane(s) && Timely(s) && s.due != [] && s.clock <= at
    ensures Enabled(s, Turn(s, at)) && CalmStep(s, Turn(s, at)) && Timely(Next(s, Turn(s, at)))
  {
    StepKeepsTimely(s, Turn(s, at));
  }

  /** One turn takes the first item off the list and leaves the others as they are. */
  lemma TurnLeaves(s: State, at: int, x: nat)
    requires Sane(s) && s.due != [] && s.clock <= at && x != s.due[0] && x < |s.next|
    ensures Enabled(s, Turn(s, at))
    ensures var r := Next(s, Turn(s, at));
            && r.due == s.due[1..] && r.clock == at && r.key == s.key
            && x < |r.next| && r.next[x] == s.next[x]
            && (x in s.heap.slots ==> x in r.heap.slots)
  {
    PushMembers(s.heap, s.next[s.due[0] := s.passNow + 10], s.due[0]);
    hide Push;
  }

  lemma TurnRuns(s: State, at: int, k: string, rest: seq<Step>, t: State)
    requires Sane(s) && Timely(s) && s.due != [] && s.clock <= at && Enabled(s, Turn(s, at))
    requires Run(KeepingRun(k), Next(s, Turn(s, at)), rest, t)
    ensures Run(KeepingRun(k), s, [Turn(s, at)] + rest, t)
  {
    TurnIsCalm(s, at);
    RunCons(KeepingRun(k), s, Turn(s, at), rest, t);
  }

  /** The rest of a pass, without interruption; x stays in the heap. */
  lemma {:induction false} FinishPass(s: State, at: int, x: nat, k: string)
    returns (steps: seq<Step>, t: State)
    requires Sane(s) && Timely(s) && s.clock <= at && x in s.heap.slots && x < |s.next| && KeyOf(s, x, k)
    ensures Run(KeepingRun(k), s, steps, t) && Sane(t) && Timely(t)
    ensures t.due == [] && t.clock <= at && x in t.heap.slots && x < |t.next| && KeyOf(t, x, k)
    ensures t.next[x] == s.next[x]
    decreases |s.due|
  {
    steps, t := [], s;
    if s.due != [] {
      var step := Turn(s, at);
      TurnIsCalm(s, at);
      TurnLeaves(s, at, x);
      hide Timely, Enabled, Next, CalmStep, Sane;
      steps, t := FinishPass(Next(s, step), at, x, k);
      TurnRuns(s, at, k, steps, t);
      steps := [step] + steps;
    }
  }

  /** The turns before x's. */
  lemma {:induction false} ReachTurn(s: State, at: int, x: nat, k: string)
    returns (steps: seq<Step>, t: State)
    requires Sane(s) && Timely(s) && s.clock <= at && x in s.due && x < |s.next| && KeyOf(s, x, k)
    ensures Run(KeepingRun(k), s, steps, t) && Sane(t) && Timely(t)
    ensures t.due != [] && t.due[0] == x && t.clock <= at && x < |t.next| && KeyOf(t, x, k)
    decreases |s.due|
  {
    steps, t := [], s;
    if s.due[0] != x {
      var step := Turn(s, at);
      TurnIsCalm(s, at);
      TurnLeaves(s, at, x);
      assert s.due == [s.due[0]] + s.due[1..];
      hide Timely, Enabled, Next, CalmStep, Sane, KeyOf, Renews;
      steps, t := ReachTurn(Next(s, step), at, x, k);
      TurnRuns(s, at, k, steps, t);
      steps := [step] + steps;
    }
  }

  /** Workers take every queued job. */
  lemma {:induction false} TakeAll(s: State, at: int, k: string)
    returns (steps: seq<Step>, t: State)
    requires Sane(s) && s.clock <= at
    ensures Run(KeepingRun(k), s, steps, t) && Sane(t)
    ensures t.jobs == [] && t.due == s.due && t.key == s.key && t.clock <= at
    decreases |s.jobs|
  {
    steps, t := [], s;
    if s.jobs != [] {
      var step := Take(at);
      steps, t := TakeAll(Next(s, step), at, k);
      RunCons(KeepingRun(k), s, step, steps, t);
      steps := [step] + steps;
    }
  }

  /** A pass at its due time collects x. */
  lemma CollectsIt(s: State, now: int, x: nat)
    requires Sane(s) && Timely(s) && s.due == [] && s.clock <= now
    requires x in s.heap.slots && x < |s.next| && s.next[x] <= now
    ensures Enabled(s, Collect(now, now)) && CalmStep(s, Collect(now, now))
    ensures var r := Next(s, Collect(now, now));
            Timely(r) && x in r.due && r.clock == now && r.key == s.key && |r.next| == |s.next|
  {
    StepKeepsTimely(s, Collect(now, now));
    CollectTakesExactlyTheDue(s.heap, s.next, s.polling, now);
    TakenMembers(s.heap, CollectDue(s.heap, s.next, s.polling, now));
  }

  /** The retry puts the first collected item into the heap. */
  lemma RetryPuts(s: State, retry: Step)
    requires Sane(s) && Enabled(s, retry) && retry.Reschedule?
    ensures var r := Next(s, retry);
            var x := s.due[0];
            && r.clock == retry.at && x in r.heap.slots && x < |r.next|
            && r.next[x] == s.passNow + 10 && KeyOf(r, x, s.key[x].String())
  {
    PushMembers(s.heap, s.next[s.due[0] := s.passNow + 10], s.due[0]);
    hide Push;
  }

  /** steps lead to a state in which send dispatches the key at this moment. */
  ghost predicate LeadsTo(s: State, steps: seq<Step>, t: State, send: Step, k: string, at: int)
    requires Sane(s)
  {
    Run(KeepingRun(k), s, steps, t) && Sane(t) && Enabled(t, send) && Dispatches(t, send, k) && send.at == at
  }

  lemma LeadsToAfter(s: State, a: seq<Step>, m: State, b: seq<Step>, t: State, send: Step, k: string, at: int)
    requires Sane(s) && Run(KeepingRun(k), s, a, m) && Sane(m) && LeadsTo(m, b, t, send, k, at)
    ensures LeadsTo(s, a + b, t, send, k, at)
  {
    RunAppend(KeepingRun(k), s, a, m, b, t);
  }

  /** A worker that has taken every job waits for x's. */
  lemma HandOffNext(s: State, now: int, k: string) returns (steps: seq<Step>, t: State, send: Step)
    requires Sane(s) && s.clock <= now && s.due != [] && s.due[0] < |s.key| && KeyOf(s, s.due[0], k)
    ensures LeadsTo(s, steps, t, send, k, now)
  {
    steps, t := TakeAll(s, now, k);
    send := HandOff(now);
  }

  /** From the collection of x to its dispatch. */
  lemma DispatchCollected(s: State, now: int, x: nat, k: string)
    returns (steps: seq<Step>, t: State, send: Step)
    requires Sane(s) && Timely(s) && s.clock <= now && x in s.due && x < |s.next| && KeyOf(s, x, k)
    ensures LeadsTo(s, steps, t, send, k, now)
  {
    var a, m := ReachTurn(s, now, x, k);
    var b;
    b, t, send := HandOffNext(m, now, k);
    hide Timely, Sane, Run, LeadsTo;
    LeadsToAfter(s, a, m, b, t, send, k, now);
    steps := a + b;
  }

  /** The next pass dispatches x once it is due. */
  lemma DispatchWhenDue(s: State, now: int, x: nat, k: string)
    returns (steps: seq<Step>, t: State, send: Step)
    requires Sane(s) && Timely(s) && s.due == [] && s.clock <= now
    requires x in s.heap.slots && x < |s.next| && s.next[x] <= now && KeyOf(s, x, k)
    ensures LeadsTo(s, steps, t, send, k, now)
  {
    var collect := Collect(now, now);
    CollectsIt(s, now, x);
    var rest;
    rest, t, send := DispatchCollected(Next(s, collect), now, x, k);
    hide Next, Timely, Sane, Run, CollectStep;
    RunCons(KeepingRun(k), s, collect, rest, t);
    steps := [collect] + rest;
  }

  /** The pass goes on, and the next one collects the poller and dispatches it. */
  lemma DispatchAfterPass(s: State, at: int, soon: int, x: nat, k: string)
    returns (steps: seq<Step>, t: State, send: Step)
    requires Sane(s) && Timely(s) && s.clock <= at <= soon
    requires x in s.heap.slots && x < |s.next| && s.next[x] <= soon && KeyOf(s, x, k)
    ensures LeadsTo(s, steps, t, send, k, soon)
  {
    var a, m := FinishPass(s, at, x, k);
    var b;
    b, t, send := DispatchWhenDue(m, soon, x, k);
    hide Timely, Sane, Run, LeadsTo;
    LeadsToAfter(s, a, m, b, t, send, k, soon);
    steps := a + b;
  }

  /** As soon as the poller is due, or at once. */
  lemma DispatchEarliest(s: State, retry: Step) returns (between: seq<Step>, t: State, send: Step)
    requires Sane(s) && Timely(s) && Enabled(s, retry) && retry.Reschedule?
    ensures LeadsTo(Next(s, retry), between, t, send, s.key[s.due[0]].String(), Earliest(s, retry))
  {
    RetryPuts(s, retry);
    StepKeepsTimely(s, retry);
    var x := s.due[0];
    hide Timely, Next, LeadsTo;
    between, t, send := DispatchAfterPass(Next(s, retry), retry.at, Earliest(s, retry), x, s.key[x].String());
  }
}
