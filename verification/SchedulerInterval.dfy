/** The interval in force for a poller: after every run the one asked for last, and so
    what the dispatches of a calm run wait for. */
module SchedulerIntervals {
  import opened PollHeap
  import opened PollerKeys
  import opened SchedulerModel
  import opened SchedulerNeverLost
  import opened SchedulerOrderly
  import opened SchedulerRuns

  /** Whether a key is registered, and for which interval. */
  datatype Registration = Unregistered | Every(interval: nat)

  /** What the callers of Add, Remove and UpdateInterval ask for, call by call: a second
      Add changes nothing, and neither does an update of a key that is not registered. */
  function Told(was: Registration, step: Step, k: string): Registration {
    match step
    case Add(key, interval, _, _) => if key.String() == k && was.Unregistered? then Every(interval) else was
    case Remove(key, _) => if key.String() == k then Unregistered else was
    case UpdateInterval(key, interval, _) => if key.String() == k && was.Every? then Every(interval) else was
    case _ => was
  }

  function ToldBy(was: Registration, steps: seq<Step>, k: string): Registration
    decreases |steps|
  {
    if steps == [] then was else ToldBy(Told(was, steps[0], k), steps[1..], k)
  }

  /** What the scheduler goes by. */
  function InForce(s: State, k: string): Registration
    requires Sane(s)
  {
    if k in s.idx then Every(s.interval[s.idx[k]]) else Unregistered
  }

  lemma StepTells(s: State, step: Step, k: string)
    requires Sane(s) && Enabled(s, step)
    ensures InForce(Next(s, step), k) == Told(InForce(s, k), step, k)
  {
    hide Push, PollHeap.Remove, CollectDue, PollerKey.String;
    if step.UpdateInterval? && k in s.idx && step.key.String() in s.idx && step.key.String() != k {
      assert s.idx[k] != s.idx[step.key.String()];
    }
  }

  lemma {:induction false} RunTells(g: Regime, s: State, steps: seq<Step>, t: State, k: string)
    requires Sane(s) && Run(g, s, steps, t)
    ensures Sane(t) && InForce(t, k) == ToldBy(InForce(s, k), steps, k)
    decreases |steps|
  {
    if steps != [] {
      StepTells(s, steps[0], k);
      RunTells(g, Next(s, steps[0]), steps[1..], t, k);
    }
  }

  /** In every interleaving the scheduler has exactly the registrations asked for, each
      with the interval asked for last. */
  lemma IntervalIsAsked(queueSize: nat, clock: int, steps: seq<Step>, t: State, k: string)
    requires Run(AnyRun, Init(queueSize, clock), steps, t)
    ensures Sane(t) && InForce(t, k) == ToldBy(Unregistered, steps, k)
  {
    RunTells(AnyRun, Init(queueSize, clock), steps, t, k);
  }

  /** The call is for this key's registration. */
  predicate Concerns(step: Step, k: string) {
    (step.Add? || step.Remove? || step.UpdateInterval?) && step.key.String() == k
  }

  lemma {:induction false} NothingTold(was: Registration, steps: seq<Step>, k: string)
    requires forall i | 0 <= i < |steps| :: !Concerns(steps[i], k)
    ensures ToldBy(was, steps, k) == was
    decreases |steps|
  {
    if steps != [] {
      assert !Concerns(steps[0], k);
      NothingTold(was, steps[1..], k);
    }
  }

  /** In calm runs a poller is never dispatched before a completion plus the interval
      asked for last before it, unless it has been resumed or registered anew since. */
  lemma DispatchWaitsAsAsked(queueSize: nat, clock: int, before: seq<Step>, s: State, done: Step,
                             between: seq<Step>, t: State, send: Step)
    requires Run(CalmRun, Init(queueSize, clock), before, s)
    requires Sane(s) && Enabled(s, done) && done.Complete?
    requires ToldBy(Unregistered, before, done.key.String()).Every?
    requires Run(KeepingRun(done.key.String()), Next(s, done), between, t)
    requires Sane(t) && Enabled(t, send) && Dispatches(t, send, done.key.String())
    ensures send.at >= done.at + ToldBy(Unregistered, before, done.key.String()).interval
  {
    RunTells(CalmRun, Init(queueSize, clock), before, s, done.key.String());
    DispatchWaitsForInterval(queueSize, clock, before, s, done, between, t, send);
  }

  /** From an UpdateInterval of a registered poller on, as long as nothing else concerns
      its registration, completions wait for the interval of that call. */
  lemma DispatchWaitsForUpdate(queueSize: nat, clock: int, before: seq<Step>, s: State, update: Step,
                               meanwhile: seq<Step>, r: State, done: Step, between: seq<Step>, t: State, send: Step)
    requires Run(CalmRun, Init(queueSize, clock), before, s)
    requires Sane(s) && Enabled(s, update) && update.UpdateInterval? && update.key.String() in s.idx
    requires Run(CalmRun, Next(s, update), meanwhile, r)
    requires forall i | 0 <= i < |meanwhile| :: !Concerns(meanwhile[i], update.key.String())
    requires Sane(r) && Enabled(r, done) && done.Complete? && done.key.String() == update.key.String()
    requires Run(KeepingRun(update.key.String()), Next(r, done), between, t)
    requires Sane(t) && Enabled(t, send) && Dispatches(t, send, update.key.String())
    ensures send.at >= done.at + update.interval
  {
    var k := update.key.String();
    InitIsTimely(queueSize, clock);
    RunKeepsTimely(Init(queueSize, clock), before, s);
    StepTells(s, update, k);
    RunTells(CalmRun, Next(s, update), meanwhile, r, k);
    NothingTold(Every(update.interval), meanwhile, k);
    StepKeepsTimely(s, update);
    RunKeepsTimely(Next(s, update), meanwhile, r);
    StepKeepsTimely(r, done);
    CompletionSetsBound(r, done);
    BoundHolds(Next(r, done), between, t, send, k, done.at + update.interval);
  }
}
