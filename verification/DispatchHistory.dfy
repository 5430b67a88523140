/** What each dispatch does, told from the tables themselves; and after any dispatches,
    exactly which pollers there are, which are enabled, scheduled and running. */
module DispatchHistory {
  import opened Dispatching
  import opened Histories
  import P = PollerStates

  // ----- one dispatch -----

  ghost predicate OnlyTouches(s: System, r: System, k: string) {
    && (forall o | o != k :: (o in r.pollers <==> o in s.pollers) && (o in s.pollers ==> r.pollers[o] == s.pollers[o]))
    && (forall o | o != k :: (o in r.states <==> o in s.states) && (o in s.states ==> r.states[o] == s.states[o]))
    && (forall o | o != k :: o in r.scheduled <==> o in s.scheduled)
  }

  /** What the state manager says of a key, known or not. */
  function StateAt(s: System, k: string): PS {
    if k in s.states then s.states[k] else PS("disabled", "stopped")
  }

  /** No dispatch changes anything of another key's. */
  lemma OthersStay(s: System, d: Dispatch)
    ensures OnlyTouches(s, Step(s, d), d.key)
  {
  }

  /** The new poller is disabled unless it asks otherwise, its state says what it says, and
      it is scheduled if it is enabled and has a configuration. */
  lemma CreateDoes(s: System, k: string, admin: string, nameOk: bool, storeOk: bool, configOk: bool)
    ensures var r := Step(s, Create(k, admin, nameOk, storeOk, configOk));
            var a := if admin == "" then "disabled" else admin;
            if k in s.pollers || !nameOk || !storeOk then r == s
            else
              && k in r.pollers && r.pollers[k] == a
              && k in r.states && r.states[k] == PS(a, StateAt(s, k).oper)
              && (k in r.scheduled <==> k in s.scheduled || (a == "enabled" && configOk))
  {
  }

  /** A successful Enable leaves the poller enabled, and with a configuration scheduled and,
      from stopped or error, running. */
  lemma EnableDoes(s: System, k: string, storeOk: bool, configOk: bool)
    ensures var r := Step(s, Enable(k, storeOk, configOk));
            var o := StateAt(s, k).oper;
            if k !in s.pollers then r == s
            else
              && k in r.pollers && r.pollers[k] == "enabled"
              && (!storeOk ==> r.states == s.states && r.scheduled == s.scheduled)
              && (storeOk ==>
                    && k in r.states
                    && r.states[k] == PS("enabled", if configOk && o in {"stopped", "error", "starting"} then "running" else o)
                    && (k in r.scheduled <==> k in s.scheduled || configOk))
  {
  }

  /** A successful Disable leaves it disabled, stopped and not scheduled; a failing one only
      writes the poller's own admin state. */
  lemma DisableDoes(s: System, k: string, storeOk: bool)
    ensures var r := Step(s, Disable(k, storeOk));
            if k !in s.pollers then r == s
            else
              && k in r.pollers && r.pollers[k] == "disabled"
              && (!storeOk ==> r.states == s.states && r.scheduled == s.scheduled)
              && (storeOk ==> k in r.states && r.states[k] == PS("disabled", "stopped") && k !in r.scheduled)
  {
  }

  /** A Delete of a running poller is refused, and of an unknown one fails; any other takes
      it off the schedule, and its rows and state too if the store agrees. */
  lemma DeleteDoes(s: System, k: string, storeOk: bool)
    ensures var r := Step(s, Delete(k, storeOk));
            if Running(s, k) || k !in s.pollers
            then r.pollers == s.pollers && r.scheduled == s.scheduled && k in r.states && r.states[k] == StateAt(s, k)
            else
              && k !in r.scheduled
              && (storeOk ==> k !in r.pollers && k !in r.states)
              && (!storeOk ==> r.pollers == s.pollers && k in r.states && r.states[k] == StateAt(s, k))
  {
  }

  // ----- dispatches that take effect -----

  predicate Creates(s: System, d: Dispatch, k: string) {
    d.Create? && d.key == k && k !in s.pollers && d.nameOk && d.storeOk
  }

  predicate Enables(s: System, d: Dispatch, k: string) {
    d.Enable? && d.key == k && k in s.pollers && d.storeOk
  }

  predicate Disables(s: System, d: Dispatch, k: string) {
    d.Disable? && d.key == k && k in s.pollers && d.storeOk
  }

  /** Not refused, whatever the store says then. */
  predicate Unschedules(s: System, d: Dispatch, k: string) {
    Disables(s, d, k) || (d.Delete? && d.key == k && k in s.pollers && !Running(s, k))
  }

  predicate Deletes(s: System, d: Dispatch, k: string) {
    d.Delete? && d.key == k && k in s.pollers && !Running(s, k) && d.storeOk
  }

  predicate Starts(s: System, d: Dispatch, k: string) {
    Enables(s, d, k) && d.configOk
  }

  predicate Schedules(s: System, d: Dispatch, k: string) {
    (Creates(s, d, k) && d.admin == "enabled" && d.configOk) || Starts(s, d, k)
  }

  // ----- after any dispatches -----

  const Empty: System := System(map[], map[], {})

  function UpTo(ds: seq<Dispatch>, i: nat): System {
    Steps(Empty, if i <= |ds| then ds[..i] else ds)
  }

  lemma {:induction false} StepsSnoc(s: System, ds: seq<Dispatch>, d: Dispatch)
    ensures Steps(s, ds + [d]) == Step(Steps(s, ds), d)
    decreases |ds|
  {
    hide Step;
    if ds == [] {
      assert (ds + [d])[1..] == [];
    } else {
      assert (ds + [d])[1..] == ds[1..] + [d];
      StepsSnoc(Step(s, ds[0]), ds[1..], d);
    }
  }

  /** From the empty system states are stopped or running, and only pollers run. */
  ghost predicate Settled(s: System) {
    RunningIsScheduled(s) && forall k | k in s.states :: s.states[k].oper in {"stopped", "running"}
  }

  lemma StepKeepsSettled(s: System, d: Dispatch)
    requires Settled(s)
    ensures Settled(Step(s, d))
  {
    StepKeepsRunningScheduled(s, d);
  }

  lemma {:induction false} StepsKeepSettled(s: System, ds: seq<Dispatch>)
    requires Settled(s)
    ensures Settled(Steps(s, ds))
    decreases |ds|
  {
    if ds != [] {
      StepKeepsSettled(s, ds[0]);
      StepsKeepSettled(Step(s, ds[0]), ds[1..]);
    }
  }

  lemma UpToNext(ds: seq<Dispatch>, i: nat)
    requires i < |ds|
    ensures UpTo(ds, i + 1) == Step(UpTo(ds, i), ds[i]) && Settled(UpTo(ds, i))
  {
    hide Step;
    assert ds[..i + 1] == ds[..i] + [ds[i]];
    StepsSnoc(Empty, ds[..i], ds[i]);
    StepsKeepSettled(Empty, ds[..i]);
  }

  lemma Ends(ds: seq<Dispatch>)
    ensures UpTo(ds, |ds|) == Steps(Empty, ds) && UpTo(ds, 0) == Empty
    ensures forall k :: !Running(Empty, k)
  {
    assert ds[..|ds|] == ds && ds[..0] == [];
  }

  /** What a dispatch does to a key, in one line each. */
  lemma StepTells(s: System, d: Dispatch, k: string)
    requires Settled(s)
    ensures k in Step(s, d).pollers <==> Creates(s, d, k) || (k in s.pollers && !Deletes(s, d, k))
    ensures k in Step(s, d).scheduled <==> Schedules(s, d, k) || (k in s.scheduled && !Unschedules(s, d, k))
    ensures Running(Step(s, d), k) <==> Starts(s, d, k) || (Running(s, k) && !Disables(s, d, k))
  {
    if k == d.key {
      OwnTells(s, d);
    } else {
      hide Settled;
      OthersStay(s, d);
      hide Step;
    }
  }

  lemma OwnTells(s: System, d: Dispatch)
    requires Settled(s)
    ensures var k := d.key;
            && (k in Step(s, d).pollers <==> Creates(s, d, k) || (k in s.pollers && !Deletes(s, d, k)))
            && (k in Step(s, d).scheduled <==> Schedules(s, d, k) || (k in s.scheduled && !Unschedules(s, d, k)))
            && (Running(Step(s, d), k) <==> Starts(s, d, k) || (Running(s, k) && !Disables(s, d, k)))
  {
    match d
    case Create(k, admin, nameOk, storeOk, configOk) => CreateDoes(s, k, admin, nameOk, storeOk, configOk);
    case Enable(k, storeOk, configOk) => EnableDoes(s, k, storeOk, configOk);
    case Disable(k, storeOk) => DisableDoes(s, k, storeOk);
    case Delete(k, storeOk) => DeleteDoes(s, k, storeOk);
  }

  lemma NextTells(ds: seq<Dispatch>, i: nat, k: string)
    requires i < |ds|
    ensures var s, r, d := UpTo(ds, i), UpTo(ds, i + 1), ds[i];
            && (k in r.pollers <==> Creates(s, d, k) || (k in s.pollers && !Deletes(s, d, k)))
            && (k in r.scheduled <==> Schedules(s, d, k) || (k in s.scheduled && !Unschedules(s, d, k)))
            && (Running(r, k) <==> Starts(s, d, k) || (Running(s, k) && !Disables(s, d, k)))
  {
    UpToNext(ds, i);
    StepTells(UpTo(ds, i), ds[i], k);
  }

  /** There are exactly the pollers that were created and not deleted since. */
  lemma PollersStand(ds: seq<Dispatch>, k: string)
    ensures k in Steps(Empty, ds).pollers <==>
              Stands(|ds|, (i: nat) => i < |ds| && Creates(UpTo(ds, i), ds[i], k),
                     (i: nat) => i < |ds| && Deletes(UpTo(ds, i), ds[i], k))
  {
    Ends(ds);
    hide Step, Steps, UpTo, Creates, Deletes, Schedules, Unschedules, Starts, Disables, Running;
    forall i: nat | i < |ds| {
      NextTells(ds, i, k);
    }
    HoldsIffStands(|ds|, (i: nat) => k in UpTo(ds, i).pollers,
                   (i: nat) => i < |ds| && Creates(UpTo(ds, i), ds[i], k),
                   (i: nat) => i < |ds| && Deletes(UpTo(ds, i), ds[i], k));
  }

  /** Exactly those are scheduled that a successful Enable, or a Create as enabled, put on
      the schedule with a configuration, and no successful Disable and no Delete that was
      not refused has taken off since. */
  lemma ScheduledStand(ds: seq<Dispatch>, k: string)
    ensures k in Steps(Empty, ds).scheduled <==>
              Stands(|ds|, (i: nat) => i < |ds| && Schedules(UpTo(ds, i), ds[i], k),
                     (i: nat) => i < |ds| && Unschedules(UpTo(ds, i), ds[i], k))
  {
    Ends(ds);
    hide Step, Steps, UpTo, Creates, Deletes, Schedules, Unschedules, Starts, Disables, Running;
    forall i: nat | i < |ds| {
      NextTells(ds, i, k);
    }
    HoldsIffStands(|ds|, (i: nat) => k in UpTo(ds, i).scheduled,
                   (i: nat) => i < |ds| && Schedules(UpTo(ds, i), ds[i], k),
                   (i: nat) => i < |ds| && Unschedules(UpTo(ds, i), ds[i], k));
  }

  /** Exactly those run that a successful Enable with a configuration started and no
      successful Disable has stopped since. */
  lemma RunningStand(ds: seq<Dispatch>, k: string)
    ensures Running(Steps(Empty, ds), k) <==>
              Stands(|ds|, (i: nat) => i < |ds| && Starts(UpTo(ds, i), ds[i], k),
                     (i: nat) => i < |ds| && Disables(UpTo(ds, i), ds[i], k))
  {
    Ends(ds);
    hide Step, Steps, UpTo, Creates, Deletes, Schedules, Unschedules, Starts, Disables, Running;
    forall i: nat | i < |ds| {
      NextTells(ds, i, k);
    }
    HoldsIffStands(|ds|, (i: nat) => Running(UpTo(ds, i), k),
                   (i: nat) => i < |ds| && Starts(UpTo(ds, i), ds[i], k),
                   (i: nat) => i < |ds| && Disables(UpTo(ds, i), ds[i], k));
  }
}
