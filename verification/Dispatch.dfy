/** Creating, enabling, disabling and deleting pollers: a dispatch changes the poller
    table, the poller's state and the schedule, one after the other. */
module Dispatching {
  import P = PollerStates

  // ----- a dispatch as a function -----

  datatype PS = PS(admin: string, oper: string)

  /** Keys are namespace/target/name.  `pollers` gives each poller's own admin state,
      `states` the state manager's record, `scheduled` the scheduler's keys. */
  datatype System = System(pollers: map<string, string>, states: map<string, PS>, scheduled: set<string>)

  /** What the store and the configuration resolver answer. */
  datatype Dispatch =
    | Create(key: string, admin: string, nameOk: bool, storeOk: bool, configOk: bool)
    | Enable(key: string, storeOk: bool, configOk: bool)
    | Disable(key: string, storeOk: bool)
    | Delete(key: string, storeOk: bool)

  /** StateManager.Get makes a fresh state for an unknown key. */
  function Touched(s: System, k: string): System {
    if k in s.states then s else s.(states := s.states[k := PS(P.DISABLED, P.STOPPED)])
  }

  function CreateStep(s: System, k: string, admin: string, nameOk: bool, storeOk: bool, configOk: bool): System {
    if k in s.pollers || !nameOk || !storeOk then s
    else
      var a := if admin == "" then P.DISABLED else admin;
      var t := Touched(s.(pollers := s.pollers[k := a]), k);
      t.(states := t.states[k := t.states[k].(admin := a)],
         scheduled := if a == P.ENABLED && configOk then t.scheduled + {k} else t.scheduled)
  }

  function EnableStep(s: System, k: string, storeOk: bool, configOk: bool): System {
    if k !in s.pollers then s
    else
      var s1 := s.(pollers := s.pollers[k := P.ENABLED]);
      if !storeOk then s1
      else
        var t := Touched(s1, k);
        if !configOk then t.(states := t.states[k := t.states[k].(admin := P.ENABLED)])
        else
          var o := P.Started(P.ENABLED, t.states[k].oper);
          t.(states := t.states[k := PS(P.ENABLED, if o == P.STARTING then P.RUNNING else o)],
             scheduled := t.scheduled + {k})
  }

  function DisableStep(s: System, k: string, storeOk: bool): System {
    if k !in s.pollers then s
    else
      var s1 := s.(pollers := s.pollers[k := P.DISABLED]);
      if !storeOk then s1
      else
        s1.(states := s1.states[k := PS(P.DISABLED, P.STOPPED)], scheduled := s1.scheduled - {k})
  }

  /** The handler refuses a running poller; the scheduler is told before the store. */
  function DeleteStep(s: System, k: string, storeOk: bool): System {
    var t := Touched(s, k);
    if t.states[k].oper == P.RUNNING || k !in t.pollers then t
    else
      var u := t.(scheduled := t.scheduled - {k});
      if !storeOk then u else u.(pollers := u.pollers - {k}, states := u.states - {k})
  }

  function Step(s: System, d: Dispatch): System {
    match d
    case Create(k, admin, nameOk, storeOk, configOk) => CreateStep(s, k, admin, nameOk, storeOk, configOk)
    case Enable(k, storeOk, configOk) => EnableStep(s, k, storeOk, configOk)
    case Disable(k, storeOk) => DisableStep(s, k, storeOk)
    case Delete(k, storeOk) => DeleteStep(s, k, storeOk)
  }

  function Steps(s: System, ds: seq<Dispatch>): System
    decreases |ds|
  {
    if ds == [] then s else Steps(Step(s, ds[0]), ds[1..])
  }

  predicate Running(s: System, k: string) {
    k in s.states && s.states[k].oper == P.RUNNING
  }

  /** A running poller exists, its state is admin-enabled, and it is scheduled. */
  ghost predicate RunningIsScheduled(s: System) {
    forall k | Running(s, k) :: k in s.pollers && s.states[k].admin == P.ENABLED && k in s.scheduled
  }

  lemma {:induction false} StepsKeepRunningScheduled(s: System, ds: seq<Dispatch>)
    requires RunningIsScheduled(s)
    ensures RunningIsScheduled(Steps(s, ds))
    decreases |ds|
  {
    if ds != [] {
      StepKeepsRunningScheduled(s, ds[0]);
      StepsKeepRunningScheduled(Step(s, ds[0]), ds[1..]);
    }
  }

  lemma StepKeepsRunningScheduled(s: System, d: Dispatch)
    requires RunningIsScheduled(s)
    ensures RunningIsScheduled(Step(s, d))
  {
    forall k | Running(Step(s, d), k)
      ensures k in Step(s, d).pollers && Step(s, d).states[k].admin == P.ENABLED && k in Step(s, d).scheduled
    {
      if k != d.key {
        assert Running(s, k);
      }
    }
  }

  /** From a system in which nothing runs, whatever the dispatches and whatever the
      store and the resolver answer. */
  lemma RunningImpliesEnabledAndScheduled(s: System, ds: seq<Dispatch>)
    requires forall k :: !Running(s, k)
    ensures RunningIsScheduled(Steps(s, ds))
  {
    StepsKeepRunningScheduled(s, ds);
  }

  /** The poller's own admin state can disagree: a Disable whose store update fails
      has already written it, and leaves the poller running. */
  lemma FailedDisableLeavesRunning(k: string)
    ensures var s0 := System(map[], map[], {});
            var s := Step(Step(Step(s0, Create(k, "", true, true, true)), Enable(k, true, true)), Disable(k, false));
            Running(s, k) && k in s.pollers && s.pollers[k] == P.DISABLED
  {
    var s1 := Step(System(map[], map[], {}), Create(k, "", true, true, true));
    assert s1.states[k] == PS(P.DISABLED, P.STOPPED);
    assert Step(s1, Enable(k, true, true)).states[k].oper == P.RUNNING;
  }

  /** The poller's own admin state agrees too. */
  ghost predicate RunningIsEnabledThroughout(s: System) {
    RunningIsScheduled(s) && forall k | Running(s, k) :: s.pollers[k] == P.ENABLED
  }

  /** One dispatch keeps that agreement exactly if it is not a Disable, with failing
      store, of a running poller. */
  lemma AgreementKeptIff(s: System, d: Dispatch)
    requires RunningIsEnabledThroughout(s)
    ensures RunningIsEnabledThroughout(Step(s, d)) <==>
              !(d.Disable? && !d.storeOk && Running(s, d.key))
  {
    StepKeepsRunningScheduled(s, d);
    if d.Disable? && !d.storeOk && Running(s, d.key) {
      assert Running(Step(s, d), d.key);
    } else {
      forall k | Running(Step(s, d), k)
        ensures Step(s, d).pollers[k] == P.ENABLED
      {
        if k != d.key {
          assert Running(s, k);
        }
      }
    }
  }

  // ----- the dispatcher -----

  lemma EnableStates(s: System, k: string, configOk: bool)
    requires k in s.pollers
    ensures var m := Touched(s, k).states;
            var e := m[k := m[k].(admin := P.ENABLED)];
            var o := P.Started(P.ENABLED, m[k].oper);
            EnableStep(s, k, true, configOk)
            == System(s.pollers[k := P.ENABLED],
                      if configOk then e[k := e[k].(oper := if o == P.STARTING then P.RUNNING else o)] else e,
                      if configOk then s.scheduled + {k} else s.scheduled)
  {
  }

  lemma CreateStates(s: System, k: string, admin: string, configOk: bool)
    requires k !in s.pollers
    ensures var a := if admin == "" then P.DISABLED else admin;
            var m := Touched(s, k).states;
            CreateStep(s, k, admin, true, true, configOk)
            == System(s.pollers[k := a], m[k := m[k].(admin := a)],
                      if a == P.ENABLED && configOk then s.scheduled + {k} else s.scheduled)
  {
  }

  class Dispatcher {
    var pollers: map<string, string>
    var states: map<string, P.PollerState>
    var scheduled: set<string>

    ghost predicate Is(s: System)
      reads this, states.Values
    {
      pollers == s.pollers && scheduled == s.scheduled && StatesAre(s.states)
    }

    ghost predicate StatesAre(m: map<string, PS>)
      reads this`states, states.Values
    {
      && states.Keys == m.Keys
      && forall k {:trigger states[k]} | k in states ::
           states[k].key == k && states[k].adminState == m[k].admin && states[k].operState == m[k].oper
    }

    constructor ()
      ensures Is(System(map[], map[], {}))
    {
      pollers, states, scheduled := map[], map[], {};
    }

    /** StateManager.Get. */
    method StateOf(k: string, ghost s: System) returns (state: P.PollerState)
      requires StatesAre(s.states)
      modifies this`states
      ensures StatesAre(Touched(s, k).states) && k in states && states[k] == state
      ensures k in old(states) ==> states == old(states)
      ensures k !in old(states) ==> fresh(state) && states == old(states)[k := state]
    {
      if k in states {
        return states[k];
      }
      state := new P.PollerState(k);
      states := states[k := state];
    }

    method HandleCreate(k: string, admin: string, nameOk: bool, storeOk: bool, configOk: bool, ghost s: System)
      returns (ok: bool)
      requires Is(s)
      modifies this, states.Values
      ensures Is(CreateStep(s, k, admin, nameOk, storeOk, configOk))
      ensures ok <==> k !in s.pollers && nameOk && storeOk
    {
      ok := k !in pollers && nameOk;
      if !ok {
        return;
      }
      var a := if admin == "" then P.DISABLED else admin;
      if !storeOk {
        return false;
      }
      CreateStates(s, k, admin, configOk);
      hide CreateStep, Touched;
      pollers := pollers[k := a];
      var state := StateOf(k, s);
      Introduce(k, state, a, configOk, Touched(s, k).states);
    }

    /** What follows the store insertion. */
    method Introduce(k: string, state: P.PollerState, a: string, configOk: bool, ghost m: map<string, PS>)
      requires StatesAre(m) && k in states && states[k] == state
      modifies this`scheduled, state`adminState
      ensures scheduled == if a == P.ENABLED && configOk then old(scheduled) + {k} else old(scheduled)
      ensures StatesAre(m[k := m[k].(admin := a)])
    {
      state.adminState := a;
      if a == P.ENABLED && configOk {
        scheduled := scheduled + {k};
      }
    }

    method HandleEnable(k: string, storeOk: bool, configOk: bool, ghost s: System) returns (ok: bool)
      requires Is(s)
      modifies this, states.Values
      ensures Is(EnableStep(s, k, storeOk, configOk))
      ensures ok <==> k in s.pollers && storeOk
    {
      ok := k in pollers;
      if !ok {
        return;
      }
      EnableStates(s, k, configOk);
      pollers := pollers[k := P.ENABLED];
      if !storeOk {
        return false;
      }
      hide EnableStep, Touched, P.Started;
      var state := StateOf(k, s);
      Activate(k, state, configOk, Touched(s, k).states);
    }

    /** What follows the store update: the state is enabled and, with a configuration,
        started once the scheduler has the key. */
    method Activate(k: string, state: P.PollerState, configOk: bool, ghost m: map<string, PS>)
      requires StatesAre(m) && k in states && states[k] == state
      modifies this`scheduled, state
      ensures scheduled == if configOk then old(scheduled) + {k} else old(scheduled)
      ensures var e := m[k := m[k].(admin := P.ENABLED)];
              var o := P.Started(P.ENABLED, m[k].oper);
              StatesAre(if configOk then e[k := e[k].(oper := if o == P.STARTING then P.RUNNING else o)] else e)
    {
      MarkEnabled(k, state, m);
      if !configOk {
        return;
      }
      scheduled := scheduled + {k};
      MarkStarted(k, state, m[k := m[k].(admin := P.ENABLED)]);
    }

    method MarkEnabled(k: string, state: P.PollerState, ghost m: map<string, PS>)
      requires StatesAre(m) && k in states && states[k] == state
      modifies state
      ensures StatesAre(m[k := m[k].(admin := P.ENABLED)])
    {
      state.Enable();
    }

    /** Start and MarkRunning. */
    method MarkStarted(k: string, state: P.PollerState, ghost m: map<string, PS>)
      requires StatesAre(m) && k in states && states[k] == state
      modifies state
      ensures var o := P.Started(m[k].admin, m[k].oper);
              StatesAre(m[k := m[k].(oper := if o == P.STARTING then P.RUNNING else o)])
    {
      var _ := state.Start();
      state.MarkRunning();
    }

    method HandleDisable(k: string, storeOk: bool, ghost s: System) returns (ok: bool)
      requires Is(s)
      modifies this, states.Values
      ensures Is(DisableStep(s, k, storeOk))
      ensures ok <==> k in s.pollers && storeOk
      ensures ok ==> k !in scheduled && k in states && states[k].adminState == "disabled" && states[k].operState == "stopped"
    {
      ok := k in pollers;
      if !ok {
        return;
      }
      pollers := pollers[k := P.DISABLED];
      if !storeOk {
        return false;
      }
      var state := StateOf(k, s);
      MarkDisabled(k, state, Touched(s, k).states);
      scheduled := scheduled - {k};
      assert Touched(s, k).states[k := PS(P.DISABLED, P.STOPPED)] == s.states[k := PS(P.DISABLED, P.STOPPED)];
    }

    /** Disable, Stop and MarkStopped. */
    method MarkDisabled(k: string, state: P.PollerState, ghost m: map<string, PS>)
      requires StatesAre(m) && k in states && states[k] == state
      modifies state
      ensures StatesAre(m[k := PS(P.DISABLED, P.STOPPED)])
    {
      state.Disable();
      var _ := state.Stop();
      state.MarkStopped();
    }

    method HandleDelete(k: string, storeOk: bool, ghost s: System) returns (ok: bool)
      requires Is(s)
      modifies this, states.Values
      ensures Is(DeleteStep(s, k, storeOk))
      ensures ok <==> !Running(s, k) && k in s.pollers && storeOk
      ensures ok ==> k !in pollers && k !in scheduled && k !in states
    {
      var state := StateOf(k, s);
      if state.operState == P.RUNNING {
        return false;
      }
      if k !in pollers {
        return false;
      }
      scheduled := scheduled - {k};
      if !storeOk {
        return false;
      }
      pollers := pollers - {k};
      states := states - {k};
      return true;
    }
  }
}
