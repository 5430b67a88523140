/** A poller's admin, oper and health states. */
module PollerStates {

  const ENABLED := "enabled"
  const DISABLED := "disabled"
  const STOPPED := "stopped"
  const STARTING := "starting"
  const RUNNING := "running"
  const STOPPING := "stopping"
  const ERROR := "error"

  datatype HealthState = Unknown | Up | Degraded | Down

  const DEGRADED_THRESHOLD: nat := 3
  const DOWN_THRESHOLD: nat := 5
  const RECOVERY_COUNT: nat := 2

  // ----- health as a function of the poll results -----

  datatype Health = Health(state: HealthState, failures: nat, successes: nat)

  /** RecordPollResult's effect on the health fields. */
  function Record(h: Health, success: bool): Health {
    if success then
      Health(if h.state.Down? && h.successes + 1 < RECOVERY_COUNT then Down else Up, 0, h.successes + 1)
    else
      Health(if h.failures + 1 >= DOWN_THRESHOLD then Down
             else if h.failures + 1 >= DEGRADED_THRESHOLD then Degraded
             else h.state,
             h.failures + 1, 0)
  }

  /** The health of a fresh poller after these results. */
  function After(results: seq<bool>): Health {
    if results == [] then Health(Unknown, 0, 0)
    else Record(After(results[..|results| - 1]), results[|results| - 1])
  }

  /** The length of the run of r at the end. */
  function TrailingRun(results: seq<bool>, r: bool): (n: nat)
    ensures n <= |results|
    ensures forall i | |results| - n <= i < |results| :: results[i] == r
    ensures n < |results| ==> results[|results| - n - 1] != r
  {
    if results == [] || results[|results| - 1] != r then 0 else 1 + TrailingRun(results[..|results| - 1], r)
  }

  /** The counters are the trailing runs. */
  lemma {:induction false} CountersAreRuns(results: seq<bool>)
    ensures After(results).failures == TrailingRun(results, false)
    ensures After(results).successes == TrailingRun(results, true)
  {
    if results != [] {
      CountersAreRuns(results[..|results| - 1]);
    }
  }

  /** The results before the failures at the end. */
  function BeforeFailures(results: seq<bool>): (g: seq<bool>)
    ensures |g| <= |results| && g == results[..|g|]
    ensures g != [] ==> g[|g| - 1]
  {
    results[..|results| - TrailingRun(results, false)]
  }

  /** What the health ought to be, said of the results alone: five failures at the end
      mean Down, three or four Degraded; otherwise what counts is what came before
      those failures: nothing is Unknown; a single success after a Down is still
      Down; anything else is Up. */
  function Expected(results: seq<bool>): HealthState
    decreases |results|
  {
    var f := TrailingRun(results, false);
    var g := BeforeFailures(results);
    if f >= 5 then Down
    else if f >= 3 then Degraded
    else if g == [] then Unknown
    else if TrailingRun(g, true) == 1 && Expected(g[..|g| - 1]) == Down then Down
    else Up
  }

  lemma FailureSnoc(pre: seq<bool>)
    ensures TrailingRun(pre + [false], false) == 1 + TrailingRun(pre, false)
    ensures BeforeFailures(pre + [false]) == BeforeFailures(pre)
  {
    assert (pre + [false])[..|pre|] == pre;
  }

  lemma SuccessSnoc(pre: seq<bool>)
    ensures TrailingRun(pre + [true], false) == 0
    ensures BeforeFailures(pre + [true]) == pre + [true]
    ensures TrailingRun(pre + [true], true) == 1 + TrailingRun(pre, true)
  {
    assert (pre + [true])[..|pre|] == pre;
  }

  lemma ExpectedAfterSuccess(pre: seq<bool>)
    ensures Expected(pre + [true]) == if TrailingRun(pre, true) == 0 && Expected(pre) == Down then Down else Up
  {
    SuccessSnoc(pre);
    assert (pre + [true])[..|pre|] == pre;
    hide TrailingRun, BeforeFailures;
  }

  lemma ExpectedAfterFailure(pre: seq<bool>)
    ensures var f := TrailingRun(pre, false) + 1;
            Expected(pre + [false]) == if f >= 5 then Down else if f >= 3 then Degraded else Expected(pre)
  {
    FailureSnoc(pre);
    hide TrailingRun, BeforeFailures;
  }

  lemma {:induction false} HealthIsExpected(results: seq<bool>)
    ensures After(results).state == Expected(results)
    decreases |results|
  {
    if results == [] {
      return;
    }
    hide Expected, TrailingRun, BeforeFailures;
    var n := |results| - 1;
    var pre := results[..n];
    HealthIsExpected(pre);
    CountersAreRuns(pre);
    assert results == pre + [results[n]];
    if results[n] {
      ExpectedAfterSuccess(pre);
    } else {
      ExpectedAfterFailure(pre);
    }
  }

  /** When each state holds. */
  lemma HealthByRuns(results: seq<bool>)
    ensures After(results).state == Degraded <==> 3 <= TrailingRun(results, false) <= 4
    ensures TrailingRun(results, false) >= 5 ==> After(results).state == Down
    ensures After(results).state == Unknown <==> true !in results && |results| < 3
  {
    HealthIsExpected(results);
    var f := TrailingRun(results, false);
    if f < |results| {
      assert results[|results| - f - 1];
    } else {
      assert forall i | 0 <= i < |results| :: !results[i];
    }
  }

  /** Down is left only for Up, by the second of two successes in a row, or for
      Degraded, by the third failure after a single success. */
  lemma DownIsLeftTwoWays(results: seq<bool>, r: bool)
    requires After(results).state == Down && After(results + [r]).state != Down
    ensures r ==> After(results + [r]).state == Up && TrailingRun(results + [r], true) == 2
    ensures !r ==>
      && After(results + [r]).state == Degraded
      && TrailingRun(results + [r], false) == 3
      && TrailingRun(BeforeFailures(results), true) == 1
      && Expected(BeforeFailures(results)[..|BeforeFailures(results)| - 1]) == Down
  {
    var next := results + [r];
    assert next[..|results|] == results;
    HealthIsExpected(results);
    CountersAreRuns(results);
    if r {
      SuccessSnoc(results);
      DownHasAtMostOneSuccess(results);
    } else {
      FailureSnoc(results);
    }
  }

  lemma DownHasAtMostOneSuccess(results: seq<bool>)
    requires Expected(results) == Down
    ensures TrailingRun(results, true) <= 1
  {
    if TrailingRun(results, true) > 0 {
      assert BeforeFailures(results) == results;
    }
  }

  // ----- the state object -----

  class PollerState {
    const key: string // namespace/target/name
    var adminState: string
    var operState: string
    var health: HealthState
    var lastError: string
    var consecutiveFailures: nat
    var recentSuccesses: nat
    var dirty: bool

    function CurrentHealth(): Health
      reads this
    {
      Health(health, consecutiveFailures, recentSuccesses)
    }

    constructor (key: string)
      ensures this.key == key
      ensures adminState == DISABLED && operState == STOPPED && CurrentHealth() == After([])
      ensures lastError == "" && !dirty
    {
      this.key := key;
      adminState, operState, health := DISABLED, STOPPED, Unknown;
      lastError, consecutiveFailures, recentSuccesses, dirty := "", 0, 0, false;
    }

    method Enable()
      modifies this`adminState, this`dirty
      ensures adminState == ENABLED && dirty
    {
      adminState := ENABLED;
      dirty := true;
    }

    method Disable()
      modifies this`adminState, this`dirty
      ensures adminState == DISABLED && dirty
    {
      adminState := DISABLED;
      dirty := true;
    }

    method Start() returns (ok: bool)
      modifies this`operState, this`dirty
      ensures operState == Started(adminState, old(operState))
      ensures adminState == "enabled" && old(operState) in {"stopped", "error"} ==> operState == "starting"
      ensures adminState != "enabled" || old(operState) !in {"stopped", "error"} ==> operState == old(operState)
      ensures ok <==> adminState == ENABLED && operState in {STARTING, RUNNING}
      ensures dirty == (old(dirty) || operState != old(operState))
    {
      if adminState != ENABLED {
        return false;
      }
      if operState == STOPPED || operState == ERROR {
        operState := STARTING;
        dirty := true;
        return true;
      }
      return operState == STARTING || operState == RUNNING;
    }

    method MarkRunning()
      modifies this`operState, this`dirty
      ensures operState == if old(operState) == STARTING then RUNNING else old(operState)
      ensures dirty == (old(dirty) || operState != old(operState))
    {
      if operState == STARTING {
        operState := RUNNING;
        dirty := true;
      }
    }

    method Stop() returns (ok: bool)
      modifies this`operState, this`dirty
      ensures operState == Stopped(old(operState))
      ensures old(operState) in {"running", "starting"} ==> operState == "stopping"
      ensures old(operState) == "error" ==> operState == "stopped"
      ensures old(operState) !in {"running", "starting", "error"} ==> operState == old(operState)
      ensures ok <==> old(operState) in {RUNNING, STARTING, STOPPED, STOPPING, ERROR}
      ensures dirty == (old(dirty) || operState != old(operState))
    {
      if operState == RUNNING || operState == STARTING {
        operState := STOPPING;
        dirty := true;
        return true;
      }
      if operState == STOPPED || operState == STOPPING {
        return true;
      }
      if operState == ERROR {
        operState := STOPPED;
        dirty := true;
        return true;
      }
      return false;
    }

    method MarkStopped()
      modifies this`operState, this`dirty
      ensures operState == STOPPED && dirty
    {
      operState := STOPPED;
      dirty := true;
    }

    method MarkError(error: string)
      modifies this`operState, this`lastError, this`dirty
      ensures operState == ERROR && lastError == error && dirty
    {
      operState, lastError, dirty := ERROR, error, true;
    }

    /** The health machine, as the program branches. */
    method RecordPollResult(success: bool, pollErr: string)
      modifies this`health, this`lastError, this`consecutiveFailures, this`recentSuccesses, this`dirty
      ensures CurrentHealth() == Record(old(CurrentHealth()), success)
      ensures lastError == (if success then "" else pollErr) && dirty
    {
      if success {
        consecutiveFailures := 0;
        recentSuccesses := recentSuccesses + 1;
        lastError := "";
        match health
        case Down =>
          if recentSuccesses >= RECOVERY_COUNT {
            health := Up;
          }
        case Degraded => health := Up;
        case _ => health := Up;
      } else {
        consecutiveFailures := consecutiveFailures + 1;
        recentSuccesses := 0;
        lastError := pollErr;
        if consecutiveFailures >= DOWN_THRESHOLD {
          health := Down;
        } else if consecutiveFailures >= DEGRADED_THRESHOLD {
          health := Degraded;
        }
      }
      dirty := true;
    }
  }

  function Started(admin: string, oper: string): string {
    if admin == ENABLED && (oper == STOPPED || oper == ERROR) then STARTING else oper
  }

  /** The calls that change the oper state, with the admin state that Start meets. */
  datatype Call = Start(admin: string) | MarkRunning | Stop | MarkStopped | MarkError

  function Called(oper: string, call: Call): string {
    match call
    case Start(admin) => Started(admin, oper)
    case MarkRunning => if oper == STARTING then RUNNING else oper
    case Stop => Stopped(oper)
    case MarkStopped => STOPPED
    case MarkError => ERROR
  }

  function OperAfter(calls: seq<Call>): string {
    if calls == [] then STOPPED else Called(OperAfter(calls[..|calls| - 1]), calls[|calls| - 1])
  }

  /** The call ends whatever started before. */
  predicate Ends(call: Call) {
    call.Stop? || call.MarkStopped? || call.MarkError?
  }

  /** A Start that finds the poller enabled, and since it no call that ends it. */
  ghost predicate StartedAt(calls: seq<Call>, i: nat) {
    i < |calls| && calls[i] == Start("enabled") && forall j | i < j < |calls| :: !Ends(calls[j])
  }

  lemma ShorterStarted(calls: seq<Call>, i: nat)
    requires calls != [] && i < |calls| - 1
    ensures StartedAt(calls, i) <==> StartedAt(calls[..|calls| - 1], i) && !Ends(calls[|calls| - 1])
  {
    var pre := calls[..|calls| - 1];
    assert forall j | 0 <= j < |pre| :: pre[j] == calls[j];
  }

  /** From a new state on: a poller that is starting or running was started while it was
      enabled, and neither stopped nor marked failed since; and one that was is starting or
      running, unless that Start met it still stopping. */
  lemma {:induction false} StartedIsOn(calls: seq<Call>)
    ensures OperAfter(calls) in {"stopped", "starting", "running", "stopping", "error"}
    ensures OperAfter(calls) in {"starting", "running"} ==> exists i: nat :: StartedAt(calls, i)
    ensures (exists i: nat :: StartedAt(calls, i)) ==> OperAfter(calls) in {"starting", "running", "stopping"}
  {
    if calls != [] {
      var n := |calls| - 1;
      StartedIsOn(calls[..n]);
      if OperAfter(calls[..n]) in {"starting", "running"} {
        var i: nat :| StartedAt(calls[..n], i);
        ShorterStarted(calls, i);
      }
      if calls[n] == Start("enabled") {
        assert StartedAt(calls, n);
      }
      if i: nat :| i < n && StartedAt(calls, i) {
        ShorterStarted(calls, i);
      }
    }
  }

  /** What each call makes of it. */
  lemma OneMoreCall(calls: seq<Call>)
    ensures OperAfter(calls + [MarkRunning]) == "running" <==> OperAfter(calls) in {"starting", "running"}
    ensures OperAfter(calls + [Stop]) == "stopping" <==> OperAfter(calls) in {"starting", "running", "stopping"}
    ensures OperAfter(calls + [Stop]) == "stopped" <==> OperAfter(calls) in {"error", "stopped"}
    ensures OperAfter(calls + [MarkStopped]) == "stopped" && OperAfter(calls + [MarkError]) == "error"
    ensures OperAfter(calls + [Start("enabled")]) == "starting" <==> OperAfter(calls) in {"starting", "stopped", "error"}
    ensures forall admin :: admin != "enabled" ==> OperAfter(calls + [Start(admin)]) == OperAfter(calls)
  {
    StartedIsOn(calls);
    forall c: Call ensures OperAfter(calls + [c]) == Called(OperAfter(calls), c) {
      assert (calls + [c])[..|calls|] == calls;
    }
  }

  function Stopped(oper: string): string {
    if oper == RUNNING || oper == STARTING then STOPPING
    else if oper == ERROR then STOPPED
    else oper
  }
}
