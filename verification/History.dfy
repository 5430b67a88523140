/** What holds after a run, told from the steps that bring it about and end it. */
module Histories {

  /** Some step brings it about and no later one ends it. */
  ghost predicate Stands(n: nat, puts: nat -> bool, takes: nat -> bool) {
    exists i: nat :: i < n && puts(i) && LeftAlone(n, i, takes)
  }

  ghost predicate LeftAlone(n: nat, i: nat, takes: nat -> bool) {
    forall j: nat | i < j < n :: !takes(j)
  }

  /** What each step brings about, or leaves alone when it held before, holds after the
      run exactly if some step brought it about and no later one ended it. */
  lemma {:induction false} HoldsIffStands(n: nat, holds: nat -> bool, puts: nat -> bool, takes: nat -> bool)
    requires !holds(0)
    requires forall i: nat | i < n :: holds(i + 1) <==> puts(i) || (holds(i) && !takes(i))
    ensures holds(n) <==> Stands(n, puts, takes)
  {
    if n > 0 {
      var m := n - 1;
      HoldsIffStands(m, holds, puts, takes);
      assert holds(m + 1) <==> puts(m) || (holds(m) && !takes(m));
      if puts(m) {
        assert LeftAlone(n, m, takes);
      } else if holds(m) && !takes(m) {
        var i: nat :| i < m && puts(i) && LeftAlone(m, i, takes);
        assert LeftAlone(n, i, takes);
      } else if i: nat :| i < n && puts(i) && LeftAlone(n, i, takes) {
        assert i < m && LeftAlone(m, i, takes);
      }
    }
  }
}
