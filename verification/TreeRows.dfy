/** What the operations on targets, pollers and links do to the rows, told from the rows
    themselves; and which rows there are after a run. */
module TreeRows {
  import opened Text
  import opened Paths
  import opened Likes
  import opened TreeModel
  import opened Histories

  // ----- deletions -----

  /** Exactly these links go; every other node stays as it is. */
  ghost predicate LinksGo(r: Rows, s: Rows, goes: string -> bool) {
    && (forall q :: q in s.nodes <==> q in r.nodes && !(r.nodes[q].Link? && goes(r.nodes[q].ref)))
    && (forall q | q in s.nodes :: q in r.nodes && s.nodes[q] == r.nodes[q])
  }

  /** Of the rows about pollers exactly these go. */
  ghost predicate PollersGo(r: Rows, s: Rows, goes: PollerName -> bool) {
    && (forall x :: x in s.pollers <==> x in r.pollers && !goes(x))
    && (forall x :: x in s.states <==> x in r.states && !goes(x))
    && (forall x :: x in s.stats <==> x in r.stats && !goes(x))
  }

  ghost predicate HasPollers(r: Rows, t: string) {
    exists x :: x in r.pollers && x.0 == t
  }

  /** A target goes with its pollers and the links to them, and nothing else does; while
      it has pollers, only by force. */
  lemma DeleteTargetTakes(r: Rows, t: string, force: bool)
    ensures var s := Next(r, DeleteTarget(t, force));
            if HasPollers(r, t) && !force then s == r
            else
              && (forall u :: u in s.targets <==> u in r.targets && u != t)
              && PollersGo(r, s, (x: PollerName) => x.0 == t)
              && LinksGo(r, s, ref => ref == "target:" + t || Like(ref, "poller:" + t + "/" + "%"))
  {
    hide Like;
  }

  /** No link is left that leads to it or to one of its pollers. */
  lemma NoLinkIsLeft(r: Rows, t: string, force: bool, q: string)
    requires force || !HasPollers(r, t)
    requires q in Next(r, DeleteTarget(t, force)).nodes && Next(r, DeleteTarget(t, force)).nodes[q].Link?
    ensures var to := ParseLinkRef(Next(r, DeleteTarget(t, force)).nodes[q].ref);
            !(to.Target? && to.target == t) && !(to.Poller? && to.target == t)
  {
    hide Like, ParseLinkRef;
    DeleteTargetTakes(r, t, force);
    OwnLinksAreTaken(r.nodes[q].ref, t);
  }

  lemma DeletePollerTakes(r: Rows, t: string, p: string)
    ensures var s := Next(r, DeletePoller(t, p));
            && s.targets == r.targets
            && PollersGo(r, s, (x: PollerName) => x == (t, p))
            && LinksGo(r, s, ref => ref == "poller:" + t + "/" + p)
  {
  }

  /** Deleting the links to a target, to a poller, and to both: no row but theirs goes. */
  lemma UnlinkTakes(r: Rows, t: string, p: string)
    ensures var s := Next(r, UnlinkTarget(t)); s == r.(nodes := s.nodes) && LinksGo(r, s, ref => ref == "target:" + t)
    ensures var s := Next(r, UnlinkPoller(t, p));
            s == r.(nodes := s.nodes) && LinksGo(r, s, ref => ref == "poller:" + t + "/" + p)
    ensures var s := Next(r, UnlinkUnder(t));
            && s == r.(nodes := s.nodes)
            && LinksGo(r, s, ref => ref == "target:" + t || Like(ref, "poller:" + t + "/" + "%"))
  {
    hide Like;
  }

  /** A reference is selected by its text exactly if that is what it leads to. */
  lemma SelectedIsLed(ref: string, t: string, p: string)
    requires SlashFree(t)
    ensures ref == "target:" + t <==> ParseLinkRef(ref) == Target(t)
    ensures ref == "poller:" + t + "/" + p <==> ParseLinkRef(ref) == Poller(t, p)
  {
    if ref == "target:" + t {
      assert ref[7..] == t && "target:" <= ref;
    }
    if ParseLinkRef(ref) == Target(t) {
      assert ref == ref[..7] + ref[7..];
    }
    if ref == "poller:" + t + "/" + p {
      PollerRefParses(t, p);
    }
    if ParseLinkRef(ref) == Poller(t, p) {
      PollerRef(ref);
    }
  }

  /** A poller comes with its state row and its stats row, or not at all. */
  lemma CreatePollerPuts(r: Rows, t: string, p: string)
    ensures var s := Next(r, Step.CreatePoller(t, p));
            var x := (t, p);
            if x in r.pollers || x in r.states || x in r.stats then s == r
            else
              && s.targets == r.targets && s.nodes == r.nodes
              && (forall y :: y in s.pollers <==> y == x || y in r.pollers)
              && (forall y :: y in s.states <==> y == x || y in r.states)
              && (forall y :: y in s.stats <==> y == x || y in r.stats)
  {
  }

  /** A namespace goes with everything in it; while it has targets, only by force. */
  lemma DeleteNamespaceTakes(r: Rows, force: bool)
    ensures var s := Next(r, DeleteNamespace(force));
            if r.targets != {} && !force then s == r
            else s.targets == {} && s.pollers == {} && s.states == {} && s.stats == {} && s.nodes == map[]
  {
  }

  // ----- nodes -----

  /** Making a directory makes it, with its description, and the missing ones above, with
      none; every node there stays as it is. */
  lemma MakeDirectoryMakes(r: Rows, path: string, d: string)
    ensures var s := Next(r, MakeDirectory(path, d));
            var n := Normalized(path);
            && s == r.(nodes := s.nodes)
            && (forall q :: q in s.nodes <==> q in r.nodes || OnTheWay(q, n))
            && (forall q | q in r.nodes :: s.nodes[q] == r.nodes[q])
            && (forall q | q in s.nodes && q !in r.nodes :: s.nodes[q] == Directory(if q == n then d else ""))
  {
    OnTheWayIff(Normalized(path));
    hide Normalized, Segments, Ancestor;
  }

  /** The path itself, if it is not the root, or one above it that is not. */
  ghost predicate OnTheWay(q: string, n: string)
    requires n != ""
  {
    exists i: nat :: 1 <= i <= |Segments(n)| && q == Path(Segments(n)[..i])
  }

  lemma OnTheWayIff(n: string)
    requires n != ""
    ensures forall q :: q in Ancestors(n) <==> OnTheWay(q, n)
  {
    forall q ensures q in Ancestors(n) <==> OnTheWay(q, n) {
      if i: nat :| 1 <= i <= |Segments(n)| && q == Path(Segments(n)[..i]) {
        assert q == Ancestor(n, i);
      }
    }
  }

  /** A link is made exactly if what it refers to exists and its path is free once the
      directories are made; then it is of its kind and leads there. */
  lemma MakeLinkMakes(r: Rows, path: string, name: string, kind: string, ref: string)
    ensures var s := Next(r, MakeLink(path, name, kind, ref));
            var m := Next(r, MakeDirectory(path, ""));
            var full := JoinPath(Normalized(path), name);
            var made := RefersTo(r, kind, ref) && full !in m.nodes;
            && s == r.(nodes := s.nodes)
            && (forall q :: q in s.nodes <==> q in m.nodes || (made && q == full))
            && (forall q | q in m.nodes :: s.nodes[q] == m.nodes[q])
            && (made ==> s.nodes[full].Link? && s.nodes[full].ref == kind + ":" + ref
                         && s.nodes[full].kind == if kind == "target" then "link_target" else "link_poller")
  {
    hide Normalized, JoinPath, WithDirectories, SplitN;
    RefersToIff(r, kind, ref);
  }

  /** It names a target, or a target and a poller of it. */
  ghost predicate RefersTo(r: Rows, kind: string, ref: string) {
    || (kind == "target" && ref in r.targets)
    || (kind == "poller" && exists t, p :: SlashFree(t) && ref == t + "/" + p && (t, p) in r.pollers)
  }

  lemma RefersToIff(r: Rows, kind: string, ref: string)
    ensures RefExists(r, kind, ref) <==> RefersTo(r, kind, ref)
  {
    if kind == "poller" {
      if RefExists(r, kind, ref) {
        TwoParts(ref);
        assert SlashFree(SplitN(ref, 2)[0]);
      }
      if t, p :| SlashFree(t) && ref == t + "/" + p && (t, p) in r.pollers {
        TwoPartsOf(t, p);
      }
    }
  }

  /** A node goes, or with `recursive` all that its pattern selects, or nothing when it has
      children and neither that nor force is asked for. */
  lemma DeleteNodeTakes(r: Rows, path: string, recursive: bool, force: bool)
    ensures var s := Next(r, DeleteNode(path, recursive, force));
            var n := Normalized(path);
            && s == r.(nodes := s.nodes)
            && (!recursive && !force && HasChildren(r, n) ==> s == r)
            && (recursive || force || !HasChildren(r, n) ==>
                  && (forall q :: q in s.nodes <==> q in r.nodes && q != n && !(recursive && Like(q, n + "/" + "%")))
                  && (forall q | q in s.nodes :: s.nodes[q] == r.nodes[q]))
  {
    hide Like, Normalized;
  }

  // ----- which rows there are -----

  ghost function UpTo(steps: seq<Step>, i: nat): Rows {
    Run(Empty, if i <= |steps| then steps[..i] else steps)
  }

  lemma {:induction false} RunSnoc(r: Rows, steps: seq<Step>, step: Step)
    ensures Run(r, steps + [step]) == Next(Run(r, steps), step)
    decreases |steps|
  {
    hide Next;
    if steps == [] {
      assert (steps + [step])[1..] == [];
    } else {
      assert (steps + [step])[1..] == steps[1..] + [step];
      RunSnoc(Next(r, steps[0]), steps[1..], step);
    }
  }

  lemma UpToNext(steps: seq<Step>, i: nat)
    requires i < |steps|
    ensures UpTo(steps, i + 1) == Next(UpTo(steps, i), steps[i])
    ensures RowsMatch(UpTo(steps, i))
  {
    hide Next;
    assert steps[..i + 1] == steps[..i] + [steps[i]];
    RunSnoc(Empty, steps[..i], steps[i]);
    EveryLinkLeads(steps[..i]);
  }

  /** The call deletes the target, itself or with its namespace. */
  ghost predicate TakesTarget(r: Rows, step: Step, t: string) {
    || (step.DeleteTarget? && step.t == t && (step.force || !HasPollers(r, t)))
    || (step.DeleteNamespace? && (step.force || r.targets == {}))
  }

  /** The call deletes the poller, itself or with its target or namespace. */
  ghost predicate TakesPoller(r: Rows, step: Step, x: PollerName) {
    || (step.DeletePoller? && step.t == x.0 && step.p == x.1)
    || (step.DeleteTarget? && step.t == x.0 && (step.force || !HasPollers(r, x.0)))
    || (step.DeleteNamespace? && (step.force || r.targets == {}))
  }

  /** There are exactly the targets that were created and not deleted since, by
      themselves or with their namespace. */
  lemma TargetsStand(steps: seq<Step>, t: string)
    ensures t in Run(Empty, steps).targets <==>
              Stands(|steps|, (i: nat) => i < |steps| && steps[i] == Step.CreateTarget(t),
                     (i: nat) => i < |steps| && TakesTarget(UpTo(steps, i), steps[i], t))
  {
    forall i: nat | i < |steps|
      ensures t in UpTo(steps, i + 1).targets <==>
                steps[i] == Step.CreateTarget(t)
                || (t in UpTo(steps, i).targets && !TakesTarget(UpTo(steps, i), steps[i], t))
    {
      UpToNext(steps, i);
      TargetAfter(UpTo(steps, i), steps[i], t);
    }
    hide Next, TakesTarget;
    assert UpTo(steps, |steps|) == Run(Empty, steps) by { assert steps[..|steps|] == steps; }
    HoldsIffStands(|steps|, (i: nat) => t in UpTo(steps, i).targets,
                   (i: nat) => i < |steps| && steps[i] == Step.CreateTarget(t),
                   (i: nat) => i < |steps| && TakesTarget(UpTo(steps, i), steps[i], t));
  }

  lemma TargetAfter(r: Rows, step: Step, t: string)
    ensures t in Next(r, step).targets <==> step == Step.CreateTarget(t) || (t in r.targets && !TakesTarget(r, step, t))
  {
    hide Without, WithDirectories, Normalized, JoinPath, WithoutSelected, RefExists;
  }

  lemma PollerAfter(r: Rows, step: Step, x: PollerName)
    requires RowsMatch(r)
    ensures x in Next(r, step).pollers <==>
              step == Step.CreatePoller(x.0, x.1) || (x in r.pollers && !TakesPoller(r, step, x))
  {
    hide Without, WithDirectories, Normalized, JoinPath, WithoutSelected, RefExists;
  }

  /** And exactly such pollers, each with its state row and its stats row. */
  lemma PollersStand(steps: seq<Step>, x: PollerName)
    ensures x in Run(Empty, steps).pollers <==>
              Stands(|steps|, (i: nat) => i < |steps| && steps[i] == Step.CreatePoller(x.0, x.1),
                     (i: nat) => i < |steps| && TakesPoller(UpTo(steps, i), steps[i], x))
    ensures var r := Run(Empty, steps); x in r.states <==> x in r.pollers
    ensures var r := Run(Empty, steps); x in r.stats <==> x in r.pollers
  {
    forall i: nat | i < |steps|
      ensures x in UpTo(steps, i + 1).pollers <==>
                steps[i] == Step.CreatePoller(x.0, x.1)
                || (x in UpTo(steps, i).pollers && !TakesPoller(UpTo(steps, i), steps[i], x))
    {
      UpToNext(steps, i);
      PollerAfter(UpTo(steps, i), steps[i], x);
    }
    EveryLinkLeads(steps);
    hide Next, TakesPoller;
    assert UpTo(steps, |steps|) == Run(Empty, steps) by { assert steps[..|steps|] == steps; }
    HoldsIffStands(|steps|, (i: nat) => x in UpTo(steps, i).pollers,
                   (i: nat) => i < |steps| && steps[i] == Step.CreatePoller(x.0, x.1),
                   (i: nat) => i < |steps| && TakesPoller(UpTo(steps, i), steps[i], x));
  }
}
