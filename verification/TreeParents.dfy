/** The shape of the tree: every node below the top level has its parent directory. */
module TreeParents {
  import opened Text
  import opened Paths
  import opened Likes
  import opened TreeModel

  function Parent(q: string): string
    requires q != "" && Segments(q) != []
  {
    Ancestor(q, |Segments(q)| - 1)
  }

  ghost predicate IsDirectory(nodes: map<string, Node>, q: string) {
    q in nodes && nodes[q].Directory?
  }

  ghost predicate IsLink(nodes: map<string, Node>, q: string) {
    q in nodes && nodes[q].Link?
  }

  ghost predicate HasParent(nodes: map<string, Node>, q: string) {
    Canonical(q) && q != "/" && (|Segments(q)| > 1 ==> IsDirectory(nodes, Parent(q)))
  }

  ghost predicate Nested(nodes: map<string, Node>) {
    forall q | q in nodes :: HasParent(nodes, q)
  }

  // ----- paths and their parents -----

  lemma ParentAndName(q: string)
    requires Canonical(q) && q != "/"
    ensures Segments(q) != []
    ensures var n := |Segments(q)| - 1;
            q == (if n == 0 then "" else Parent(q)) + "/" + Segments(q)[n]
  {
    CanonicalIsPath(q);
    PathParts(Segments(q));
  }

  lemma PathParts(segs: seq<string>)
    requires PlainSegments(segs)
    ensures segs == [] ==> Path(segs) == "/"
    ensures segs != [] ==>
              var n := |segs| - 1;
              Path(segs) == (if n == 0 then "" else Path(segs[..n])) + "/" + segs[n]
  {
    if segs != [] {
      var n := |segs| - 1;
      PathSnoc(segs[..n], segs[n]);
      assert segs[..n] + [segs[n]] == segs;
    }
  }

  lemma AncestorIsCanonical(q: string, i: nat)
    requires Canonical(q) && i <= |Segments(q)|
    ensures Canonical(Ancestor(q, i)) && Segments(Ancestor(q, i)) == Segments(q)[..i]
    ensures i > 0 ==> Ancestor(q, i) != "/"
    ensures i > 1 ==> Parent(Ancestor(q, i)) == Ancestor(q, i - 1)
  {
    hide Split, Join;
    var segs := Segments(q);
    var up := segs[..i];
    assert PlainSegments(up);
    hide PlainSegments, PlainSegment;
    PathIsCanonical(up);
    hide Canonical, Segments, Path;
    assert i > 1 ==> up[..i - 1] == segs[..i - 1];
  }

  /** The program's test finds exactly the nodes whose parent the path is. */
  lemma DirectChildIff(p: string, c: string)
    requires Canonical(p) && Canonical(c) && c != "/"
    ensures Segments(c) != [] && (IsDirectChild(p, c) <==> Parent(c) == p)
  {
    NormalizeCanonical(p);
    NormalizeCanonical(c);
    ParentAndName(c);
    hide Normalize;
    if p == "/" {
      TopLevelIff(c);
    } else {
      BelowIff(p, c);
    }
  }

  lemma TopLevelIff(c: string)
    requires Canonical(c) && c != "/"
    ensures Segments(c) != [] && (SlashFree(c[1..]) <==> Parent(c) == "/")
  {
    ParentAndName(c);
    var n := |Segments(c)|;
    if SlashFree(c[1..]) {
      assert Split(c[1..]) == [c[1..]];
      assert Segments(c)[..0] == [];
    }
    if Parent(c) == "/" {
      AncestorIsCanonical(c, n - 1);
      assert n == 1;
      assert c[1..] == Segments(c)[0];
    }
  }

  lemma BelowIff(p: string, c: string)
    requires Canonical(p) && Canonical(c) && c != "/" && p != "/"
    ensures Segments(c) != []
    ensures p + "/" <= c && c[|p| + 1..] != "" && SlashFree(c[|p| + 1..]) <==> Parent(c) == p
  {
    ParentAndName(c);
    if p + "/" <= c && SlashFree(c[|p| + 1..]) {
      UnderIsChild(p, c);
    }
    if Parent(c) == p {
      AncestorIsCanonical(c, |Segments(c)| - 1);
      assert c[|p| + 1..] == Segments(c)[|Segments(c)| - 1];
    }
  }

  lemma UnderIsChild(p: string, c: string)
    requires Canonical(p) && Canonical(c) && c != "/" && p != "/"
    requires p + "/" <= c && SlashFree(c[|p| + 1..])
    ensures Segments(c) != [] && Parent(c) == p
  {
    var rest := c[|p| + 1..];
    assert c[1..] == p[1..] + "/" + rest;
    SplitAppend(p[1..], rest);
    assert Split(rest) == [rest];
    CanonicalIsPath(p);
    assert Segments(c) == Segments(p) + [rest];
    assert Segments(c)[..|Segments(c)| - 1] == Segments(p);
  }

  // ----- creating -----

  lemma AncestorInverse(n: string, q: string) returns (i: nat)
    requires Canonical(n) && q in Ancestors(n)
    ensures 1 <= i <= |Segments(n)| && q == Ancestor(n, i)
  {
    i :| 1 <= i <= |Segments(n)| && q == Ancestor(n, i);
  }

  lemma DirectoriesKeepNested(nodes: map<string, Node>, n: string, d: string)
    requires Nested(nodes) && Canonical(n)
    requires NoLinkOnTheWay(nodes, n)
    ensures Nested(WithDirectories(nodes, n, d))
  {
    var r := WithDirectories(nodes, n, d);
    forall q | q in r ensures HasParent(r, q) {
      if q in nodes {
        assert HasParent(nodes, q);
      } else {
        var i := AncestorInverse(n, q);
        AncestorIsCanonical(n, i);
        if i > 1 {
          assert Ancestor(n, i - 1) in Ancestors(n) && !IsLink(nodes, Ancestor(n, i - 1));
        }
      }
    }
  }

  /** Making the directories to a path keeps the tree nested exactly if no link is on the
      way. */
  lemma DirectoriesNestedIff(nodes: map<string, Node>, n: string, d: string)
    requires Nested(nodes) && Canonical(n)
    ensures Nested(WithDirectories(nodes, n, d)) <==> NoLinkOnTheWay(nodes, n)
  {
    if NoLinkOnTheWay(nodes, n) {
      DirectoriesKeepNested(nodes, n, d);
    } else {
      var i :| 1 <= i < |Segments(n)| && IsLink(nodes, Ancestor(n, i));
      LinkOnTheWaySpoils(nodes, n, d, i);
    }
  }

  /** The next directory on the way would have a link for its parent. */
  lemma LinkOnTheWaySpoils(nodes: map<string, Node>, n: string, d: string, i: nat)
    requires Canonical(n) && 1 <= i < |Segments(n)| && IsLink(nodes, Ancestor(n, i))
    ensures !Nested(WithDirectories(nodes, n, d))
  {
    hide Split, Join;
    var q := Ancestor(n, i + 1);
    var r := WithDirectories(nodes, n, d);
    AncestorIsCanonical(n, i + 1);
    assert q in Ancestors(n);
    hide Canonical, Segments, Ancestor, Ancestors;
    assert q in r && IsLink(r, Ancestor(n, i));
    assert !HasParent(r, q);
  }

  ghost predicate NoLinkOnTheWay(nodes: map<string, Node>, n: string)
    requires n != ""
  {
    forall i | 1 <= i < |Segments(n)| :: !IsLink(nodes, Ancestor(n, i))
  }

  /** A new link keeps the tree nested exactly if it is at the top level or in a directory. */
  lemma LinkNestedIff(nodes: map<string, Node>, full: string, link: Node)
    requires Canonical(full) && full !in nodes && link.Link?
    ensures Nested(nodes[full := link]) <==> Nested(nodes) && HasParent(nodes, full)
  {
    var r := nodes[full := link];
    forall q ensures HasParent(r, q) <==> HasParent(nodes, q) {
      assert forall p :: IsDirectory(r, p) <==> IsDirectory(nodes, p);
    }
    if Nested(r) {
      assert HasParent(r, full);
      forall q | q in nodes ensures HasParent(nodes, q) {
        assert HasParent(r, q);
      }
    }
  }

  lemma JoinPathIs(n: string, name: string)
    requires Canonical(n) && PlainSegment(name)
    ensures JoinPath(n, name) == Path(Segments(n) + [name])
  {
    CanonicalIsPath(n);
    DestinationJoin(n, name);
    DestinationOfPath(Segments(n));
    assert Split(name) == [name];
    assert WalkAll(Segments(n), [name]) == Segments(n) + [name];
    assert (n + "/" + name)[0] == '/';
  }

  lemma JoinPathIsCanonical(n: string, name: string)
    requires Canonical(n)
    ensures Canonical(JoinPath(n, name))
  {
    var p := if name == "" then n else n + "/" + name;
    assert p[0] == '/';
    DestinationIsPlain(p);
    PathIsCanonical(Destination(p));
  }

  lemma LinkKeepsNested(nodes: map<string, Node>, n: string, name: string, link: Node)
    requires Nested(nodes) && Canonical(n) && PlainSegment(name)
    requires n == "/" || IsDirectory(nodes, n)
    requires JoinPath(n, name) !in nodes
    ensures Nested(nodes[JoinPath(n, name) := link])
  {
    hide Split, Join;
    var full := JoinPath(n, name);
    var r := nodes[full := link];
    JoinPathIs(n, name);
    CanonicalIsPath(n);
    PathIsCanonical(Segments(n) + [name]);
    assert (Segments(n) + [name])[..|Segments(n)|] == Segments(n);
    assert HasParent(r, full);
    forall q | q in r && q != full ensures HasParent(r, q) {
      assert HasParent(nodes, q);
    }
  }

  // ----- deleting -----

  /** Leaving out nodes keeps the rest nested if no parent goes before its child. */
  lemma RemovalKeepsNested(nodes: map<string, Node>, r: map<string, Node>)
    requires Nested(nodes) && r.Keys <= nodes.Keys && forall q | q in r :: r[q] == nodes[q]
    requires forall q | q in r && Segments(q) != [] && IsDirectory(nodes, Parent(q)) :: Parent(q) in r
    ensures Nested(r)
  {
    forall q | q in r ensures HasParent(r, q) {
      assert HasParent(nodes, q);
    }
  }

  lemma UnlinkingKeepsNested(nodes: map<string, Node>, gone: Node -> bool)
    requires Nested(nodes) && forall n | gone(n) :: n.Link?
    ensures Nested(Without(nodes, gone))
  {
    forall q | q in nodes ensures q != "" {
      assert HasParent(nodes, q);
    }
    RemovalKeepsNested(nodes, Without(nodes, gone));
  }

  /** What a recursive delete selects has all its descendants with it, for every path. */
  lemma SelectionIsClosed(q: string, rest: string, n: string)
    requires Selected(q, n, true)
    ensures Selected(q + "/" + rest, n, true)
  {
    if q == n {
      LikeItself(n + "/", rest);
    } else {
      LikeMore(q, "/" + rest, n + "/");
      assert q + ("/" + rest) == q + "/" + rest;
    }
  }

  /** It has nothing else exactly if the path has no wildcard. */
  lemma SelectionIsSubtreeIff(n: string)
    ensures WildcardFree(n) <==> forall q :: SelectsSubtree(q, n)
  {
    LikePrefixIff(n + "/");
    if WildcardFree(n) {
      forall q ensures SelectsSubtree(q, n) {
        assert MeansPrefix(q, n + "/");
      }
    } else {
      var q := Instance(n + "/");
      InstanceIsNoPrefix(n + "/");
      assert q[|n|] == '/';
      assert !SelectsSubtree(q, n);
    }
  }

  ghost predicate SelectsSubtree(q: string, n: string) {
    Selected(q, n, true) <==> q == n || n + "/" <= q
  }

  lemma RecursiveDeleteKeepsNested(nodes: map<string, Node>, n: string)
    requires Nested(nodes)
    ensures Nested(WithoutSelected(nodes, n, true))
  {
    var r := WithoutSelected(nodes, n, true);
    forall q | q in nodes ensures q != "" {
      assert HasParent(nodes, q);
    }
    forall q | q in r && Segments(q) != [] && IsDirectory(nodes, Parent(q)) ensures Parent(q) in r {
      assert HasParent(nodes, q) && HasParent(nodes, Parent(q));
      ParentAndName(q);
      if |Segments(q)| > 1 && Selected(Parent(q), n, true) {
        SelectionIsClosed(Parent(q), Segments(q)[|Segments(q)| - 1], n);
      }
    }
    RemovalKeepsNested(nodes, r);
  }

  /** Deleting one node leaves the rest nested exactly if it is absent or childless. */
  lemma SingleDeleteIff(r: Rows, n: string)
    requires Nested(r.nodes) && Canonical(n)
    ensures Nested(r.nodes - {n}) <==> n !in r.nodes || !HasChildren(r, n)
  {
    if n !in r.nodes {
      assert r.nodes - {n} == r.nodes;
    } else if HasChildren(r, n) {
      ParentGoes(r, n);
    } else {
      ChildlessGoes(r, n);
    }
  }

  lemma ParentGoes(r: Rows, n: string)
    requires Nested(r.nodes) && Canonical(n) && n in r.nodes && HasChildren(r, n)
    ensures !Nested(r.nodes - {n})
  {
    var q :| q in r.nodes && IsDirectChild(n, q);
    assert HasParent(r.nodes, q) && HasParent(r.nodes, n);
    hide IsDirectChild;
    DirectChildIff(n, q);
    CanonicalIsPath(n);
    var k := |Segments(q)|;
    AncestorIsCanonical(q, k - 1);
    assert k > 1;
    ParentAndName(q);
    assert !HasParent(r.nodes - {n}, q);
  }

  lemma ChildlessGoes(r: Rows, n: string)
    requires Nested(r.nodes) && Canonical(n) && !HasChildren(r, n)
    ensures Nested(r.nodes - {n})
  {
    var s := r.nodes - {n};
    forall q | q in r.nodes ensures q != "" {
      assert HasParent(r.nodes, q);
    }
    forall q | q in s && Segments(q) != [] && IsDirectory(r.nodes, Parent(q)) ensures Parent(q) in s {
      assert HasParent(r.nodes, q) && !IsDirectChild(n, q);
      hide IsDirectChild;
      DirectChildIff(n, q);
    }
    RemovalKeepsNested(r.nodes, s);
  }

  // ----- runs -----

  /** Directories are made with no link on the way, links at the top level or in a
      directory, and a single node is not deleted from above its children. */
  ghost predicate Orderly(r: Rows, step: Step) {
    match step
    case MakeDirectory(path, _) => NoLinkOnTheWay(r.nodes, Normalized(path))
    case MakeLink(path, name, kind, ref) =>
      var n := Normalized(path);
      var nodes := WithDirectories(r.nodes, n, "");
      && NoLinkOnTheWay(r.nodes, n)
      && (RefExists(r, kind, ref) && JoinPath(n, name) !in nodes ==> HasParent(nodes, JoinPath(n, name)))
    case DeleteNode(path, recursive, force) =>
      recursive || !force || Normalized(path) !in r.nodes || !HasChildren(r, Normalized(path))
    case _ => true
  }

  /** A link with a single-segment name, in a path with no link on the way and none at its
      end, is always orderly. */
  lemma PlainNameIsOrderly(r: Rows, path: string, name: string, kind: string, ref: string)
    requires Nested(r.nodes) && PlainSegment(name)
    requires NoLinkOnTheWay(r.nodes, Normalized(path)) && !IsLink(r.nodes, Normalized(path))
    ensures Orderly(r, MakeLink(path, name, kind, ref))
  {
    var n := Normalized(path);
    NormalizedIsCanonical(path);
    var nodes := WithDirectories(r.nodes, n, "");
    DirectoriesKeepNested(r.nodes, n, "");
    MadeOrThere(r.nodes, n);
    if JoinPath(n, name) !in nodes {
      LinkKeepsNested(nodes, n, name, Link("link_" + kind, kind + ":" + ref));
      JoinPathIsCanonical(n, name);
      LinkNestedIff(nodes, JoinPath(n, name), Link("link_" + kind, kind + ":" + ref));
    }
  }

  lemma MadeOrThere(nodes: map<string, Node>, n: string)
    requires Canonical(n) && !IsLink(nodes, n)
    ensures n == "/" || IsDirectory(WithDirectories(nodes, n, ""), n)
  {
    if n != "/" {
      CanonicalIsPath(n);
      var k := |Segments(n)|;
      assert Segments(n)[..k] == Segments(n);
      assert Ancestor(n, k) == n && n in Ancestors(n);
    }
  }

  lemma MakeLinkNestedIff(r: Rows, path: string, name: string, kind: string, ref: string)
    requires Nested(r.nodes)
    ensures Nested(Next(r, MakeLink(path, name, kind, ref)).nodes) <==> Orderly(r, MakeLink(path, name, kind, ref))
  {
    hide Split, Join, SplitN;
    var n := Normalized(path);
    NormalizedIsCanonical(path);
    var nodes := WithDirectories(r.nodes, n, "");
    var full := JoinPath(n, name);
    var link := Link("link_" + kind, kind + ":" + ref);
    hide Normalized, Canonical, JoinPath, WithDirectories, Nested, HasParent, NoLinkOnTheWay, RefExists;
    DirectoriesNestedIff(r.nodes, n, "");
    if RefExists(r, kind, ref) && full !in nodes {
      JoinPathIsCanonical(n, name);
      LinkNestedIff(nodes, full, link);
    }
  }

  lemma OneIsSelected(nodes: map<string, Node>, n: string)
    ensures WithoutSelected(nodes, n, false) == nodes - {n}
  {
  }

  lemma RecursiveOrRefused(r: Rows, path: string, recursive: bool, force: bool)
    requires Nested(r.nodes) && (recursive || !force)
    ensures Nested(Next(r, DeleteNode(path, recursive, force)).nodes)
  {
    var n := Normalized(path);
    NormalizedIsCanonical(path);
    hide Normalized, Nested, WithoutSelected, IsDirectChild, Canonical;
    if recursive {
      RecursiveDeleteKeepsNested(r.nodes, n);
    } else if !HasChildren(r, n) {
      SingleDeleteIff(r, n);
      OneIsSelected(r.nodes, n);
    }
  }

  /** A delete keeps the tree nested exactly if it is recursive, or not forced, or meets
      no node, or no child. */
  lemma DeleteNodeKeepsNestedIff(r: Rows, path: string, recursive: bool, force: bool)
    requires Nested(r.nodes)
    ensures Nested(Next(r, DeleteNode(path, recursive, force)).nodes) <==> Orderly(r, DeleteNode(path, recursive, force))
  {
    var n := Normalized(path);
    NormalizedIsCanonical(path);
    hide Normalized, Nested, WithoutSelected, IsDirectChild, Canonical;
    if recursive || !force {
      RecursiveOrRefused(r, path, recursive, force);
    } else {
      SingleDeleteIff(r, n);
      OneIsSelected(r.nodes, n);
    }
  }

  /** A step keeps every node's parent directory exactly if it is orderly. */
  lemma NestedKeptIff(r: Rows, step: Step)
    requires Nested(r.nodes)
    ensures Nested(Next(r, step).nodes) <==> Orderly(r, step)
  {
    match step
    case CreateTarget(_) =>
    case DeleteTarget(t, force) => UnlinkingKeepsNested(r.nodes, LinksUnder(t));
    case CreatePoller(_, _) =>
    case DeletePoller(t, p) => UnlinkingKeepsNested(r.nodes, LinksToPoller(t, p));
    case MakeDirectory(path, d) =>
      NormalizedIsCanonical(path);
      DirectoriesNestedIff(r.nodes, Normalized(path), d);
    case MakeLink(path, name, kind, ref) => MakeLinkNestedIff(r, path, name, kind, ref);
    case DeleteNode(path, recursive, force) => DeleteNodeKeepsNestedIff(r, path, recursive, force);
    case UnlinkTarget(t) => UnlinkingKeepsNested(r.nodes, LinksToTarget(t));
    case UnlinkPoller(t, p) => UnlinkingKeepsNested(r.nodes, LinksToPoller(t, p));
    case UnlinkUnder(t) => UnlinkingKeepsNested(r.nodes, LinksUnder(t));
    case DeleteNamespace(_) =>
  }

  ghost predicate OrderlyRun(r: Rows, steps: seq<Step>)
    decreases |steps|
  {
    steps == [] || (Orderly(r, steps[0]) && OrderlyRun(Next(r, steps[0]), steps[1..]))
  }

  lemma {:induction false} RunKeepsNested(r: Rows, steps: seq<Step>)
    requires Nested(r.nodes) && OrderlyRun(r, steps)
    ensures Nested(Run(r, steps).nodes)
    decreases |steps|
  {
    if steps != [] {
      NestedKeptIff(r, steps[0]);
      RunKeepsNested(Next(r, steps[0]), steps[1..]);
    }
  }

  /** After any orderly run every node keeps its parent directory. */
  lemma EveryNodeHasItsParent(steps: seq<Step>)
    requires OrderlyRun(Empty, steps)
    ensures Nested(Run(Empty, steps).nodes)
  {
    RunKeepsNested(Empty, steps);
  }

  /** Every state on the way is nested. */
  ghost predicate NestedThroughout(r: Rows, steps: seq<Step>)
    decreases |steps|
  {
    Nested(r.nodes) && (steps != [] ==> NestedThroughout(Next(r, steps[0]), steps[1..]))
  }

  /** The runs that keep every parent are exactly the orderly ones. */
  lemma {:induction false} NestedThroughoutIff(r: Rows, steps: seq<Step>)
    requires Nested(r.nodes)
    ensures NestedThroughout(r, steps) <==> OrderlyRun(r, steps)
    decreases |steps|
  {
    if steps != [] {
      NestedKeptIff(r, steps[0]);
      if Orderly(r, steps[0]) {
        NestedThroughoutIff(Next(r, steps[0]), steps[1..]);
      }
    }
  }

  // ----- what goes wrong otherwise -----

  lemma TwoLevels(a: string, b: string)
    requires PlainSegment(a) && PlainSegment(b)
    ensures var q := "/" + a + "/" + b;
            Path([a, b]) == q && Canonical(q) && q != "/" && Segments(q) == [a, b] && Parent(q) == "/" + a
  {
    PathSnoc([a], b);
    PathIsCanonical([a, b]);
    assert [a] + [b] == [a, b] && Path([a]) == "/" + a && Path([a, b]) == "/" + a + "/" + b;
    assert [a, b][..1] == [a];
  }

  lemma Orphaned(nodes: map<string, Node>, q: string)
    requires Canonical(q) && |Segments(q)| > 1 && q in nodes && Parent(q) !in nodes
    ensures !Nested(nodes)
  {
    assert !HasParent(nodes, q);
  }

  lemma MadeItself(nodes: map<string, Node>, q: string)
    requires Canonical(q) && Segments(q) != []
    ensures Normalized(q) == q && q in WithDirectories(nodes, q, "")
  {
    NormalizeCanonical(q);
    CanonicalIsPath(q);
    var n := |Segments(q)|;
    assert Segments(q)[..n] == Segments(q);
    assert Ancestor(q, n) == q && q in Ancestors(q);
  }

  lemma NodesAfter(r: Rows, path: string, t: string)
    ensures Next(Next(r, MakeDirectory(path, "")), DeleteTarget(t, true)).nodes
            == Without(WithDirectories(r.nodes, Normalized(path), ""), LinksUnder(t))
  {
    hide Normalized, WithDirectories, Without;
  }

  lemma LinksUnderAreLinks(t: string)
    ensures LinksUnder(t)(Link("link_target", "target:" + t))
    ensures forall n | LinksUnder(t)(n) :: n.Link?
  {
  }

  /** A directory made beneath a top-level link stays behind when the link's target goes. */
  lemma BeneathLinkIsLeftBehind(q: string, t: string)
    requires Canonical(q) && |Segments(q)| == 2
    ensures var r := Empty.(targets := {t}, nodes := map[Parent(q) := Link("link_target", "target:" + t)]);
            Nested(r.nodes) && !Nested(Next(Next(r, MakeDirectory(q, "")), DeleteTarget(t, true)).nodes)
  {
    var l := Parent(q);
    var link := Link("link_target", "target:" + t);
    var r := Empty.(targets := {t}, nodes := map[l := link]);
    NodesAfter(r, q, t);
    AncestorIsCanonical(q, 1);
    assert HasParent(r.nodes, l);
    MadeItself(r.nodes, q);
    LinksUnderAreLinks(t);
    hide Next, Normalized, Ancestors, LinksUnder, PlainSegment;
    LeftWithout(r.nodes, q, l, LinksUnder(t));
    Orphaned(Without(WithDirectories(r.nodes, q, ""), LinksUnder(t)), q);
  }

  lemma LeftWithout(nodes: map<string, Node>, q: string, l: string, gone: Node -> bool)
    requires q != "" && q !in nodes && q in WithDirectories(nodes, q, "")
    requires forall n | gone(n) :: n.Link?
    requires l in nodes && gone(nodes[l])
    ensures var r := Without(WithDirectories(nodes, q, ""), gone); q in r && l !in r
  {
  }

  lemma SlashedJoin(a: string, b: string)
    requires PlainSegment(a) && PlainSegment(b)
    ensures JoinPath("/", a + "/" + b) == "/" + a + "/" + b
  {
    var name := a + "/" + b;
    TwoLevels(a, b);
    DestinationOfRoot();
    DestinationJoin("/", name);
    SplitAppend(a, b);
    assert Split(name) == [a, b];
    WalkPlain([], [a, b]);
    assert [] + [a, b] == [a, b];
    hide Split, WalkAll, Destination, Join;
    assert ("/" + "/" + name)[0] == '/';
    assert name != "";
  }

  lemma LinkAtRoot(name: string, t: string)
    ensures var r := Empty.(targets := {t});
            Next(r, MakeLink("/", name, "target", t)).nodes == map[JoinPath("/", name) := Link("link_target", "target:" + t)]
  {
    DestinationOfRoot();
    NormalizeRooted("/");
    assert Ancestors("/") == {};
    hide Normalize, JoinPath, Ancestors;
    assert WithDirectories(map[], "/", "") == map[];
    assert "link_" + "target" == "link_target" && "target" + ":" + t == "target:" + t;
  }

  /** A link whose name has a slash has no parent. */
  lemma SlashedLinkNameHasNoParent(a: string, b: string, t: string)
    requires PlainSegment(a) && PlainSegment(b)
    ensures !Nested(Next(Empty.(targets := {t}), MakeLink("/", a + "/" + b, "target", t)).nodes)
  {
    LinkAtRoot(a + "/" + b, t);
    SlashedJoin(a, b);
    TwoLevels(a, b);
    hide Next, JoinPath;
    assert |"/" + a + "/" + b| > |"/" + a|;
    Orphaned(Next(Empty.(targets := {t}), MakeLink("/", a + "/" + b, "target", t)).nodes, "/" + a + "/" + b);
  }
}
