/** Targets, pollers and the tree of links to them: the rows of one namespace, and
    every stored link leading somewhere. */
module TreeModel {
  import opened Text
  import opened Paths
  import opened Likes

  type PollerName = (string, string) // target, name

  datatype Node = Directory(description: string) | Link(kind: string, ref: string)

  datatype Rows = Rows(
    targets: set<string>,
    pollers: set<PollerName>,
    states: set<PollerName>,
    stats: set<PollerName>,
    nodes: map<string, Node>)

  const Empty: Rows := Rows({}, {}, {}, {}, map[])

  // ----- link references -----

  datatype Ref = Target(target: string) | Poller(target: string, poller: string) | BadRef

  function ParseLinkRef(ref: string): Ref {
    if "target:" <= ref then Target(ref[7..])
    else if "poller:" <= ref then
      var parts := SplitN(ref[7..], 2);
      if |parts| != 2 then BadRef else Poller(parts[0], parts[1])
    else BadRef
  }

  /** The three answers of validateLinkRef: an error, no, or yes. */
  predicate RefExists(r: Rows, kind: string, ref: string) {
    if kind == "target" then ref in r.targets
    else if kind == "poller" then
      var parts := SplitN(ref, 2);
      |parts| == 2 && (parts[0], parts[1]) in r.pollers
    else false
  }

  predicate Leads(r: Rows, ref: string) {
    match ParseLinkRef(ref)
    case Target(t) => t in r.targets
    case Poller(t, p) => (t, p) in r.pollers
    case BadRef => false
  }

  /** Every stored link parses and leads to a stored target or poller. */
  ghost predicate LinksLead(r: Rows) {
    forall q | q in r.nodes :: LinkLeads(r, q)
  }

  ghost predicate LinkLeads(r: Rows, q: string)
    requires q in r.nodes
  {
    r.nodes[q].Link? ==> Leads(r, r.nodes[q].ref)
  }

  /** What the deletes by reference select. */
  predicate RefersToPoller(ref: string, t: string, p: string) {
    ref == "poller:" + t + "/" + p
  }

  predicate RefersToTarget(ref: string, t: string) {
    ref == "target:" + t
  }

  predicate RefersUnder(ref: string, t: string) {
    ref == "target:" + t || Like(ref, "poller:" + t + "/" + "%")
  }

  lemma PollerRef(ref: string)
    requires ParseLinkRef(ref).Poller?
    ensures var x := ParseLinkRef(ref); SlashFree(x.target) && ref == "poller:" + x.target + "/" + x.poller
  {
    var t, p := ParseLinkRef(ref).target, ParseLinkRef(ref).poller;
    TwoParts(ref[7..]);
    assert ref[7..] == t + "/" + p && SlashFree(t) && ref[..7] == "poller:";
    hide ParseLinkRef, SplitN;
    assert ref == ref[..7] + ref[7..];
    assert "poller:" + (t + "/" + p) == "poller:" + t + "/" + p;
  }

  lemma TwoParts(s: string)
    requires |SplitN(s, 2)| == 2
    ensures s == SplitN(s, 2)[0] + "/" + SplitN(s, 2)[1]
  {
    JoinSplitN(s, 2);
    JoinCons(SplitN(s, 2)[0], [SplitN(s, 2)[1]]);
    assert SplitN(s, 2) == [SplitN(s, 2)[0]] + [SplitN(s, 2)[1]];
  }

  lemma PollerRefParses(t: string, p: string)
    requires SlashFree(t)
    ensures ParseLinkRef("poller:" + t + "/" + p) == Poller(t, p)
  {
    var ref := "poller:" + t + "/" + p;
    assert ref[7..] == t + "/" + p && ref[0] == 'p' && "poller:" <= ref;
    TwoPartsOf(t, p);
  }

  lemma TwoPartsOf(t: string, p: string)
    requires SlashFree(t)
    ensures SplitN(t + "/" + p, 2) == [t, p]
  {
    CutAtSlash(t, p);
  }

  /** The links that a target's deletion must take along are among those it takes ... */
  lemma OwnLinksAreTaken(ref: string, t: string)
    ensures ParseLinkRef(ref) == Target(t) ==> RefersUnder(ref, t) && RefersToTarget(ref, t)
    ensures ParseLinkRef(ref).Poller? && ParseLinkRef(ref).target == t ==> RefersUnder(ref, t)
  {
    var x := ParseLinkRef(ref);
    if x.Target? && x.target == t {
      assert ref == "target:" + ref[7..];
    }
    if x.Poller? && x.target == t {
      PollerRef(ref);
      LikeItself("poller:" + t + "/", x.poller);
    }
  }

  /** Only those links go. */
  ghost predicate TakesOnlyOwn(t: string) {
    forall ref :: TakenIsOwn(ref, t)
  }

  ghost predicate TakenIsOwn(ref: string, t: string) {
    RefersUnder(ref, t) <==>
      ParseLinkRef(ref) == Target(t) || (ParseLinkRef(ref).Poller? && ParseLinkRef(ref).target == t)
  }

  /** ... and are all of them exactly if the name has no wildcard: an underscore, which
      names may have, takes other targets' poller links along. */
  lemma TakesOnlyOwnIff(t: string)
    requires SlashFree(t)
    ensures TakesOnlyOwn(t) <==> WildcardFree(t)
  {
    hide TakenIsOwn, Like;
    if WildcardFree(t) {
      forall ref ensures TakenIsOwn(ref, t) {
        PlainNameTakesOwn(ref, t);
      }
    } else {
      WildNameTakesOthers(t);
    }
  }

  lemma PlainNameTakesOwn(ref: string, t: string)
    requires SlashFree(t) && WildcardFree(t)
    ensures TakenIsOwn(ref, t)
  {
    var prefix := "poller:" + t + "/";
    OwnLinksAreTaken(ref, t);
    assert WildcardFree(prefix);
    LikePrefix(ref, prefix);
    if ref == "target:" + t {
      assert ref[7..] == t && "target:" <= ref;
    }
    hide Like, SplitN;
    if prefix <= ref {
      PollerRefParses(t, ref[|prefix|..]);
      assert ref == "poller:" + t + "/" + ref[|prefix|..];
    }
  }

  lemma WildNameTakesOthers(t: string)
    requires SlashFree(t) && !WildcardFree(t)
    ensures !TakenIsOwn("poller:" + Instance(t) + "/", t)
  {
    var other := Instance(t);
    InstanceIsNoPrefix(t);
    InstanceOfRef(t);
    var ref := "poller:" + other + "/";
    assert ref == "poller:" + other + "/" + "";
    forall i | 0 <= i < |other| ensures other[i] != '/' {
      assert t[i] in t;
    }
    PollerRefParses(other, "");
  }

  lemma InstanceOfRef(t: string)
    ensures Like("poller:" + Instance(t) + "/", "poller:" + t + "/" + "%")
  {
    var p := "poller:" + t + "/";
    InstanceIsLike(p, "");
    assert Instance(p) == "poller:" + Instance(t) + "/" by {
      var s := "poller:" + Instance(t) + "/";
      assert |s| == |p|;
      forall i | 0 <= i < |p| ensures s[i] == Instance(p)[i] {
        if 7 <= i < 7 + |t| {
          assert p[i] == t[i - 7] && s[i] == Instance(t)[i - 7];
        }
      }
    }
    assert Instance(p) + "" == Instance(p);
  }

  // ----- the operations -----

  datatype Step =
    | CreateTarget(t: string)
    | DeleteTarget(t: string, force: bool)
    | CreatePoller(t: string, p: string)
    | DeletePoller(t: string, p: string)
    | MakeDirectory(path: string, description: string)
    | MakeLink(path: string, name: string, kind: string, ref: string)
    | DeleteNode(path: string, recursive: bool, force: bool)
    | UnlinkTarget(t: string)
    | UnlinkPoller(t: string, p: string)
    | UnlinkUnder(t: string)
    | DeleteNamespace(force: bool)

  function Without(nodes: map<string, Node>, gone: Node -> bool): map<string, Node> {
    map q | q in nodes && !gone(nodes[q]) :: nodes[q]
  }

  function LinksToTarget(t: string): Node -> bool {
    (n: Node) => n.Link? && RefersToTarget(n.ref, t)
  }

  function LinksToPoller(t: string, p: string): Node -> bool {
    (n: Node) => n.Link? && RefersToPoller(n.ref, t, p)
  }

  function LinksUnder(t: string): Node -> bool {
    (n: Node) => n.Link? && RefersUnder(n.ref, t)
  }

  /** The path of the i-th directory on the way to a normalised path. */
  function Ancestor(path: string, i: nat): string
    requires path != "" && i <= |Segments(path)|
  {
    Path(Segments(path)[..i])
  }

  ghost function Ancestors(path: string): set<string>
    requires path != ""
  {
    AncestorsUpto(path, |Segments(path)|)
  }

  ghost function AncestorsUpto(path: string, n: nat): set<string>
    requires path != "" && n <= |Segments(path)|
  {
    set i | 1 <= i <= n :: Ancestor(path, i)
  }

  /** Missing directories on the way to a path, and it, are made; what is there stays. */
  ghost function WithDirectories(nodes: map<string, Node>, path: string, description: string): map<string, Node>
    requires path != ""
  {
    Filled(nodes, Ancestors(path), path, description)
  }

  ghost function Filled(nodes: map<string, Node>, qs: set<string>, path: string, d: string): map<string, Node> {
    map q | q in nodes.Keys + qs :: if q in nodes then nodes[q] else Directory(if q == path then d else "")
  }

  /** What manager and store make of a path together. */
  function Normalized(path: string): (r: string)
    ensures r != "" && r[0] == '/'
  {
    Normalize(Normalize(path))
  }

  lemma NormalizedIsCanonical(path: string)
    ensures Canonical(Normalized(path))
  {
    NormalizeTwice(path);
  }

  /** Go's path.Join of two elements of which the first is not empty. */
  function JoinPath(path: string, name: string): string {
    Clean(if name == "" then path else path + "/" + name)
  }

  function Selected(q: string, path: string, recursive: bool): bool {
    q == path || (recursive && Like(q, path + "/" + "%"))
  }

  function WithoutSelected(nodes: map<string, Node>, path: string, recursive: bool): map<string, Node> {
    map q | q in nodes && !Selected(q, path, recursive) :: nodes[q]
  }

  /** As the program tests it. */
  function IsDirectChild(parent: string, child: string): bool {
    var p, c := Normalize(parent), Normalize(child);
    if p == "/" then
      var rest := if "/" <= c then c[1..] else c;
      rest != "" && '/' !in rest
    else
      p + "/" <= c && c[|p| + 1..] != "" && '/' !in c[|p| + 1..]
  }

  predicate HasChildren(r: Rows, path: string) {
    exists q :: q in r.nodes && IsDirectChild(path, q)
  }

  ghost function Next(r: Rows, step: Step): Rows {
    match step
    case CreateTarget(t) => r.(targets := r.targets + {t})
    case DeleteTarget(t, force) =>
      if !force && exists x :: x in r.pollers && x.0 == t then r
      else Rows(r.targets - {t}, NotOf(r.pollers, t), NotOf(r.states, t), NotOf(r.stats, t),
                Without(r.nodes, LinksUnder(t)))
    case CreatePoller(t, p) =>
      var x := (t, p);
      if x in r.pollers || x in r.states || x in r.stats then r
      else r.(pollers := r.pollers + {x}, states := r.states + {x}, stats := r.stats + {x})
    case DeletePoller(t, p) =>
      Rows(r.targets, r.pollers - {(t, p)}, r.states - {(t, p)}, r.stats - {(t, p)},
           Without(r.nodes, LinksToPoller(t, p)))
    case MakeDirectory(path, d) => r.(nodes := WithDirectories(r.nodes, Normalized(path), d))
    case MakeLink(path, name, kind, ref) =>
      var nodes := WithDirectories(r.nodes, Normalized(path), "");
      var full := JoinPath(Normalized(path), name);
      r.(nodes := if RefExists(r, kind, ref) && full !in nodes then nodes[full := Link("link_" + kind, kind + ":" + ref)]
                  else nodes)
    case DeleteNode(path, recursive, force) =>
      var n := Normalized(path);
      if HasChildren(r, n) && !recursive && !force then r
      else r.(nodes := WithoutSelected(r.nodes, n, recursive))
    case UnlinkTarget(t) => r.(nodes := Without(r.nodes, LinksToTarget(t)))
    case UnlinkPoller(t, p) => r.(nodes := Without(r.nodes, LinksToPoller(t, p)))
    case UnlinkUnder(t) => r.(nodes := Without(r.nodes, LinksUnder(t)))
    case DeleteNamespace(force) => if r.targets != {} && !force then r else Empty
  }

  function NotOf(s: set<PollerName>, t: string): set<PollerName> {
    set x | x in s && x.0 != t
  }

  ghost function Run(r: Rows, steps: seq<Step>): Rows
    decreases |steps|
  {
    if steps == [] then r else Run(Next(r, steps[0]), steps[1..])
  }

  // ----- every link leads somewhere -----

  lemma MakeLinkKeepsLeading(r: Rows, path: string, name: string, kind: string, ref: string)
    requires LinksLead(r)
    ensures LinksLead(Next(r, MakeLink(path, name, kind, ref)))
  {
    var s := Next(r, MakeLink(path, name, kind, ref));
    if RefExists(r, kind, ref) {
      NewLinkLeads(r, kind, ref);
    }
    forall q | q in s.nodes ensures LinkLeads(s, q) {
      assert q in r.nodes ==> LinkLeads(r, q);
    }
  }

  lemma NewLinkLeads(r: Rows, kind: string, ref: string)
    requires RefExists(r, kind, ref)
    ensures Leads(r, kind + ":" + ref)
  {
    var full := kind + ":" + ref;
    assert full[7..] == ref;
    if kind == "target" {
      assert "target:" <= full;
    } else {
      assert "poller:" <= full && full[0] == 'p';
    }
  }

  lemma DeleteTargetKeepsLeading(r: Rows, t: string, force: bool)
    requires LinksLead(r)
    ensures LinksLead(Next(r, DeleteTarget(t, force)))
  {
    var s := Next(r, DeleteTarget(t, force));
    forall q | q in s.nodes ensures LinkLeads(s, q) {
      assert LinkLeads(r, q);
      if r.nodes[q].Link? {
        OwnLinksAreTaken(r.nodes[q].ref, t);
      }
    }
  }

  lemma DeletePollerKeepsLeading(r: Rows, t: string, p: string)
    requires LinksLead(r)
    ensures LinksLead(Next(r, DeletePoller(t, p)))
  {
    var s := Next(r, DeletePoller(t, p));
    forall q | q in s.nodes ensures LinkLeads(s, q) {
      assert LinkLeads(r, q);
      if r.nodes[q].Link? && ParseLinkRef(r.nodes[q].ref).Poller? {
        PollerRef(r.nodes[q].ref);
      }
    }
  }

  lemma StepKeepsLeading(r: Rows, step: Step)
    requires LinksLead(r)
    ensures LinksLead(Next(r, step))
  {
    match step
    case MakeLink(path, name, kind, ref) => MakeLinkKeepsLeading(r, path, name, kind, ref);
    case DeleteTarget(t, force) => DeleteTargetKeepsLeading(r, t, force);
    case DeletePoller(t, p) => DeletePollerKeepsLeading(r, t, p);
    case _ =>
      var s := Next(r, step);
      forall q | q in s.nodes ensures LinkLeads(s, q) {
        assert q in r.nodes ==> LinkLeads(r, q);
      }
  }

  /** Each poller has one state row and one stats row, and there are no others. */
  predicate RowsMatch(r: Rows) {
    r.pollers == r.states == r.stats
  }

  lemma {:induction false} RunKeepsLeading(r: Rows, steps: seq<Step>)
    requires LinksLead(r) && RowsMatch(r)
    ensures LinksLead(Run(r, steps)) && RowsMatch(Run(r, steps))
    decreases |steps|
  {
    if steps != [] {
      StepKeepsLeading(r, steps[0]);
      RunKeepsLeading(Next(r, steps[0]), steps[1..]);
    }
  }

  /** After any creates and deletes, with whatever names and paths, every stored link
      leads to a stored target or poller, and pollers, states and stats match. */
  lemma EveryLinkLeads(steps: seq<Step>)
    ensures LinksLead(Run(Empty, steps)) && RowsMatch(Run(Empty, steps))
  {
    RunKeepsLeading(Empty, steps);
  }
}
