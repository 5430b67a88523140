/** The store's methods over those rows, one statement after the other. */
module TreeStores {
  import opened Text
  import opened Paths
  import opened Likes
  import opened TreeModel

  class Store {
    var targets: set<string>
    var pollers: set<PollerName>
    var states: set<PollerName>
    var stats: set<PollerName>
    var nodes: map<string, Node>

    function Now(): Rows
      reads this
    {
      Rows(targets, pollers, states, stats, nodes)
    }

    constructor ()
      ensures Now() == Empty
    {
      targets, pollers, states, stats, nodes := {}, {}, {}, {}, map[];
    }

    // ----- targets and pollers -----

    method CreateTarget(t: string) returns (ok: bool)
      modifies this`targets
      ensures Now() == Next(old(Now()), Step.CreateTarget(t))
      ensures ok <==> t !in old(targets)
    {
      if t in targets {
        return false;
      }
      targets := targets + {t};
      return true;
    }

    method DeleteTarget(t: string, force: bool) returns (ok: bool, pollersDeleted: nat, linksDeleted: nat)
      modifies this
      ensures Now() == Next(old(Now()), Step.DeleteTarget(t, force))
      ensures ok <==> force || forall x | x in old(pollers) :: x.0 != t
      ensures ok ==> pollersDeleted == |old(pollers)| - |pollers| && linksDeleted == |old(nodes)| - |nodes|
      ensures !ok ==> pollersDeleted == 0 && linksDeleted == 0
      ensures ok ==> t !in targets && old(targets) <= targets + {t} && forall x | x in pollers + states + stats :: x.0 != t
    {
      hide RefersUnder, Without;
      var own := set x | x in pollers && x.0 == t;
      OwnOrNone(pollers, t);
      if |own| > 0 && !force {
        return false, 0, 0;
      }
      DeletePollersOf(t);
      linksDeleted := DeleteLinksToTargetAndPollers(t);
      targets := targets - {t};
      return true, |own|, linksDeleted;
    }

    static lemma OwnOrNone(pollers: set<PollerName>, t: string)
      ensures |set x | x in pollers && x.0 == t| > 0 <==> exists x :: x in pollers && x.0 == t
    {
      var own := set x | x in pollers && x.0 == t;
      if x :| x in pollers && x.0 == t {
        assert x in own;
      }
      if |own| > 0 {
        var x :| x in own;
      }
    }

    method DeletePollersOf(t: string)
      modifies this`pollers, this`states, this`stats
      ensures states == NotOf(old(states), t) && stats == NotOf(old(stats), t)
      ensures pollers == NotOf(old(pollers), t)
      ensures |old(pollers)| - |pollers| == |set x | x in old(pollers) && x.0 == t|
    {
      states := set x | x in states && x.0 != t;
      stats := set x | x in stats && x.0 != t;
      PartSize(pollers, set x | x in pollers && x.0 == t);
      pollers := pollers - set x | x in pollers && x.0 == t;
      assert pollers == NotOf(old(pollers), t);
    }

    method DeleteLinksToTarget(t: string) returns (deleted: nat)
      modifies this`nodes
      ensures Now() == Next(old(Now()), UnlinkTarget(t))
      ensures deleted == |old(nodes)| - |nodes|
    {
      deleted := Unlink(LinksToTarget(t));
    }

    method DeleteLinksToPoller(t: string, p: string) returns (deleted: nat)
      modifies this`nodes
      ensures Now() == Next(old(Now()), UnlinkPoller(t, p))
      ensures deleted == |old(nodes)| - |nodes|
    {
      deleted := Unlink(LinksToPoller(t, p));
    }

    method DeleteLinksToTargetAndPollers(t: string) returns (deleted: nat)
      modifies this`nodes
      ensures Now() == Next(old(Now()), UnlinkUnder(t))
      ensures deleted == |old(nodes)| - |nodes|
    {
      deleted := Unlink(LinksUnder(t));
    }

    /** DELETE FROM tree_nodes WHERE ... */
    method Unlink(gone: Node -> bool) returns (deleted: nat)
      modifies this`nodes
      ensures nodes == Without(old(nodes), gone)
      ensures deleted == |old(nodes)| - |nodes|
    {
      var links := set q | q in nodes && gone(nodes[q]);
      PartSize(nodes.Keys, links);
      nodes := nodes - links;
      assert nodes.Keys == old(nodes.Keys) - links;
      return |links|;
    }

    static lemma PartSize<T>(s: set<T>, part: set<T>)
      requires part <= s
      ensures |s| == |part| + |s - part|
    {
      assert s == part + (s - part);
    }

    method CreatePoller(t: string, p: string) returns (ok: bool)
      modifies this`pollers, this`states, this`stats
      ensures Now() == Next(old(Now()), Step.CreatePoller(t, p))
      ensures ok <==> (t, p) !in old(pollers) && (t, p) !in old(states) && (t, p) !in old(stats)
    {
      var x := (t, p);
      if x in pollers || x in states || x in stats {
        return false; // rolled back
      }
      pollers := pollers + {x};
      states := states + {x};
      stats := stats + {x};
      return true;
    }

    method DeletePoller(t: string, p: string) returns (linksDeleted: nat)
      modifies this`pollers, this`states, this`stats, this`nodes
      ensures Now() == Next(old(Now()), Step.DeletePoller(t, p))
      ensures linksDeleted == |old(nodes)| - |nodes|
    {
      states := states - {(t, p)};
      stats := stats - {(t, p)};
      linksDeleted := DeleteLinksToPoller(t, p);
      pollers := pollers - {(t, p)};
    }

    method DeleteNamespace(force: bool) returns (ok: bool, targetsDeleted: nat, pollersDeleted: nat)
      modifies this
      ensures Now() == Next(old(Now()), Step.DeleteNamespace(force))
      ensures ok <==> old(targets) == {} || force
      ensures ok ==> targetsDeleted == |old(targets)| && pollersDeleted == |old(pollers)|
      ensures !ok ==> targetsDeleted == 0 && pollersDeleted == 0
    {
      var targetCount := |targets|;
      if targetCount > 0 && !force {
        return false, 0, 0;
      }
      pollersDeleted := |pollers|;
      states := {};
      stats := {};
      pollers := {};
      nodes := map[];
      targets := {};
      return true, targetCount, pollersDeleted;
    }

    // ----- the tree -----

    /** The manager and then the store normalise. */
    method CreateDirectory(path: string, description: string)
      modifies this`nodes
      ensures Now() == Next(old(Now()), MakeDirectory(path, description))
    {
      hide Normalize, WithDirectories;
      CreateTreeDirectory(Normalize(path), description);
    }

    /** strings.Trim(s, "/"). */
    static function TrimSlashes(s: string): (r: string)
      ensures r != "" ==> r[0] != '/' && r[|r| - 1] != '/'
    {
      if s != "" && s[0] == '/' then TrimSlashes(s[1..])
      else if s != "" && s[|s| - 1] == '/' then TrimSlashes(s[..|s| - 1])
      else s
    }

    static lemma TrimCanonical(path: string)
      requires Canonical(path)
      ensures TrimSlashes(path) == path[1..]
      ensures TrimSlashes(path) != "" ==> Split(TrimSlashes(path)) == Segments(path)
    {
      CanonicalIsPath(path);
      PathIsCanonical(Segments(path));
      if path != "/" {
        assert PlainSegment(Segments(path)[0]);
        FirstChar(Segments(path));
        assert path[1..] == Join(Segments(path));
      }
    }

    static lemma FirstChar(segs: seq<string>)
      requires PlainSegments(segs) && segs != []
      ensures Join(segs) != "" && Join(segs)[0] != '/'
    {
      assert segs[0][0] in segs[0];
    }

    method CreateTreeDirectory(path: string, description: string)
      requires path != "" && path[0] == '/'
      modifies this`nodes
      ensures nodes == WithDirectories(old(nodes), Normalize(path), description)
    {
      var nodePath := Normalize(path);
      RootedIsCanonical(path);
      TrimCanonical(nodePath);
      var parts := Split(TrimSlashes(nodePath));
      assert nodePath == "/" ==> parts == [""] && Ancestors(nodePath) == {};
      assert nodePath != "/" ==> forall i | 0 <= i < |parts| :: PlainSegment(parts[i]);
      MakeAll(nodePath, parts, description);
    }

    static lemma RootedIsCanonical(path: string)
      requires path != "" && path[0] == '/'
      ensures Canonical(Normalize(path))
    {
      NormalizeRooted(path);
      DestinationIsPlain(path);
      PathIsCanonical(Destination(path));
    }

    /** CreateTreeDirectory's loop. */
    method MakeAll(nodePath: string, parts: seq<string>, description: string)
      requires Canonical(nodePath)
      requires if nodePath == "/" then parts == [""] && Ancestors(nodePath) == {}
               else "" !in parts && parts == Segments(nodePath)
      modifies this`nodes
      ensures nodes == WithDirectories(old(nodes), nodePath, description)
    {
      NoneYet(nodes, nodePath, description);
      hide Canonical, Segments, Ancestor, AncestorsUpto, Filled;
      var currentPath := "";
      for i := 0 to |parts|
        invariant nodePath == "/" ==> nodes == old(nodes)
        invariant nodePath != "/" ==> currentPath == if i == 0 then "" else Ancestor(nodePath, i)
        invariant nodePath != "/" ==>
                    nodes == Filled(old(nodes), AncestorsUpto(nodePath, i), nodePath, description)
      {
        var part := parts[i];
        if part == "" {
          continue;
        }
        NextAncestor(nodePath, i);
        NextAncestors(nodePath, i);
        currentPath := currentPath + "/" + part;
        var desc := "";
        if i == |parts| - 1 {
          desc := description;
        }
        FillOne(old(nodes), AncestorsUpto(nodePath, i), currentPath, nodePath, description);
        if currentPath !in nodes {
          nodes := nodes[currentPath := Directory(desc)];
        }
      }
    }

    static lemma NoneYet(nodes: map<string, Node>, path: string, d: string)
      requires path != ""
      ensures AncestorsUpto(path, 0) == {} && Filled(nodes, {}, path, d) == nodes
    {
    }

    static lemma NextAncestor(path: string, i: nat)
      requires Canonical(path) && path != "/" && i < |Segments(path)|
      ensures Ancestor(path, i + 1) == (if i == 0 then "" else Ancestor(path, i)) + "/" + Segments(path)[i]
      ensures Ancestor(path, i + 1) == path <==> i == |Segments(path)| - 1
    {
      var segs := Segments(path);
      CanonicalIsPath(path);
      assert PlainSegments(segs[..i]) && PlainSegments(segs[..i + 1]);
      hide Canonical, Segments;
      PathGrows(segs, i);
    }

    static lemma PathGrows(segs: seq<string>, i: nat)
      requires PlainSegments(segs) && i < |segs|
      ensures Path(segs[..i + 1]) == (if i == 0 then "" else Path(segs[..i])) + "/" + segs[i]
      ensures Path(segs[..i + 1]) == Path(segs) <==> i == |segs| - 1
    {
      var a, b := segs[..i], segs[..i + 1];
      assert a + [segs[i]] == b && (a == [] <==> i == 0);
      PathSnoc(a, segs[i]);
      PathIsCanonical(b);
      PathIsCanonical(segs);
      hide Path, PlainSegments, PlainSegment, Canonical, Segments;
      if i == |segs| - 1 {
        assert b == segs;
      } else {
        assert |b| != |segs|;
      }
    }

    static lemma FillOne(was: map<string, Node>, qs: set<string>, q: string, path: string, d: string)
      ensures var m := Filled(was, qs, path, d);
              Filled(was, qs + {q}, path, d) == if q in m then m else m[q := Directory(if q == path then d else "")]
    {
    }

    static lemma NextAncestors(path: string, i: nat)
      requires path != "" && i < |Segments(path)|
      ensures AncestorsUpto(path, i + 1) == AncestorsUpto(path, i) + {Ancestor(path, i + 1)}
    {
    }

    method CreateLink(path: string, name: string, kind: string, ref: string) returns (ok: bool)
      modifies this`nodes
      ensures Now() == Next(old(Now()), MakeLink(path, name, kind, ref))
      ensures ok ==> Leads(Now(), kind + ":" + ref)
    {
      hide Normalize, WithDirectories, JoinPath, ParseLinkRef, SplitN;
      var treePath := Normalize(path);
      if treePath != "/" {
        CreateTreeDirectory(treePath, "");
      } else {
        RootNeedsNothing(nodes);
      }
      ok := CreateTreeLink(treePath, name, kind, ref);
    }

    static lemma RootNeedsNothing(nodes: map<string, Node>)
      ensures Normalize("/") == "/" && WithDirectories(nodes, "/", "") == nodes
    {
      NormalizeRooted("/");
      DestinationOfRoot();
      assert Ancestors("/") == {};
    }

    method CreateTreeLink(path: string, name: string, kind: string, ref: string) returns (ok: bool)
      modifies this`nodes
      ensures ok <==> RefExists(Now(), kind, ref) && JoinPath(Normalize(path), name) !in old(nodes)
      ensures ok ==> Leads(Now(), kind + ":" + ref)
      ensures nodes == if ok then old(nodes)[JoinPath(Normalize(path), name) := Link("link_" + kind, kind + ":" + ref)]
                       else old(nodes)
    {
      hide Normalize, JoinPath, ParseLinkRef, SplitN;
      var treePath := Normalize(path);
      var fullPath := JoinPath(treePath, name);
      var nodeType;
      if kind == "target" {
        nodeType := "link_target";
      } else if kind == "poller" {
        nodeType := "link_poller";
      } else {
        return false;
      }
      ok := ValidateLinkRef(kind, ref);
      if !ok {
        return;
      }
      NewLinkLeads(Now(), kind, ref);
      assert nodeType == "link_" + kind;
      var formattedRef := kind + ":" + ref;
      if fullPath in nodes {
        return false;
      }
      nodes := nodes[fullPath := Link(nodeType, formattedRef)];
    }

    method ValidateLinkRef(kind: string, ref: string) returns (ok: bool)
      ensures ok <==> RefExists(Now(), kind, ref)
    {
      if kind == "target" {
        return ref in targets;
      }
      if kind == "poller" {
        var parts := SplitN(ref, 2);
        if |parts| != 2 {
          return false;
        }
        return (parts[0], parts[1]) in pollers;
      }
      return false;
    }

    method DeleteTreeNode(path: string, recursive: bool, force: bool) returns (ok: bool, deleted: nat)
      modifies this`nodes
      ensures Now() == Next(old(Now()), DeleteNode(path, recursive, force))
      ensures ok <==> recursive || force || !HasChildren(old(Now()), Normalized(path))
      ensures deleted == |old(nodes)| - |nodes|
    {
      hide Normalize, IsDirectChild, Like;
      var nodePath := Normalize(Normalize(path));
      var children := set q | q in nodes && IsDirectChild(nodePath, q);
      if |children| > 0 && !recursive && !force {
        assert HasChildren(Now(), nodePath) by {
          var q :| q in children;
        }
        return false, 0;
      }
      if HasChildren(Now(), nodePath) {
        var q :| q in nodes && IsDirectChild(nodePath, q);
        assert q in children;
      }
      deleted := DeleteSelected(nodePath, recursive);
      return true, deleted;
    }

    /** The transaction of DeleteTreeNode. */
    method DeleteSelected(nodePath: string, recursive: bool) returns (deleted: nat)
      modifies this`nodes
      ensures nodes == WithoutSelected(old(nodes), nodePath, recursive)
      ensures deleted == |old(nodes)| - |nodes|
    {
      hide Like;
      var gone;
      if recursive {
        gone := set q | q in nodes && (q == nodePath || Like(q, nodePath + "/" + "%"));
      } else {
        gone := set q | q in nodes && q == nodePath;
      }
      PartSize(nodes.Keys, gone);
      nodes := nodes - gone;
      assert nodes.Keys == old(nodes.Keys) - gone;
      return |gone|;
    }
  }
}
