/** Slash-separated paths: cleaning, and the two normalisations built on it. */
module Paths {
  import opened Text

  /** A segment that names something. */
  predicate PlainSegment(s: string) {
    SlashFree(s) && s != "" && s != "." && s != ".."
  }

  predicate PlainSegments(segs: seq<string>) {
    forall i | 0 <= i < |segs| :: PlainSegment(segs[i])
  }

  /** The absolute path with these segments. */
  function Path(segs: seq<string>): string {
    "/" + Join(segs)
  }

  function Segments(path: string): seq<string>
    requires path != ""
  {
    if path == "/" then [] else Split(path[1..])
  }

  /** Leading slash, plain segments, nothing else. */
  predicate Canonical(path: string) {
    path != "" && path[0] == '/' && PlainSegments(Segments(path))
  }

  lemma CanonicalIsPath(path: string)
    requires Canonical(path)
    ensures Path(Segments(path)) == path
  {
    if path != "/" {
      JoinSplit(path[1..]);
    }
  }

  lemma PathIsCanonical(segs: seq<string>)
    requires PlainSegments(segs)
    ensures Canonical(Path(segs)) && Segments(Path(segs)) == segs
    ensures segs != [] ==> Path(segs) != "/" && Path(segs)[|Path(segs)| - 1] != '/'
  {
    if segs != [] {
      SplitJoin(segs);
      assert Path(segs)[1..] == Join(segs);
      if Join(segs) == "" {
        assert Split("") == [""];
      }
      LastChar(segs);
    }
  }

  lemma {:induction false} LastChar(segs: seq<string>)
    requires PlainSegments(segs) && segs != []
    ensures Join(segs) != "" && Join(segs)[|Join(segs)| - 1] != '/'
  {
    if |segs| > 1 {
      LastChar(segs[1..]);
    } else {
      assert segs[0][|segs[0]| - 1] in segs[0];
    }
  }

  lemma PathSnoc(segs: seq<string>, s: string)
    requires PlainSegments(segs) && PlainSegment(s)
    ensures Path(segs + [s]) == (if segs == [] then "" else Path(segs)) + "/" + s
  {
    if segs == [] {
      assert segs + [s] == [s];
    } else {
      JoinAppend(segs, [s]);
    }
  }

  // ----- walking -----

  /** Where one part of a path leads from below the root. */
  function Walk(at: seq<string>, part: string): seq<string> {
    if part == "" || part == "." then at
    else if part == ".." then (if at == [] then [] else at[..|at| - 1])
    else at + [part]
  }

  function WalkAll(at: seq<string>, parts: seq<string>): seq<string>
    decreases |parts|
  {
    if parts == [] then at else WalkAll(Walk(at, parts[0]), parts[1..])
  }

  lemma {:induction false} WalkAppend(at: seq<string>, a: seq<string>, b: seq<string>)
    ensures WalkAll(at, a + b) == WalkAll(WalkAll(at, a), b)
    decreases |a|
  {
    if a == [] {
      assert a + b == b;
    } else {
      WalkAppend(Walk(at, a[0]), a[1..], b);
      assert (a + b)[1..] == a[1..] + b;
    }
  }

  lemma {:induction false} WalkPlain(at: seq<string>, parts: seq<string>)
    requires PlainSegments(parts)
    ensures WalkAll(at, parts) == at + parts
    decreases |parts|
  {
    if parts != [] {
      WalkPlain(at + [parts[0]], parts[1..]);
      assert at + [parts[0]] + parts[1..] == at + parts;
    }
  }

  lemma {:induction false} WalkStaysPlain(at: seq<string>, parts: seq<string>)
    requires PlainSegments(at) && forall i | 0 <= i < |parts| :: SlashFree(parts[i])
    ensures PlainSegments(WalkAll(at, parts))
    decreases |parts|
  {
    if parts != [] {
      WalkStaysPlain(Walk(at, parts[0]), parts[1..]);
    }
  }

  /** Where a path leads from the root. */
  function Destination(path: string): seq<string> {
    WalkAll([], Split(path))
  }

  lemma DestinationIsPlain(path: string)
    ensures PlainSegments(Destination(path))
  {
    WalkStaysPlain([], Split(path));
  }

  lemma DestinationOfRoot()
    ensures Destination("/") == []
  {
    SplitCons("", "");
    assert "" + "/" + "" == "/" && Split("") == [""];
    assert ["", ""][1..] == [""];
    assert WalkAll([], [""]) == [];
  }

  /** A canonical path leads to its own segments. */
  lemma DestinationOfPath(segs: seq<string>)
    requires PlainSegments(segs)
    ensures Destination(Path(segs)) == segs
  {
    if segs == [] {
      DestinationOfRoot();
    } else {
      SplitCons("", Join(segs));
      assert "" + "/" + Join(segs) == Path(segs);
      SplitJoin(segs);
      WalkPlain([], segs);
      assert ([""] + segs)[1..] == segs;
    }
  }

  /** Walking a path and then another. */
  lemma DestinationJoin(a: string, b: string)
    ensures Destination(a + "/" + b) == WalkAll(Destination(a), Split(b))
  {
    SplitAppend(a, b);
    WalkAppend([], Split(a), Split(b));
  }

  // ----- the store's normalizePath -----

  /** The same for a path that does not start at the root: ".." at the front stays. */
  function WalkRelative(at: seq<string>, part: string): seq<string> {
    if part == "" || part == "." then at
    else if part == ".." then (if at == [] || at[|at| - 1] == ".." then at + [".."] else at[..|at| - 1])
    else at + [part]
  }

  function WalkAllRelative(at: seq<string>, parts: seq<string>): seq<string>
    decreases |parts|
  {
    if parts == [] then at else WalkAllRelative(WalkRelative(at, parts[0]), parts[1..])
  }

  /** Go's path.Clean. */
  function Clean(p: string): string {
    if p != "" && p[0] == '/' then Path(Destination(p))
    else
      var segs := WalkAllRelative([], Split(p));
      if segs == [] then "." else Join(segs)
  }

  function Normalize(path: string): (r: string)
    ensures r != "" && r[0] == '/'
  {
    var p := Clean(path);
    var q := if p != "" && p[0] == '/' then p else "/" + p;
    if q != "/" && q[|q| - 1] == '/' then q[..|q| - 1] else q
  }

  lemma NormalizeRooted(path: string)
    requires path != "" && path[0] == '/'
    ensures Normalize(path) == Path(Destination(path))
  {
    hide Destination, PlainSegments, Segments;
    DestinationIsPlain(path);
    PathIsCanonical(Destination(path));
  }

  lemma NormalizeCanonical(path: string)
    requires Canonical(path)
    ensures Normalize(path) == path
  {
    NormalizeRooted(path);
    CanonicalIsPath(path);
    DestinationOfPath(Segments(path));
  }

  /** One normalisation leaves "." and leading ".." of relative paths in; the second
      takes them out: what the manager and the store do together is canonical. */
  lemma NormalizeTwice(path: string)
    ensures Canonical(Normalize(Normalize(path)))
    ensures Normalize(Normalize(Normalize(path))) == Normalize(Normalize(path))
  {
    var p := Normalize(path);
    NormalizeRooted(p);
    DestinationIsPlain(p);
    PathIsCanonical(Destination(p));
    NormalizeCanonical(Normalize(p));
  }

  /** Upward segments come first, and the others are plain. */
  ghost predicate UpThenDown(w: seq<string>) {
    && (forall i | 0 <= i < |w| :: w[i] == ".." || PlainSegment(w[i]))
    && (forall i, j | 0 <= i < j < |w| :: w[j] == ".." ==> w[i] == "..")
  }

  lemma {:induction false} WalkRelativeShape(at: seq<string>, parts: seq<string>)
    requires UpThenDown(at) && forall i | 0 <= i < |parts| :: SlashFree(parts[i])
    ensures UpThenDown(WalkAllRelative(at, parts))
    decreases |parts|
  {
    if parts != [] {
      var next := WalkRelative(at, parts[0]);
      assert UpThenDown(next) by {
        hide WalkAllRelative;
        if parts[0] == ".." && next == at + [".."] && at != [] {
          assert forall i | 0 <= i < |at| :: at[i] == "..";
        }
      }
      WalkRelativeShape(next, parts[1..]);
    }
  }

  /** Segments without slashes, none of them empty, are the segments of their path. */
  lemma SegmentsOfJoin(w: seq<string>)
    requires w != [] && forall i | 0 <= i < |w| :: SlashFree(w[i]) && w[i] != ""
    ensures Join(w) != "" && Join(w)[0] != '/' && Join(w)[|Join(w)| - 1] != '/'
    ensures Segments("/" + Join(w)) == w
  {
    SplitJoin(w);
    EndsOfJoin(w);
    assert ("/" + Join(w))[1..] == Join(w);
  }

  lemma {:induction false} EndsOfJoin(w: seq<string>)
    requires w != [] && forall i | 0 <= i < |w| :: SlashFree(w[i]) && w[i] != ""
    ensures Join(w) != "" && Join(w)[0] != '/' && Join(w)[|Join(w)| - 1] != '/'
  {
    assert w[0][0] in w[0] && w[0][|w[0]| - 1] in w[0];
    if |w| > 1 {
      EndsOfJoin(w[1..]);
    }
  }

  /** What a relative path comes to. */
  lemma NormalizeRelative(path: string)
    requires path == "" || path[0] != '/'
    ensures var w := WalkAllRelative([], Split(path));
            && UpThenDown(w)
            && Segments(Normalize(path)) == (if w == [] then ["."] else w)
            && (w == [] ==> Normalize(path) == "/.")
  {
    var w := WalkAllRelative([], Split(path));
    WalkRelativeShape([], Split(path));
    assert Join(["."]) == ".";
    RootedSegments(path, if w == [] then ["."] else w);
  }

  /** Segments that a relative path is cleaned to are the segments of its normal form. */
  lemma RootedSegments(path: string, w: seq<string>)
    requires w != [] && forall i | 0 <= i < |w| :: SlashFree(w[i]) && w[i] != ""
    requires Clean(path) == Join(w)
    ensures Normalize(path) == "/" + Join(w) && Segments(Normalize(path)) == w
  {
    SegmentsOfJoin(w);
    hide Split, SlashFree, Clean, Join, Segments;
    var c := Join(w);
    assert ("/" + c)[|c|] == c[|c| - 1];
  }

  /** The path starts at the root, or leads to something below where it starts. */
  predicate LeadsDown(path: string) {
    || (path != "" && path[0] == '/')
    || (var w := WalkAllRelative([], Split(path)); w != [] && w[0] != "..")
  }

  /** So one normalisation is enough exactly for the paths that lead down. */
  lemma NormalizeAgainIff(path: string)
    ensures Canonical(Normalize(path)) <==> LeadsDown(path)
    ensures Normalize(Normalize(path)) == Normalize(path) <==> LeadsDown(path)
    ensures Normalize("") == "/."
  {
    NormalizeTwice(path);
    NormalizeRelative("");
    assert Split("") == [""] && WalkAllRelative([], [""]) == [];
    if path != "" && path[0] == '/' {
      NormalizeRooted(path);
      DestinationIsPlain(path);
      PathIsCanonical(Destination(path));
    } else {
      NormalizeRelative(path);
      var segs := Segments(Normalize(path));
      assert PlainSegments(segs) <==> LeadsDown(path) by {
        hide Split, WalkAllRelative;
        assert segs != [] && (segs[0] == "." || segs[0] == ".." ==> !PlainSegment(segs[0]));
      }
    }
    if Canonical(Normalize(path)) {
      NormalizeCanonical(Normalize(path));
    }
  }

  // ----- where both normalisations lead -----

  lemma WalkSnoc(at: seq<string>, parts: seq<string>, part: string)
    ensures WalkAll(at, parts + [part]) == Walk(WalkAll(at, parts), part)
  {
    WalkAppend(at, parts, [part]);
    assert [part][1..] == [];
  }

  lemma {:induction false} UpFromRoot(ups: seq<string>)
    requires forall i | 0 <= i < |ups| :: ups[i] == ".."
    ensures WalkAll([], ups) == []
    decreases |ups|
  {
    if ups != [] {
      UpFromRoot(ups[1..]);
    }
  }

  /** Walking what one more relative part comes to is walking that part. */
  lemma WalkOneRelative(at: seq<string>, part: string)
    requires UpThenDown(at)
    ensures WalkAll([], WalkRelative(at, part)) == Walk(WalkAll([], at), part)
  {
    hide WalkAll;
    if part == ".." && (at == [] || at[|at| - 1] == "..") {
      assert forall i | 0 <= i < |at| :: at[i] == "..";
      UpFromRoot(at);
      UpFromRoot(at + [".."]);
    } else if part == ".." {
      var n := |at| - 1;
      WalkSnoc([], at[..n], at[n]);
      assert at[..n] + [at[n]] == at && PlainSegment(at[n]);
    } else {
      WalkSnoc([], at, part);
    }
  }

  lemma {:induction false} WalkAllRelativeLeads(at: seq<string>, parts: seq<string>)
    requires UpThenDown(at) && forall i | 0 <= i < |parts| :: SlashFree(parts[i])
    ensures WalkAll([], WalkAllRelative(at, parts)) == WalkAll(WalkAll([], at), parts)
    decreases |parts|
  {
    if parts != [] {
      WalkOneRelative(at, parts[0]);
      WalkRelativeShape(at, [parts[0]]);
      assert [parts[0]][1..] == [] && WalkAllRelative(at, [parts[0]]) == WalkRelative(at, parts[0]);
      WalkAllRelativeLeads(WalkRelative(at, parts[0]), parts[1..]);
    }
  }

  /** Both normalisations together lead where the path leads from the root, whether it
      starts there or not. */
  lemma NormalizeTwiceLeads(path: string)
    ensures Normalize(Normalize(path)) == Path(Destination(path))
  {
    var p := Normalize(path);
    NormalizeRooted(p);
    if path != "" && path[0] == '/' {
      NormalizeRooted(path);
      DestinationIsPlain(path);
      DestinationOfPath(Destination(path));
    } else {
      NormalizeRelative(path);
      var w := WalkAllRelative([], Split(path));
      WalkAllRelativeLeads([], Split(path));
      assert WalkAll([], []) == [];
      DestinationBySegments(p);
      if w == [] {
        assert ["."][1..] == [] && WalkAll([], ["."]) == WalkAll([], []);
      }
    }
  }

  lemma DestinationBySegments(p: string)
    requires p != "" && p[0] == '/'
    ensures Destination(p) == WalkAll([], Segments(p))
  {
    assert p == "" + "/" + p[1..];
    DestinationJoin("", p[1..]);
    assert Split("") == [""] && [""][1..] == [] && WalkAll([], [""]) == WalkAll([], []);
    if p == "/" {
      assert Split("") == [""];
    }
  }
}
