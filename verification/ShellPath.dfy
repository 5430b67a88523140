/** The shell's current path. */
module ShellPaths {
  import opened Text
  import opened Paths

  /** The specification of normalizePath: where the path leads. */
  function Normal(path: string): string {
    Path(Destination(path))
  }

  function Resolve(cwd: string, path: string): string {
    if path == "" then cwd
    else if path[0] == '/' then Normal(path)
    else if cwd == "/" then Normal("/" + path)
    else Normal(cwd + "/" + path)
  }

  lemma NormalIsCanonical(path: string)
    ensures Canonical(Normal(path))
  {
    DestinationIsPlain(path);
    PathIsCanonical(Destination(path));
  }

  /** Exactly the canonical paths are left alone; so normalising twice is normalising
      once. */
  lemma NormalIdempotent(path: string)
    ensures Normal(path) == path <==> Canonical(path)
    ensures Normal(Normal(path)) == Normal(path)
  {
    NormalIsCanonical(path);
    DestinationIsPlain(path);
    DestinationOfPath(Destination(path));
    if Canonical(path) {
      CanonicalIsPath(path);
      DestinationOfPath(Segments(path));
    }
  }

  lemma ResolveIsCanonical(cwd: string, path: string)
    requires Canonical(cwd) || path != ""
    ensures Canonical(Resolve(cwd, path))
    ensures Canonical(path) ==> Resolve(cwd, path) == path
  {
    NormalIsCanonical(path);
    NormalIsCanonical("/" + path);
    NormalIsCanonical(cwd + "/" + path);
    NormalIdempotent(path);
  }

  /** A relative path is walked from the current one. */
  lemma ResolveWalks(cwd: string, path: string)
    requires path != "" && path[0] != '/'
    ensures Resolve(cwd, path) == Path(WalkAll(Destination(cwd), Split(path)))
  {
    DestinationJoin(cwd, path);
    if cwd == "/" {
      DestinationJoin("", path);
      assert "" + "/" + path == "/" + path;
      assert Split("") == [""];
      DestinationOfPath([]);
      assert Destination("/") == [];
    }
  }

  /** Two relative steps are one step along the joined path. */
  lemma ResolveJoins(cwd: string, a: string, b: string)
    requires a != "" && a[0] != '/' && b != "" && b[0] != '/'
    ensures Resolve(Resolve(cwd, a), b) == Resolve(cwd, a + "/" + b)
  {
    ResolveWalks(cwd, a);
    var mid := WalkAll(Destination(cwd), Split(a));
    DestinationIsPlain(cwd);
    WalkStaysPlain(Destination(cwd), Split(a));
    DestinationOfPath(mid);
    ResolveWalks(Path(mid), b);
    ResolveWalks(cwd, a + "/" + b);
    SplitAppend(a, b);
    WalkAppend(Destination(cwd), Split(a), Split(b));
  }

  /** Going down into a name and up again leads back. */
  lemma DownAndUp(cwd: string, name: string)
    requires Canonical(cwd) && PlainSegment(name)
    ensures Resolve(Resolve(cwd, name), "..") == cwd
  {
    assert name[0] in name;
    assert name[0] != '/';
    ResolveWalks(cwd, name);
    CanonicalIsPath(cwd);
    var segs := Segments(cwd);
    DestinationOfPath(segs);
    assert Split(name) == [name];
    assert WalkAll(segs, [name]) == segs + [name];
    DestinationOfPath(segs + [name]);
    ResolveWalks(Path(segs + [name]), "..");
    assert Split("..") == [".."];
    assert (segs + [name])[..|segs|] == segs;
  }

  const VALID_ROOTS: seq<string> := ["/targets", "/tags", "/server", "/session"]

  /** Under one of the top-level directories, or the root itself. */
  ghost predicate Valid(path: string) {
    path == "/" || exists i :: 0 <= i < |VALID_ROOTS| && (path == VALID_ROOTS[i] || VALID_ROOTS[i] + "/" <= path)
  }

  method NormalizePath(path: string) returns (r: string)
    ensures r == Normal(path)
  {
    if path == "" || path == "/" {
      assert Split("") == [""];
      DestinationOfPath([]);
      return "/";
    }
    var parts := Split(path);
    var result: seq<string> := [];
    for i := 0 to |parts|
      invariant WalkAll(result, parts[i..]) == Destination(path)
    {
      var part := parts[i];
      assert parts[i..][1..] == parts[i + 1..];
      if part == "" || part == "." {
      } else if part == ".." {
        if |result| > 0 {
          result := result[..|result| - 1];
        }
      } else {
        result := result + [part];
      }
    }
    assert parts[|parts|..] == [];
    if |result| == 0 {
      return "/";
    }
    return "/" + Join(result);
  }

  class Context {
    var path: string

    constructor ()
      ensures path == "/" && Canonical(path) && Valid(path)
    {
      path := "/";
    }

    method ResolvePath(p: string) returns (r: string)
      ensures r == Resolve(path, p)
    {
      if p == "" {
        return path;
      }
      if p[0] == '/' {
        r := NormalizePath(p);
        return;
      }
      if path == "/" {
        r := NormalizePath("/" + p);
        return;
      }
      r := NormalizePath(path + "/" + p);
    }

    /** The current path stays canonical and valid. */
    method Cd(p: string) returns (ok: bool)
      requires Canonical(path) && Valid(path)
      modifies this
      ensures Canonical(path) && Valid(path)
      ensures ok <==> Valid(Resolve(old(path), p))
      ensures path == if ok then Resolve(old(path), p) else old(path)
    {
      var newPath := ResolvePath(p);
      ResolveIsCanonical(path, p);
      ok := IsValidPath(newPath);
      if ok {
        path := newPath;
      }
    }
  }

  method IsValidPath(path: string) returns (ok: bool)
    ensures ok <==> Valid(path)
  {
    if path == "/" {
      return true;
    }
    for i := 0 to |VALID_ROOTS|
      invariant forall j | 0 <= j < i :: path != VALID_ROOTS[j] && !(VALID_ROOTS[j] + "/" <= path)
    {
      if path == VALID_ROOTS[i] || VALID_ROOTS[i] + "/" <= path {
        return true;
      }
    }
    return false;
  }
}
