/**
 * `normalize_path` of src/init.rs: resolve the components of a configured path against
 * a rooted directory, as a stack of segments.
 */
module Paths {
  import opened Results
  import opened Errors

  /** `std::path::Component` without the Windows `Prefix`. */
  datatype Component = RootDir | CurDir | ParentDir | Normal(name: string)

  /**
   * A rooted `PathBuf`: `/` followed by `segments` joined with `/`, and one more `/`
   * when `trailingSlash` holds (as in a `relative_to` written `/foo/bar/baz/`).
   * Being rooted is built into the type: every value has `has_root()`.
   */
  datatype AbsPath = AbsPath(segments: seq<string>, trailingSlash: bool)

  function Join(segs: seq<string>): string
    decreases |segs|
  {
    if segs == [] then ""
    else if |segs| == 1 then segs[0]
    else segs[0] + "/" + Join(segs[1..])
  }

  /** `to_str()` of the path: it always starts at the root. */
  function Render(p: AbsPath): (s: string)
    ensures |s| >= 1 && s[0] == '/'
  {
    "/" + Join(p.segments) + (if p.trailingSlash && p.segments != [] then "/" else "")
  }

  /** `PathBuf::push` of a normal component. */
  function Push(p: AbsPath, name: string): AbsPath {
    AbsPath(p.segments + [name], false)
  }

  /** `PathBuf::pop` on a path that has a parent: truncate to the parent. */
  function Pop(p: AbsPath): AbsPath
    requires p.segments != []
  {
    AbsPath(p.segments[..|p.segments| - 1], false)
  }

  /** One iteration of the `for` loop of `normalize_path`; `None` is the failed `pop`. */
  function Step(p: AbsPath, c: Component): Option<AbsPath> {
    match c
    case RootDir => Some(p)
    case CurDir => Some(p)
    case ParentDir => if p.segments == [] then None else Some(Pop(p))
    case Normal(name) => Some(Push(p, name))
  }

  /** The whole loop: `Some` of the final path, or `None` once a `..` would pass the root. */
  function Walk(p: AbsPath, comps: seq<Component>): Option<AbsPath>
    decreases |comps|
  {
    if comps == [] then Some(p)
    else
      match Step(p, comps[0])
      case None => None
      case Some(q) => Walk(q, comps[1..])
  }

  /** What `normalize_path(path, relative_to)` returns, `comps` being `path.components()`. */
  function Normalize(path: string, comps: seq<Component>, relativeTo: AbsPath): Result<AbsPath, NormalizePathError> {
    match Walk(relativeTo, comps)
    case Some(p) => Ok(p)
    case None => Err(GoesThruRoot(path))
  }

  /** `normalize_path`: pop on `..`, push on a name, ignore `/` and `.`, stop at the root. */
  method NormalizePath(path: string, comps: seq<Component>, relativeTo: AbsPath)
    returns (r: Result<AbsPath, NormalizePathError>)
    ensures r == Normalize(path, comps, relativeTo)
  {
    var res := relativeTo;
    for i := 0 to |comps|
      invariant Walk(relativeTo, comps) == Walk(res, comps[i..])
    {
      assert comps[i..][0] == comps[i] && comps[i..][1..] == comps[i + 1..];
      match comps[i]
      case RootDir =>
      case CurDir =>
      case ParentDir =>
        if res.segments == [] {
          return Err(GoesThruRoot(path));
        }
        res := Pop(res);
      case Normal(name) =>
        res := Push(res, name);
    }
    assert comps[|comps|..] == [];
    return Ok(res);
  }

  /** Number of `..` components. */
  function Pops(comps: seq<Component>): nat
    decreases |comps|
  {
    if comps == [] then 0 else (if comps[0] == ParentDir then 1 else 0) + Pops(comps[1..])
  }

  /** Number of normal (name) components. */
  function Pushes(comps: seq<Component>): nat
    decreases |comps|
  {
    if comps == [] then 0 else (if comps[0].Normal? then 1 else 0) + Pushes(comps[1..])
  }

  /** `p` walked with `comps` climbs above the root somewhere in `comps`. */
  ghost predicate ClimbsPastRoot(p: AbsPath, comps: seq<Component>) {
    exists k :: 0 <= k <= |comps| && Pops(comps[..k]) > |p.segments| + Pushes(comps[..k])
  }

  /**
   * Normalisation fails exactly when some prefix of the components holds more `..`
   * than the depth of the start plus the names in that prefix.
   */
  lemma {:induction false} WalkFailsIff(p: AbsPath, comps: seq<Component>)
    ensures Walk(p, comps).None? <==> ClimbsPastRoot(p, comps)
    decreases |comps|
  {
    assert comps[..0] == [];
    if comps == [] {
      forall k | 0 <= k <= |comps|
        ensures Pops(comps[..k]) <= |p.segments| + Pushes(comps[..k])
      {
        assert comps[..k] == [];
      }
    } else {
      var c, rest := comps[0], comps[1..];
      forall k | 1 <= k <= |comps|
        ensures comps[..k] == [c] + rest[..k - 1]
      {
      }
      forall k | 1 <= k <= |comps|
        ensures comps[..k][0] == c && comps[..k][1..] == rest[..k - 1]
      {
      }
      match Step(p, c)
      case None =>
        assert Pops(comps[..1]) > |p.segments| + Pushes(comps[..1]);
      case Some(q) =>
        WalkFailsIff(q, rest);
        var d, e := |p.segments|, |q.segments|;
        assert e + (if c == ParentDir then 1 else 0) == d + (if c.Normal? then 1 else 0);
        forall k | 1 <= k <= |comps|
          ensures (Pops(comps[..k]) > d + Pushes(comps[..k]))
              == (Pops(rest[..k - 1]) > e + Pushes(rest[..k - 1]))
        {
        }
        if ClimbsPastRoot(p, comps) {
          var k :| 0 <= k <= |comps| && Pops(comps[..k]) > d + Pushes(comps[..k]);
          assert k >= 1;
          assert 0 <= k - 1 <= |rest| && Pops(rest[..k - 1]) > e + Pushes(rest[..k - 1]);
        }
        if ClimbsPastRoot(q, rest) {
          var j :| 0 <= j <= |rest| && Pops(rest[..j]) > e + Pushes(rest[..j]);
          assert 1 <= j + 1 <= |comps|;
          assert Pops(comps[..j + 1]) > d + Pushes(comps[..j + 1]);
        }
    }
  }

  /** A successful walk ends at the start's depth plus the names minus the `..`s. */
  lemma {:induction false} WalkDepth(p: AbsPath, comps: seq<Component>)
    requires Walk(p, comps).Some?
    ensures |Walk(p, comps).value.segments| == |p.segments| + Pushes(comps) - Pops(comps)
    decreases |comps|
  {
    if comps != [] {
      WalkDepth(Step(p, comps[0]).value, comps[1..]);
    }
  }

  /** Walking a concatenation is walking the first part, then the second from where it ended. */
  lemma {:induction false} WalkConcat(p: AbsPath, a: seq<Component>, b: seq<Component>)
    ensures Walk(p, a + b) == if Walk(p, a).None? then None else Walk(Walk(p, a).value, b)
    decreases |a|
  {
    if a == [] {
      assert a + b == b;
    } else {
      assert (a + b)[0] == a[0] && (a + b)[1..] == a[1..] + b;
      match Step(p, a[0])
      case None =>
      case Some(q) => WalkConcat(q, a[1..], b);
    }
  }

  /**
   * The effect of one more component on a path walked so far: a name appends one
   * segment, `..` removes the last one or fails at the root, `/` and `.` change nothing.
   */
  lemma WalkLastComponent(p: AbsPath, comps: seq<Component>, c: Component)
    requires Walk(p, comps).Some?
    ensures var q := Walk(p, comps).value;
      match c
      case Normal(name) => Walk(p, comps + [c]) == Some(AbsPath(q.segments + [name], false))
      case ParentDir =>
        if q.segments == [] then Walk(p, comps + [c]).None?
        else Walk(p, comps + [c]) == Some(AbsPath(q.segments[..|q.segments| - 1], false))
      case _ => Walk(p, comps + [c]) == Some(q)
  {
    WalkConcat(p, comps, [c]);
    assert [c][1..] == [];
  }

  /** The components left when every `/` and `.` is dropped. */
  function Significant(comps: seq<Component>): (r: seq<Component>)
    ensures forall i :: 0 <= i < |r| ==> r[i] != RootDir && r[i] != CurDir
    decreases |comps|
  {
    if comps == [] then []
    else if comps[0] == RootDir || comps[0] == CurDir then Significant(comps[1..])
    else [comps[0]] + Significant(comps[1..])
  }

  /**
   * `/` and `.` components have no effect anywhere, so an absolute path handed to
   * `normalize_path` directly is resolved as if it were relative.
   */
  lemma {:induction false} WalkIgnoresRootAndCurDir(p: AbsPath, comps: seq<Component>)
    ensures Walk(p, comps) == Walk(p, Significant(comps))
    decreases |comps|
  {
    if comps != [] {
      var s := Significant(comps);
      if comps[0] == RootDir || comps[0] == CurDir {
        WalkIgnoresRootAndCurDir(p, comps[1..]);
      } else {
        assert s[0] == comps[0] && s[1..] == Significant(comps[1..]);
        match Step(p, comps[0])
        case None =>
        case Some(q) => WalkIgnoresRootAndCurDir(q, comps[1..]);
      }
    }
  }

  /** The cases of the unit test of src/init.rs, the components being those `PathBuf::components` yields. */
  lemma NormalizeExamples()
    ensures var baz := AbsPath(["foo", "bar", "baz"], false);
      Normalize("..", [ParentDir], baz).Ok?
      && Render(Normalize("..", [ParentDir], baz).value) == "/foo/bar"
    ensures var bazSlash := AbsPath(["foo", "bar", "baz"], true);
      && Normalize("..", [ParentDir], bazSlash).Ok?
      && Render(Normalize("..", [ParentDir], bazSlash).value) == "/foo/bar"
      && Normalize("/../../", [RootDir, ParentDir, ParentDir], bazSlash).Ok?
      && Render(Normalize("/../../", [RootDir, ParentDir, ParentDir], bazSlash).value) == "/foo"
      && Normalize("./x", [CurDir, Normal("x")], bazSlash).Ok?
      && Render(Normalize("./x", [CurDir, Normal("x")], bazSlash).value) == "/foo/bar/baz/x"
      && Normalize("../x", [ParentDir, Normal("x")], bazSlash).Ok?
      && Render(Normalize("../x", [ParentDir, Normal("x")], bazSlash).value) == "/foo/bar/x"
      && Normalize("../../../..", [ParentDir, ParentDir, ParentDir, ParentDir], bazSlash)
         == Err(GoesThruRoot("../../../.."))
  {
    var bazSlash := AbsPath(["foo", "bar", "baz"], true);
    var fooBar := AbsPath(["foo", "bar"], false);
    assert bazSlash.segments[..2] == fooBar.segments;
    assert fooBar.segments[..1] == ["foo"];
    assert fooBar.segments + ["x"] == ["foo", "bar", "x"];
    assert bazSlash.segments + ["x"] == ["foo", "bar", "baz", "x"];
    assert Join(["bar"]) == "bar";
    assert Join(fooBar.segments) == "foo/bar";
    var rpp: seq<Component> := [RootDir, ParentDir, ParentDir];
    assert rpp[1..] == [ParentDir, ParentDir] && rpp[2..] == [ParentDir];
    assert Walk(bazSlash, [ParentDir]) == Some(fooBar);
    assert Walk(bazSlash, [ParentDir, ParentDir]) == Walk(fooBar, [ParentDir]) == Some(AbsPath(["foo"], false));
    assert Walk(bazSlash, rpp) == Some(AbsPath(["foo"], false));
    var x := AbsPath(["foo", "bar", "baz", "x"], false);
    var cx: seq<Component> := [CurDir, Normal("x")];
    assert cx[1..] == [Normal("x")];
    assert Walk(bazSlash, [Normal("x")]) == Some(x);
    assert Walk(bazSlash, cx) == Some(x);
    assert Join(["baz", "x"]) == "baz/x";
    assert Join(["bar", "baz", "x"]) == "bar/baz/x";
    assert Join(x.segments) == "foo/bar/baz/x";
    var y := AbsPath(["foo", "bar", "x"], false);
    var px: seq<Component> := [ParentDir, Normal("x")];
    assert px[1..] == [Normal("x")];
    assert Walk(fooBar, [Normal("x")]) == Some(y);
    assert Walk(bazSlash, px) == Some(y);
    assert Join(["bar", "x"]) == "bar/x";
    assert Join(y.segments) == "foo/bar/x";
  }
}
