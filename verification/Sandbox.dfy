/** Lexical path normalisation and sandbox containment. */
module Sandbox {
  import opened Wrappers

  /** A path component's name: compared, never looked into. */
  type Name(==, !new)

  datatype Component = RootDir | CurDir | ParentDir | Normal(name: Name)

  type Path = seq<Component>

  /** What the component iterator of a path yields: a root only at the front. */
  predicate IsPath(path: Path) {
    forall k | 1 <= k < |path| :: !path[k].RootDir?
  }

  predicate IsAbsolute(path: Path) {
    path != [] && path[0].RootDir?
  }

  /** `PathBuf::push`, where an absolute component replaces the whole path. */
  function Push(path: Path, component: Component): Path {
    if component.RootDir? then [RootDir] else path + [component]
  }

  /** Whether `PathBuf::pop` finds something to remove: not on the empty path, nor on the root. */
  predicate CanPop(path: Path) {
    path != [] && !path[|path| - 1].RootDir?
  }

  /** The loop of `normalize_path_components` from a buffer on; nothing when it climbs too far. */
  function NormalizeFrom(out: Path, path: Path): Option<Path>
    decreases |path|
  {
    if path == [] then Some(out) else
    match path[0]
    case ParentDir => if CanPop(out) then NormalizeFrom(out[..|out| - 1], path[1..]) else None
    case CurDir => NormalizeFrom(out, path[1..])
    case other => NormalizeFrom(Push(out, other), path[1..])
  }

  function Normalized(path: Path): Path {
    match NormalizeFrom([], path)
    case None => []
    case Some(out) => out
  }

  method NormalizePathComponents(path: Path) returns (out: Path)
    ensures out == Normalized(path)
  {
    out := [];
    for k := 0 to |path|
      invariant NormalizeFrom([], path) == NormalizeFrom(out, path[k..])
    {
      assert path[k..][1..] == path[k + 1..];
      match path[k]
      case ParentDir =>
        if !CanPop(out) {
          return [];
        }
        out := out[..|out| - 1];
      case CurDir =>
      case other => out := Push(out, other);
    }
  }

  /** The lexical branch of `file_sandbox_contains`. */
  predicate Contains(base: Path, target: Path) {
    Normalized(base) != [] && Normalized(target) != [] && Normalized(base) <= Normalized(target)
  }

  // ---- What a path means: where a walk along it ends ----

  /** A directory without symlinks, named from the root. */
  type Location = seq<Name>

  /** One step of a walk; the parent of the root is the root. */
  function Go(at: Location, component: Component): Location {
    match component
    case RootDir => []
    case CurDir => at
    case ParentDir => if at == [] then [] else at[..|at| - 1]
    case Normal(name) => at + [name]
  }

  function Walk(at: Location, path: Path): Location
    decreases |path|
  {
    if path == [] then at else Walk(Go(at, path[0]), path[1..])
  }

  /** How far below its start a walk is after a path: names go down, parents go up. */
  function Depth(path: Path): int {
    if path == [] then 0 else
    Depth(path[..|path| - 1]) + match path[|path| - 1] case Normal(_) => 1 case ParentDir => -1 case _ => 0
  }

  /** At some point the walk is above its start. */
  ghost predicate Climbs(path: Path) {
    exists k :: 0 <= k <= |path| && Depth(path[..k]) < 0
  }

  /** A path that leads out of where it starts, or nowhere. */
  ghost predicate Escapes(path: Path) {
    Climbs(path) || (!IsAbsolute(path) && Depth(path) == 0)
  }

  // ---- Normal forms ----

  /** Nothing but an optional root and names. */
  predicate IsNormal(path: Path) {
    forall k | 0 <= k < |path| :: path[k].Normal? || (k == 0 && path[k].RootDir?)
  }

  /** The names in a normal path. */
  function Names(path: Path): nat {
    |path| - if IsAbsolute(path) then 1 else 0
  }

  lemma {:induction false} WalkConcat(at: Location, first: Path, second: Path)
    ensures Walk(at, first + second) == Walk(Walk(at, first), second)
    decreases |first|
  {
    if first == [] {
      assert first + second == second;
    } else {
      assert (first + second)[1..] == first[1..] + second;
      WalkConcat(Go(at, first[0]), first[1..], second);
    }
  }

  lemma WalkPush(at: Location, path: Path, component: Component)
    ensures Walk(at, path + [component]) == Go(Walk(at, path), component)
  {
    WalkConcat(at, path, [component]);
    assert Walk(Walk(at, path), [component]) == Walk(Go(Walk(at, path), component), []);
  }

  /** Going into a directory and up again leads nowhere else. */
  lemma WalkPop(at: Location, path: Path)
    requires IsNormal(path) && CanPop(path)
    ensures Go(Walk(at, path), ParentDir) == Walk(at, path[..|path| - 1])
  {
    var last := |path| - 1;
    assert path == path[..last] + [path[last]];
    WalkPush(at, path[..last], path[last]);
  }

  lemma {:induction false} DepthFirst(path: Path)
    requires path != []
    ensures Depth(path) == Depth(path[..1]) + Depth(path[1..])
    decreases |path|
  {
    if |path| == 1 {
      assert path[..1] == path;
    } else {
      var last := |path| - 1;
      DepthFirst(path[..last]);
      assert path[..last][..1] == path[..1] && path[..last][1..] == path[1..][..last - 1];
    }
  }

  /**
   * The loop, from a normal buffer on: it stops exactly when the walk would leave the buffer
   * behind, and otherwise ends with a normal path of the right depth that leads to the same place.
   */
  lemma {:induction false} NormalizeFromWalks(out: Path, path: Path, at: Location)
    requires IsNormal(out) && forall k | 0 <= k < |path| :: !path[k].RootDir?
    ensures NormalizeFrom(out, path).None? <==> exists k :: 0 <= k <= |path| && Names(out) + Depth(path[..k]) < 0
    ensures var r := NormalizeFrom(out, path);
            r.Some? ==>
              && IsNormal(r.value) && IsAbsolute(r.value) == IsAbsolute(out)
              && Names(r.value) == Names(out) + Depth(path)
              && Walk(at, r.value) == Walk(Walk(at, out), path)
    decreases |path|
  {
    if path == [] {
      assert path[..0] == [];
    } else {
      var rest := path[1..];
      DepthFirst(path);
      assert path[..1] == [path[0]] && path[..1][..0] == [];
      forall k | 1 <= k <= |path| ensures Depth(path[..k]) == Depth(path[..1]) + Depth(rest[..k - 1]) {
        DepthFirst(path[..k]);
        assert path[..k][1..] == rest[..k - 1] && path[..k][..1] == path[..1];
      }
      if path[0].ParentDir? && !CanPop(out) {
        assert Depth(path[..1]) == -1 && Names(out) == 0;
      } else {
        var next := if path[0].ParentDir? then out[..|out| - 1] else if path[0].CurDir? then out
            else Push(out, path[0]);
        NormalizeFromWalks(next, rest, at);
        assert Walk(at, next) == Go(Walk(at, out), path[0]) by {
          if path[0].ParentDir? {
            WalkPop(at, out);
          } else if path[0].Normal? {
            WalkPush(at, out, path[0]);
          }
        }
        assert Names(next) == Names(out) + Depth(path[..1]);
        if k :| 0 <= k <= |path| && Names(out) + Depth(path[..k]) < 0 {
          assert Names(next) + Depth(rest[..k - 1]) < 0;
        }
        if k :| 0 <= k <= |rest| && Names(next) + Depth(rest[..k]) < 0 {
          assert Names(out) + Depth(path[..k + 1]) < 0;
        }
      }
    }
  }

  lemma {:induction false} NormalStays(out: Path, path: Path)
    requires IsNormal(out + path) && (out == [] || !IsAbsolute(path))
    ensures NormalizeFrom(out, path) == Some(out + path)
    decreases |path|
  {
    if path == [] {
      assert out + path == out;
    } else {
      assert (out + path)[|out|] == path[0];
      assert Push(out, path[0]) == out + [path[0]];
      assert out + path == (out + [path[0]]) + path[1..];
      assert |path| > 1 ==> (out + path)[|out| + 1] == path[1..][0];
      NormalStays(out + [path[0]], path[1..]);
    }
  }

  /**
   * Normalising gives the end point of the walk. The result is empty exactly when the walk climbs
   * above its start or, for a relative path, ends there; otherwise it holds no `.` and no `..`,
   * leads from any directory to the same place as the path, and normalising it again changes nothing.
   */
  lemma NormalizationIsTheWalk(path: Path, at: Location)
    requires IsPath(path)
    ensures Normalized(path) == [] <==> Escapes(path)
    ensures IsNormal(Normalized(path))
    ensures Normalized(path) != [] ==>
      IsAbsolute(Normalized(path)) == IsAbsolute(path) && Walk(at, Normalized(path)) == Walk(at, path)
    ensures Normalized(Normalized(path)) == Normalized(path)
  {
    if IsAbsolute(path) {
      var rest := path[1..];
      assert NormalizeFrom([], path) == NormalizeFrom([RootDir], rest);
      NormalizeFromWalks([RootDir], rest, at);
      assert Walk(at, [RootDir]) == Walk([], []) == Walk(Go(at, RootDir), []);
      RootHasNoDepth(path);
    } else {
      NormalizeFromWalks([], path, at);
    }
    assert [] + Normalized(path) == Normalized(path);
    NormalStays([], Normalized(path));
  }

  lemma RootHasNoDepth(path: Path)
    requires IsAbsolute(path)
    ensures Climbs(path) <==> exists k :: 0 <= k <= |path| - 1 && Names([RootDir]) + Depth(path[1..][..k]) < 0
  {
    var rest := path[1..];
    assert path[..0] == [] && path[..1][..0] == [];
    forall k | 1 <= k <= |path| ensures Depth(path[..k]) == Depth(rest[..k - 1]) {
      DepthFirst(path[..k]);
      assert path[..k][1..] == rest[..k - 1] && path[..k][..1] == [RootDir] && [RootDir][..0] == [];
    }
    if k :| 0 <= k <= |path| && Depth(path[..k]) < 0 {
      assert Names([RootDir]) + Depth(rest[..k - 1]) < 0;
    }
    if k :| 0 <= k <= |rest| && Names([RootDir]) + Depth(rest[..k]) < 0 {
      assert Depth(path[..k + 1]) < 0;
    }
  }

  // ---- Containment ----

  /** The names in a normal path, in order. */
  function Labels(path: Path): seq<Name>
    requires IsNormal(path)
  {
    var off := |path| - Names(path);
    seq(Names(path), k requires 0 <= k < Names(path) => path[off + k].name)
  }

  /** From any directory, a normal path adds its names. */
  lemma {:induction false} WalkOfNormal(at: Location, path: Path)
    requires IsNormal(path)
    ensures Walk(at, path) == (if IsAbsolute(path) then [] else at) + Labels(path)
    decreases |path|
  {
    if path == [] {
      assert at + Labels(path) == at;
    } else {
      var last := |path| - 1;
      assert path == path[..last] + [path[last]];
      WalkPush(at, path[..last], path[last]);
      WalkOfNormal(at, path[..last]);
      if path[last].RootDir? {
        assert path[..last] == [] && Labels(path) == [];
      } else {
        assert Labels(path) == Labels(path[..last]) + [path[last].name];
      }
    }
  }

  lemma PrefixOfLabels(base: Path, target: Path)
    requires IsNormal(base) && IsNormal(target) && IsAbsolute(base) == IsAbsolute(target)
    ensures base <= target <==> Labels(base) <= Labels(target)
  {
    var off := if IsAbsolute(base) then 1 else 0;
    if base <= target {
      forall k | 0 <= k < |Labels(base)| ensures Labels(base)[k] == Labels(target)[k] {
        assert base[off + k] == target[off + k];
      }
    }
    if Labels(base) <= Labels(target) {
      forall k | off <= k < |base| ensures base[k] == target[k] {
        assert Labels(base)[k - off] == Labels(target)[k - off];
      }
    }
  }

  /** Two normal paths of a kind are one inside the other exactly when the places they lead to are. */
  lemma PrefixIsContainment(base: Path, target: Path, at: Location)
    requires IsNormal(base) && IsNormal(target) && IsAbsolute(base) == IsAbsolute(target)
    ensures base <= target <==> Walk(at, base) <= Walk(at, target)
  {
    WalkOfNormal(at, base);
    WalkOfNormal(at, target);
    PrefixOfLabels(base, target);
    var start := if IsAbsolute(base) then [] else at;
    var b, t := Labels(base), Labels(target);
    assert forall k | 0 <= k < |b| :: (start + b)[|start| + k] == b[k];
    assert forall k | 0 <= k < |t| :: (start + t)[|start| + k] == t[k];
  }

  /**
   * The sandbox check: a target is contained exactly when neither path escapes, both are absolute
   * or both relative, and from any working directory the target leads into the subtree of the base.
   */
  lemma ContainmentIsSubtree(base: Path, target: Path, at: Location)
    requires IsPath(base) && IsPath(target)
    ensures Contains(base, target) <==>
      && !Escapes(base) && !Escapes(target)
      && IsAbsolute(base) == IsAbsolute(target)
      && Walk(at, base) <= Walk(at, target)
  {
    NormalizationIsTheWalk(base, at);
    NormalizationIsTheWalk(target, at);
    if Normalized(base) != [] && Normalized(target) != [] && IsAbsolute(base) == IsAbsolute(target) {
      PrefixIsContainment(Normalized(base), Normalized(target), at);
    }
  }
}
