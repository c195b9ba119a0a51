/** Short file names that stay distinct (app/review/pipeline.py, `_short_names`). */
module ShortNames {
  import opened Seqs

  /** Components of a path: between two of them stood a slash, and none of them holds one. */
  predicate Components(parts: seq<string>) {
    parts != [] && forall i :: 0 <= i < |parts| ==> '/' !in parts[i]
  }

  /** `path.split("/")`. */
  function Split(path: string): (parts: seq<string>)
    ensures parts != []
  {
    if path == "" then [""]
    else
      var rest := Split(path[1..]);
      if path[0] == '/' then [""] + rest else [[path[0]] + rest[0]] + rest[1..]
  }

  /** `"/".join(parts)`. */
  function Slashed(parts: seq<string>): string {
    if parts == [] then "" else if |parts| == 1 then parts[0] else parts[0] + (['/'] + Slashed(parts[1..]))
  }

  lemma {:induction false} SplitHasComponents(path: string)
    ensures Components(Split(path))
  {
    if path != "" {
      SplitHasComponents(path[1..]);
    }
  }

  lemma {:induction false} SlashedSplit(path: string)
    ensures Slashed(Split(path)) == path
  {
    if path != "" {
      var rest := Split(path[1..]);
      SlashedSplit(path[1..]);
      var parts := Split(path);
      assert path == [path[0]] + path[1..];
      if path[0] == '/' {
        assert parts[1..] == rest;
        assert "" + (['/'] + Slashed(rest)) == ['/'] + Slashed(rest);
      } else {
        assert parts[1..] == rest[1..];
        if |rest| > 1 {
          Assoc([path[0]], rest[0], ['/'] + Slashed(rest[1..]));
        }
      }
    }
  }

  lemma {:induction false} SplitSlashed(parts: seq<string>)
    requires Components(parts)
    ensures Split(Slashed(parts)) == parts
    decreases |parts|, |parts[0]|
  {
    var text := Slashed(parts);
    if parts[0] == "" {
      if |parts| > 1 {
        assert text == ['/'] + Slashed(parts[1..]);
        assert text[1..] == Slashed(parts[1..]);
        assert Components(parts[1..]);
        SplitSlashed(parts[1..]);
        assert parts == [""] + parts[1..];
      } else {
        assert parts == [""];
      }
    } else {
      var shorter := [parts[0][1..]] + parts[1..];
      assert shorter[1..] == parts[1..];
      assert text[0] == parts[0][0] != '/' by {
        assert parts[0][0] in parts[0];
      }
      assert Slashed(shorter) == text[1..];
      SplitSlashed(shorter);
      assert parts[0] == [parts[0][0]] + parts[0][1..];
      assert parts == [parts[0]] + parts[1..];
    }
  }

  /** Joining loses nothing: different component lists give different names. */
  lemma {:induction false} SlashedInjective(a: seq<string>, b: seq<string>)
    requires Components(a) && Components(b) && Slashed(a) == Slashed(b)
    ensures a == b
  {
    SplitSlashed(a);
    SplitSlashed(b);
  }

  /** The last `depth` components. */
  function Tail(parts: seq<string>, depth: nat): seq<string>
    requires 1 <= depth <= |parts|
  {
    parts[|parts| - depth..]
  }

  predicate IsDepth(parts: seq<seq<string>>, depth: seq<nat>) {
    |depth| == |parts| && forall i :: 0 <= i < |parts| ==> 1 <= depth[i] <= |parts[i]|
  }

  function Names(parts: seq<seq<string>>, depth: seq<nat>): (names: seq<string>)
    requires IsDepth(parts, depth)
    ensures |names| == |parts|
    ensures forall i :: 0 <= i < |parts| ==> names[i] == Slashed(Tail(parts[i], depth[i]))
  {
    seq(|parts|, i requires 0 <= i < |parts| => Slashed(Tail(parts[i], depth[i])))
  }

  /** `names.count(name) > 1`. */
  predicate Clashes(names: seq<string>, i: nat)
    requires i < |names|
  {
    exists j :: 0 <= j < |names| && j != i && names[j] == names[i]
  }

  /** Path components not used yet, over all paths. */
  function Unused(parts: seq<seq<string>>, depth: seq<nat>): nat
    requires IsDepth(parts, depth)
  {
    if parts == [] then 0 else
    var k := |parts| - 1;
    Unused(parts[..k], depth[..k]) + (|parts[k]| - depth[k])
  }

  function Parts(paths: seq<string>): (parts: seq<seq<string>>)
    ensures |parts| == |paths| && forall i :: 0 <= i < |paths| ==> parts[i] == Split(paths[i])
  {
    seq(|paths|, i requires 0 <= i < |paths| => Split(paths[i]))
  }

  /** Another path ends in the same `depth` components. */
  predicate Shared(parts: seq<seq<string>>, i: nat, depth: nat)
    requires i < |parts| && 1 <= depth <= |parts[i]|
  {
    exists j :: 0 <= j < |parts| && j != i && depth <= |parts[j]| && Tail(parts[j], depth) == Tail(parts[i], depth)
  }

  /** The depth is the least that no other path shares, or all of the path. */
  predicate IsShortest(parts: seq<seq<string>>, i: nat, depth: nat)
    requires i < |parts| && 1 <= depth <= |parts[i]|
  {
    && (forall d :: 1 <= d < depth ==> Shared(parts, i, d))
    && (depth < |parts[i]| ==> !Shared(parts, i, depth))
  }

  method SplitAll(paths: seq<string>) returns (parts: seq<seq<string>>)
    ensures parts == Parts(paths)
  {
    parts := [];
    for i := 0 to |paths|
      invariant |parts| == i && forall k :: 0 <= k < i ==> parts[k] == Split(paths[k])
    {
      parts := parts + [Split(paths[i])];
    }
  }

  /** The name clashes and its path has a component left. */
  predicate CanGrow(parts: seq<seq<string>>, depth: seq<nat>, i: nat)
    requires IsDepth(parts, depth) && i < |parts|
  {
    Clashes(Names(parts, depth), i) && depth[i] < |parts[i]|
  }

  /** One more component for every clashing name that has one left. */
  predicate IsGrown(parts: seq<seq<string>>, depth: seq<nat>, next: seq<nat>)
    requires IsDepth(parts, depth)
  {
    && |next| == |depth|
    && forall i :: 0 <= i < |parts| ==> next[i] == if CanGrow(parts, depth, i) then depth[i] + 1 else depth[i]
  }

  method Grow(parts: seq<seq<string>>, depth: seq<nat>) returns (next: seq<nat>, grown: bool)
    requires IsDepth(parts, depth)
    ensures IsDepth(parts, next) && IsGrown(parts, depth, next)
    ensures grown <==> exists i :: 0 <= i < |parts| && CanGrow(parts, depth, i)
    ensures grown ==> Unused(parts, next) < Unused(parts, depth)
  {
    GrowingIsDepth(parts, depth);
    hide CanGrow, Unused;
    next, grown := [], false;
    for i := 0 to |parts|
      invariant |next| == i
      invariant forall k :: 0 <= k < i ==> next[k] == if CanGrow(parts, depth, k) then depth[k] + 1 else depth[k]
      invariant grown <==> exists k :: 0 <= k < i && CanGrow(parts, depth, k)
    {
      if CanGrow(parts, depth, i) {
        next := next + [depth[i] + 1];
        grown := true;
      } else {
        next := next + [depth[i]];
      }
    }
    if grown {
      var i :| 0 <= i < |parts| && CanGrow(parts, depth, i);
      OneDeeperUsesMore(parts, depth, next, i);
    }
  }

  lemma {:induction false} GrowingIsDepth(parts: seq<seq<string>>, depth: seq<nat>)
    requires IsDepth(parts, depth)
    ensures forall i :: 0 <= i < |parts| && CanGrow(parts, depth, i) ==> depth[i] < |parts[i]|
  {
    hide Clashes, Names;
  }

  lemma {:induction false} DeeperUsesMore(parts: seq<seq<string>>, a: seq<nat>, b: seq<nat>)
    requires IsDepth(parts, a) && IsDepth(parts, b) && forall i :: 0 <= i < |parts| ==> a[i] <= b[i]
    ensures Unused(parts, b) <= Unused(parts, a)
  {
    if parts != [] {
      var k := |parts| - 1;
      DeeperUsesMore(parts[..k], a[..k], b[..k]);
    }
  }

  lemma {:induction false} OneDeeperUsesMore(parts: seq<seq<string>>, a: seq<nat>, b: seq<nat>, i: nat)
    requires IsDepth(parts, a) && IsDepth(parts, b) && forall j :: 0 <= j < |parts| ==> a[j] <= b[j]
    requires i < |parts| && a[i] < b[i]
    ensures Unused(parts, b) < Unused(parts, a)
  {
    var k := |parts| - 1;
    DeeperUsesMore(parts[..k], a[..k], b[..k]);
    if i < k {
      OneDeeperUsesMore(parts[..k], a[..k], b[..k], i);
    }
  }

  /**
   Terminates, and gives every path the shortest of its suffixes at a component boundary that no other
   path ends in, or the whole path when another ends in it all. So distinct paths get distinct names, and
   a file name no other path ends in stays as short as it is.
   */
  method ShortNames(paths: seq<string>) returns (names: seq<string>, ghost depth: seq<nat>)
    ensures |names| == |depth| == |paths|
    ensures forall i :: 0 <= i < |paths| ==>
      && 1 <= depth[i] <= |Split(paths[i])| && names[i] == Slashed(Tail(Split(paths[i]), depth[i]))
      && IsShortest(Parts(paths), i, depth[i])
    ensures forall i, j :: 0 <= i < |paths| && 0 <= j < |paths| && paths[i] != paths[j] ==> names[i] != names[j]
    ensures forall i :: 0 <= i < |paths| && UniqueBase(paths, i) ==> names[i] == Base(paths[i])
  {
    hide IsLevel;
    var parts := SplitAll(paths);
    var current: seq<nat> := seq(|paths|, _ => 1);
    ghost var level := 1;
    assert IsDepth(parts, current);
    FirstLevel(parts, current);
    while true
      invariant IsDepth(parts, current) && IsLevel(parts, current, level)
      decreases Unused(parts, current)
    {
      names, depth := Names(parts, current), current;
      var next, grown := Grow(parts, current);
      if !grown {
        FullNamesDiffer(paths, parts, current);
        LastLevel(paths, current, level);
        return;
      }
      NextLevel(paths, current, next, level);
      current, level := next, level + 1;
    }
  }

  /**
   All names that can grow any more have the same depth; a name that stopped below it is one no other
   path shares, or a whole path.
   */
  predicate IsLevel(parts: seq<seq<string>>, depth: seq<nat>, level: nat)
    requires IsDepth(parts, depth)
  {
    forall i :: 0 <= i < |parts| ==> IsLevelAt(parts, depth, level, i)
  }

  predicate IsLevelAt(parts: seq<seq<string>>, depth: seq<nat>, level: nat, i: nat)
    requires IsDepth(parts, depth) && i < |parts|
  {
    && depth[i] <= level && (forall d :: 1 <= d < depth[i] ==> Shared(parts, i, d))
    && (depth[i] < level && depth[i] < |parts[i]| ==> !Shared(parts, i, depth[i]))
  }

  lemma {:induction false} FirstLevel(parts: seq<seq<string>>, depth: seq<nat>)
    requires IsDepth(parts, depth) && forall i :: 0 <= i < |depth| ==> depth[i] == 1
    ensures IsLevel(parts, depth, 1)
  {
    hide Shared;
  }

  lemma {:induction false} SharedFront(parts: seq<seq<string>>, i: nat, j: nat, d: nat, depth: nat)
    requires i < |parts| && j < |parts| && 1 <= d <= depth <= |parts[i]| && depth <= |parts[j]|
    requires Tail(parts[i], depth) == Tail(parts[j], depth)
    ensures Tail(parts[i], d) == Tail(parts[j], d)
  {
    assert Tail(parts[i], d) == Tail(parts[i], depth)[depth - d..];
    assert Tail(parts[j], d) == Tail(parts[j], depth)[depth - d..];
  }

  /** Names are equal exactly when they consist of the same components. */
  lemma {:induction false} SameName(paths: seq<string>, depth: seq<nat>, i: nat, j: nat)
    requires IsDepth(Parts(paths), depth) && i < |paths| && j < |paths|
    ensures var names, parts := Names(Parts(paths), depth), Parts(paths);
      names[i] == names[j] <==> Tail(parts[i], depth[i]) == Tail(parts[j], depth[j])
  {
    hide Split, Slashed;
    TailComponents(paths[i], depth[i]);
    TailComponents(paths[j], depth[j]);
    var parts := Parts(paths);
    if Names(parts, depth)[i] == Names(parts, depth)[j] {
      SlashedInjective(Tail(parts[i], depth[i]), Tail(parts[j], depth[j]));
    }
  }

  /** A name that can still grow clashes exactly when another path shares it, whatever its own depth. */
  lemma {:induction false} ClashIsShared(paths: seq<string>, depth: seq<nat>, level: nat, i: nat)
    requires var parts := Parts(paths); IsDepth(parts, depth) && IsLevel(parts, depth, level)
    requires i < |paths| && depth[i] < |Split(paths[i])|
    ensures Clashes(Names(Parts(paths), depth), i) <==> Shared(Parts(paths), i, depth[i])
  {
    hide Split, Slashed, Shared;
    var parts, names := Parts(paths), Names(Parts(paths), depth);
    if Clashes(names, i) {
      var j :| 0 <= j < |names| && j != i && names[j] == names[i];
      SameName(paths, depth, i, j);
      assert |Tail(parts[j], depth[j])| == depth[j] && |Tail(parts[i], depth[i])| == depth[i];
      IsShared(parts, i, j, depth[i]);
    }
    assert IsLevelAt(parts, depth, level, i);
    if Shared(parts, i, depth[i]) {
      var j := Sharer(parts, i, depth[i]);
      assert IsLevelAt(parts, depth, level, j);
      if depth[j] < depth[i] {
        SharedFront(parts, i, j, depth[j], depth[i]);
        IsShared(parts, j, i, depth[j]);
        assert false;
      }
      SameName(paths, depth, i, j);
    }
  }

  lemma {:induction false} IsShared(parts: seq<seq<string>>, i: nat, j: nat, depth: nat)
    requires i < |parts| && j < |parts| && i != j && 1 <= depth <= |parts[i]| && depth <= |parts[j]|
    requires Tail(parts[i], depth) == Tail(parts[j], depth)
    ensures Shared(parts, i, depth)
  {}

  lemma {:induction false} Sharer(parts: seq<seq<string>>, i: nat, depth: nat) returns (j: nat)
    requires i < |parts| && 1 <= depth <= |parts[i]| && Shared(parts, i, depth)
    ensures j < |parts| && j != i && depth <= |parts[j]| && Tail(parts[j], depth) == Tail(parts[i], depth)
  {
    j :| 0 <= j < |parts| && j != i && depth <= |parts[j]| && Tail(parts[j], depth) == Tail(parts[i], depth);
  }

  lemma {:induction false} NextLevel(paths: seq<string>, depth: seq<nat>, next: seq<nat>, level: nat)
    requires var parts := Parts(paths);
      && IsDepth(parts, depth) && IsDepth(parts, next) && IsLevel(parts, depth, level) && IsGrown(parts, depth, next)
    ensures IsLevel(Parts(paths), next, level + 1)
  {
    hide Split, Slashed, Shared, Clashes;
    var parts, above := Parts(paths), level + 1;
    forall i | 0 <= i < |parts| ensures IsLevelAt(parts, next, above, i) {
      assert IsLevelAt(parts, depth, level, i);
      if depth[i] < |parts[i]| {
        ClashIsShared(paths, depth, level, i);
      }
    }
  }

  lemma {:induction false} LastLevel(paths: seq<string>, depth: seq<nat>, level: nat)
    requires var parts := Parts(paths);
      && IsDepth(parts, depth) && IsLevel(parts, depth, level)
      && forall i :: 0 <= i < |parts| ==> !CanGrow(parts, depth, i)
    ensures forall i :: 0 <= i < |paths| ==> IsShortest(Parts(paths), i, depth[i])
    ensures forall i :: 0 <= i < |paths| && UniqueBase(paths, i) ==> depth[i] == 1
  {
    hide Split, Slashed, Shared, IsShortest, IsLevel, CanGrow, UniqueBase;
    forall i | 0 <= i < |paths|
      ensures IsShortest(Parts(paths), i, depth[i]) && (UniqueBase(paths, i) ==> depth[i] == 1)
    {
      LastLevelAt(paths, depth, level, i);
      if UniqueBase(paths, i) {
        UniqueIsShort(paths, i, depth[i]);
      }
    }
  }

  lemma {:induction false} LastLevelAt(paths: seq<string>, depth: seq<nat>, level: nat, i: nat)
    requires var parts := Parts(paths);
      && IsDepth(parts, depth) && IsLevel(parts, depth, level) && i < |parts| && !CanGrow(parts, depth, i)
    ensures IsShortest(Parts(paths), i, depth[i])
  {
    hide Split, Slashed, Shared, Clashes;
    assert IsLevelAt(Parts(paths), depth, level, i);
    if depth[i] < |Parts(paths)[i]| {
      ClashIsShared(paths, depth, level, i);
    }
  }

  lemma {:induction false} UniqueIsShort(paths: seq<string>, i: nat, depth: nat)
    requires i < |paths| && UniqueBase(paths, i)
    requires 1 <= depth <= |Split(paths[i])| && IsShortest(Parts(paths), i, depth)
    ensures depth == 1
  {
    hide Split, Slashed, Shared, UniqueBase;
    if depth > 1 {
      assert Shared(Parts(paths), i, 1);
      var j := Sharer(Parts(paths), i, 1);
      BasesDiffer(paths, i, j);
    }
  }

  /** The file name. */
  function Base(path: string): string {
    Slashed(Tail(Split(path), 1))
  }

  predicate UniqueBase(paths: seq<string>, i: nat)
    requires i < |paths|
  {
    forall j :: 0 <= j < |paths| && j != i ==> Base(paths[j]) != Base(paths[i])
  }

  lemma {:induction false} BasesDiffer(paths: seq<string>, i: nat, j: nat)
    requires i < |paths| && j < |paths| && i != j && UniqueBase(paths, i)
    ensures Base(paths[j]) != Base(paths[i])
  {
    hide Base;
  }

  lemma {:induction false} TailComponents(path: string, depth: nat)
    requires 1 <= depth <= |Split(path)|
    ensures Components(Tail(Split(path), depth))
  {
    SplitHasComponents(path);
  }

  /** When nothing can grow, clashing names are whole paths, so distinct paths do not clash. */
  lemma {:induction false} FullNamesDiffer(paths: seq<string>, parts: seq<seq<string>>, depth: seq<nat>)
    requires |parts| == |paths| && forall i :: 0 <= i < |paths| ==> parts[i] == Split(paths[i])
    requires IsDepth(parts, depth)
    requires forall i :: 0 <= i < |parts| && Clashes(Names(parts, depth), i) ==> depth[i] == |parts[i]|
    ensures var names := Names(parts, depth);
      forall i, j :: 0 <= i < |paths| && 0 <= j < |paths| && paths[i] != paths[j] ==> names[i] != names[j]
  {
    var names := Names(parts, depth);
    forall i, j | 0 <= i < |paths| && 0 <= j < |paths| && names[i] == names[j] && i != j ensures paths[i] == paths[j] {
      assert Clashes(names, i) && Clashes(names, j);
      assert Tail(parts[i], depth[i]) == parts[i] && Tail(parts[j], depth[j]) == parts[j];
      SlashedSplit(paths[i]);
      SlashedSplit(paths[j]);
    }
  }
}
