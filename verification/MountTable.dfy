/** The table of mounted file systems, and the search for the one that serves a path. */
module MountTable {
  import opened Machine

  const MAX_MOUNT_POINTS := 32
  const MOUNT_BUFFER := 256
  const SLASH := '/'

  datatype MountPoint = MountPoint(path: string, fs: nat)

  /** A mount path, ending in a slash. */
  function Slashed(path: string): string
    requires path != ""
  {
    if path[|path| - 1] == SLASH then path else path + [SLASH]
  }

  /** A mount serves the paths below it. */
  predicate Serves(mount: string, path: string)
    requires mount != ""
  {
    Slashed(mount) <= path
  }

  ghost predicate Named(mounts: seq<MountPoint>) {
    forall m <- mounts :: m.path != "" && |m.path| + 2 <= MOUNT_BUFFER
  }

  /** How much of a path a mount matches: nothing if it does not serve it. */
  function Match(mount: string, path: string): nat
    requires mount != ""
  {
    if Serves(mount, path) then |Slashed(mount)| else 0
  }

  function MatchAt(mounts: seq<MountPoint>, path: string, i: nat): nat
    requires Named(mounts) && i < |mounts|
  {
    assert mounts[i] in mounts;
    Match(mounts[i].path, path)
  }

  /** The position of the best match among the first `n` mounts. */
  function Best(mounts: seq<MountPoint>, path: string, n: nat): (r: Option<nat>)
    requires Named(mounts) && n <= |mounts|
    ensures r.Some? ==> r.value < n
  {
    if n == 0 then None
    else
      var b := Best(mounts, path, n - 1);
      if MatchAt(mounts, path, n - 1) > (if b.Some? then MatchAt(mounts, path, b.value) else 0) then Some(n - 1) else b
  }

  /** Mount `i` is the first one of the longest that serve `path`. */
  ghost predicate Longest(mounts: seq<MountPoint>, path: string, i: nat, n: nat)
    requires Named(mounts) && i < n <= |mounts|
  {
    && Serves(mounts[i].path, path)
    && (forall j :: 0 <= j < n && Serves(mounts[j].path, path) ==> |Slashed(mounts[j].path)| <= |Slashed(mounts[i].path)|)
    && (forall j :: 0 <= j < i && Serves(mounts[j].path, path) ==> |Slashed(mounts[j].path)| < |Slashed(mounts[i].path)|)
  }

  lemma {:induction false} BestMatch(mounts: seq<MountPoint>, path: string, n: nat)
    requires Named(mounts) && n <= |mounts|
    ensures match Best(mounts, path, n)
      case Some(i) =>
        var m := MatchAt(mounts, path, i);
        && m > 0
        && (forall j :: 0 <= j < n ==> MatchAt(mounts, path, j) <= m)
        && (forall j :: 0 <= j < i ==> MatchAt(mounts, path, j) < m)
      case None => forall j :: 0 <= j < n ==> MatchAt(mounts, path, j) == 0
  {
    hide MatchAt, Named;
    if n > 0 {
      BestMatch(mounts, path, n - 1);
    }
  }

  lemma {:induction false} MatchServes(mount: string, path: string)
    requires mount != ""
    ensures Match(mount, path) > 0 <==> Serves(mount, path)
  {
  }

  /** What the search promises. */
  lemma {:induction false} BestIsLongest(mounts: seq<MountPoint>, path: string)
    requires Named(mounts)
    ensures match Best(mounts, path, |mounts|)
      case Some(i) => Longest(mounts, path, i, |mounts|)
      case None => forall j :: 0 <= j < |mounts| ==> !Serves(mounts[j].path, path)
  {
    BestMatch(mounts, path, |mounts|);
    forall j | 0 <= j < |mounts| ensures mounts[j].path != "" {
      assert mounts[j] in mounts;
    }
    forall j | 0 <= j < |mounts| ensures MatchAt(mounts, path, j) > 0 <==> Serves(mounts[j].path, path) {
      MatchServes(mounts[j].path, path);
    }
    hide Slashed, Named, Serves;
  }

  /** The position of the mount chosen and the rest of the path; the first mount if none serves it. */
  function Found(mounts: seq<MountPoint>, path: string): Option<(nat, string)>
    requires Named(mounts)
  {
    if mounts == [] then None
    else
      var b := Best(mounts, path, |mounts|);
      var i := if b.Some? then b.value else 0;
      var n := if b.Some? then |Slashed(mounts[i].path)| else |mounts[i].path|;
      Some((i, if n < |path| then path[n..] else "/"))
  }

  /**
   If any mount serves the path, the one found is the first of the longest, and the rest of the path
   completes it: prefix and rest give the path back, unless nothing is left.
   */
  lemma {:induction false} FoundLongest(mounts: seq<MountPoint>, path: string)
    requires Named(mounts) && exists j :: 0 <= j < |mounts| && Serves(mounts[j].path, path)
    ensures Found(mounts, path).Some?
    ensures var (i, rest) := Found(mounts, path).value;
      && i < |mounts| && Longest(mounts, path, i, |mounts|)
      && if path == Slashed(mounts[i].path) then rest == "/" else Slashed(mounts[i].path) + rest == path
  {
    var b := Best(mounts, path, |mounts|);
    BestIsLongest(mounts, path);
    assert b.Some?;
    var m := mounts[b.value].path;
    assert mounts[b.value] in mounts && Serves(m, path);
    hide Serves, Slashed, Best, Longest;
    ServedRest(m, path);
  }

  /** If no mount serves the path, the first one stands in, and what follows its length is the rest. */
  lemma {:induction false} FoundFallback(mounts: seq<MountPoint>, path: string)
    requires Named(mounts) && forall j :: 0 <= j < |mounts| ==> !Serves(mounts[j].path, path)
    ensures Found(mounts, path) == None <==> mounts == []
    ensures mounts != [] ==>
      var n := |mounts[0].path|;
      Found(mounts, path) == Some((0, if n < |path| then path[n..] else "/"))
  {
    BestIsLongest(mounts, path);
    hide Serves, Slashed, Best;
  }

  lemma {:induction false} ServedRest(mount: string, path: string)
    requires mount != "" && Serves(mount, path)
    ensures var m := Slashed(mount);
      |m| <= |path| && m + path[|m|..] == path && (m == path <==> |m| == |path|)
  {
  }

  /** All mounts of the greatest length are the same up to a trailing slash. */
  lemma {:induction false} TiesAgree(a: string, b: string, path: string)
    requires a != "" && b != "" && Serves(a, path) && Serves(b, path) && |Slashed(a)| == |Slashed(b)|
    ensures Slashed(a) == Slashed(b)
  {
    assert Slashed(a) == path[..|Slashed(a)|] && Slashed(b) == path[..|Slashed(b)|];
  }

  /** A mount serves its own path exactly if that is written with a slash at the end. */
  lemma {:induction false} ServesItself(mount: string)
    requires mount != ""
    ensures Serves(mount, mount) <==> mount[|mount| - 1] == SLASH
  {
  }

  // ---------- the table ----------

  ghost predicate Distinct(mounts: seq<MountPoint>) {
    forall i, j :: 0 <= i < j < |mounts| ==> mounts[i].path != mounts[j].path
  }

  /** The position of a mount path, or the number of mounts. */
  function IndexOf(mounts: seq<MountPoint>, target: string, i: nat): (r: nat)
    requires i <= |mounts|
    ensures i <= r <= |mounts| && (forall j :: i <= j < r ==> mounts[j].path != target)
    ensures r < |mounts| ==> mounts[r].path == target
    decreases |mounts| - i
  {
    if i == |mounts| || mounts[i].path == target then i else IndexOf(mounts, target, i + 1)
  }

  /** The table without a path, the rest in order. */
  function Without(mounts: seq<MountPoint>, target: string): seq<MountPoint> {
    var i := IndexOf(mounts, target, 0);
    if i < |mounts| then mounts[..i] + mounts[i + 1..] else mounts
  }

  ghost predicate Free(mounts: seq<MountPoint>, target: string) {
    forall i :: 0 <= i < |mounts| ==> mounts[i].path != target
  }

  /** Unmounting takes away the one entry for the path and keeps all others in order. */
  lemma {:induction false} WithoutExact(mounts: seq<MountPoint>, target: string)
    requires Distinct(mounts)
    ensures Without(mounts, target) == Others(mounts, target)
  {
    hide Others;
    var i := IndexOf(mounts, target, 0);
    if i < |mounts| {
      var a, c := mounts[..i], mounts[i + 1..];
      assert Free(a, target) && Free(c, target);
      assert mounts == a + ([mounts[i]] + c);
      hide Distinct;
      OthersAppend(a, [mounts[i]] + c, target);
      OthersSkips(mounts[i], c);
      OthersSame(a, target);
      OthersSame(c, target);
      hide Free;
    } else {
      OthersSame(mounts, target);
    }
  }

  lemma {:induction false} OthersSkips(m: MountPoint, c: seq<MountPoint>)
    ensures Others([m] + c, m.path) == Others(c, m.path)
  {
    assert ([m] + c)[1..] == c;
  }

  lemma {:induction false} WithoutDistinct(mounts: seq<MountPoint>, target: string)
    requires Distinct(mounts)
    ensures Distinct(Without(mounts, target))
  {
    var i, r := IndexOf(mounts, target, 0), Without(mounts, target);
    if i < |mounts| {
      forall j, k | 0 <= j < k < |r| ensures r[j].path != r[k].path {
        assert r[j] == mounts[if j < i then j else j + 1];
        assert r[k] == mounts[if k < i then k else k + 1];
      }
    }
  }

  /** The mounts with another path, in order. */
  function Others(mounts: seq<MountPoint>, target: string): seq<MountPoint> {
    if mounts == [] then []
    else if mounts[0].path == target then Others(mounts[1..], target)
    else [mounts[0]] + Others(mounts[1..], target)
  }

  lemma {:induction false} OthersAppend(a: seq<MountPoint>, b: seq<MountPoint>, target: string)
    ensures Others(a + b, target) == Others(a, target) + Others(b, target)
  {
    if a == [] {
      assert a + b == b;
    } else {
      assert (a + b)[1..] == a[1..] + b;
      OthersAppend(a[1..], b, target);
    }
  }

  lemma {:induction false} OthersSame(a: seq<MountPoint>, target: string)
    requires Free(a, target)
    ensures Others(a, target) == a
  {
    if a != [] {
      OthersSame(a[1..], target);
    }
  }

  /** Mounting and then unmounting restores the table. */
  lemma {:induction false} MountThenUnmount(mounts: seq<MountPoint>, m: MountPoint)
    requires IndexOf(mounts, m.path, 0) == |mounts|
    ensures Without(mounts + [m], m.path) == mounts
  {
    var after := mounts + [m];
    forall j | 0 <= j < |mounts| ensures after[j].path != m.path {
      assert after[j] == mounts[j];
    }
    assert after[|mounts|].path == m.path;
    assert after[..|mounts|] + after[|mounts| + 1..] == mounts;
  }

  predicate CString(s: string) {
    forall i :: 0 <= i < |s| ==> s[i] != '\0'
  }

  /** The two strings' first `n` characters, or as many as there are, agree; the shorter one ends like a character 0. */
  method Strncmp(a: string, b: string, n: nat) returns (r: int)
    requires CString(a) && CString(b)
    ensures r == 0 <==> a[..if n < |a| then n else |a|] == b[..if n < |b| then n else |b|]
  {
    var left, i := n, 0;
    while left > 0 && i < |a| && i < |b|
      invariant i + left == n && i <= |a| && i <= |b| && a[..i] == b[..i]
    {
      if a[i] != b[i] {
        r := a[i] as int - b[i] as int;
        assert a[..if n < |a| then n else |a|][i] == a[i];
        assert b[..if n < |b| then n else |b|][i] == b[i];
        return;
      }
      i, left := i + 1, left - 1;
    }
    if left == 0 {
      return 0;
    }
    r := (if i < |a| then a[i] as int else 0) - (if i < |b| then b[i] as int else 0);
  }

  lemma {:induction false} PrefixCompared(a: string, b: string)
    ensures b[..|b|] == b
    ensures a[..if |b| < |a| then |b| else |a|] == b <==> b <= a
  {
  }

  class MountPoints {
    const mountPoints: array<MountPoint>
    var numMountPoints: nat

    ghost predicate Valid()
      reads this, mountPoints
    {
      && mountPoints.Length == MAX_MOUNT_POINTS && numMountPoints <= MAX_MOUNT_POINTS
      && Distinct(Mounts())
    }

    ghost function Mounts(): seq<MountPoint>
      requires numMountPoints <= mountPoints.Length
      reads this, mountPoints
    {
      mountPoints[..numMountPoints]
    }

    constructor ()
      ensures Valid() && Mounts() == [] && fresh(mountPoints)
    {
      mountPoints := new MountPoint[MAX_MOUNT_POINTS](_ => MountPoint("", 0));
      numMountPoints := 0;
    }

    /**
     The mount that serves an absolute path, and the path inside it. The first mount stands in if
     none serves the path.
     */
    method FindMountPoint(path: string) returns (found: Option<(nat, string)>)
      requires Valid() && Named(Mounts()) && path != "" && path[0] == SLASH
      requires CString(path) && forall m <- Mounts() :: CString(m.path)
      ensures found == Found(Mounts(), path)
    {
      hide Serves, Slashed, Longest;
      ghost var mounts := Mounts();
      var best, length := None, 0;
      for i := 0 to numMountPoints
        invariant best == Best(mounts, path, i)
        invariant best.Some? ==> Serves(mounts[best.value].path, path)
        invariant length == if best.Some? then MatchAt(mounts, path, best.value) else 0
      {
        assert mountPoints[i] == mounts[i] && mounts[i] in mounts;
        var n := MatchLength(mountPoints[i].path, path);
        MatchServes(mounts[i].path, path);
        if n > length {
          best, length := Some(i), n;
        }
      }
      if best == None && numMountPoints > 0 {
        best, length := Some(0), |mountPoints[0].path|;
      }
      if best == None {
        return None;
      }
      found := Some((best.value, if length < |path| then path[length..] else "/"));
    }

    /** The length of a mount path, with its slash, if it serves `path`, and otherwise 0. */
    method MatchLength(mount: string, path: string) returns (n: nat)
      requires mount != "" && CString(mount) && CString(path)
      ensures n == Match(mount, path)
    {
      var mountPath := mount;
      if mountPath[|mountPath| - 1] != SLASH {
        mountPath := mountPath + [SLASH];
      }
      var order := Strncmp(path, mountPath, |mountPath|);
      PrefixCompared(path, mountPath);
      n := if order == 0 then |mountPath| else 0;
    }

    /**
     Adds a mount at the end. `fs` is the file system of the type asked for, if it is registered, and
     `mounted` says whether it accepted the mount.
     */
    method Mount(target: string, fs: Option<nat>, mounted: bool) returns (ok: bool)
      requires Valid()
      modifies this, mountPoints
      ensures Valid()
      ensures ok == (|old(Mounts())| < MAX_MOUNT_POINTS && IndexOf(old(Mounts()), target, 0) == |old(Mounts())| && fs.Some? && mounted)
      ensures Mounts() == if ok then old(Mounts()) + [MountPoint(target, fs.value)] else old(Mounts())
    {
      if numMountPoints >= MAX_MOUNT_POINTS {
        return false;
      }
      ghost var mounts := Mounts();
      for i := 0 to numMountPoints
        invariant IndexOf(mounts, target, 0) == IndexOf(mounts, target, i)
      {
        if mountPoints[i].path == target {
          return false;
        }
      }
      if fs == None || !mounted {
        return false;
      }
      mountPoints[numMountPoints] := MountPoint(target, fs.value);
      numMountPoints := numMountPoints + 1;
      assert Mounts() == mounts + [MountPoint(target, fs.value)];
      return true;
    }

    /** Takes away a mount and closes the gap. `released` says whether its file system let it go. */
    method Umount(target: string, released: bool) returns (ok: bool)
      requires Valid()
      modifies this, mountPoints
      ensures Valid()
      ensures ok == (released && IndexOf(old(Mounts()), target, 0) < |old(Mounts())|)
      ensures Mounts() == if ok then Without(old(Mounts()), target) else old(Mounts())
    {
      ghost var mounts := Mounts();
      for i := 0 to numMountPoints
        invariant IndexOf(mounts, target, 0) == IndexOf(mounts, target, i)
      {
        if mountPoints[i].path == target {
          if !released {
            return false;
          }
          WithoutDistinct(mounts, target);
          CloseGap(i);
          return true;
        }
      }
      return false;
    }

    method CloseGap(i: nat)
      requires mountPoints.Length == MAX_MOUNT_POINTS && i < numMountPoints <= MAX_MOUNT_POINTS
      modifies this, mountPoints
      ensures numMountPoints == old(numMountPoints) - 1
      ensures Mounts() == old(Mounts())[..i] + old(Mounts())[i + 1..]
    {
      for j := i to numMountPoints - 1
        invariant numMountPoints == old(numMountPoints)
        invariant forall k :: 0 <= k < numMountPoints ==>
          mountPoints[k] == if i <= k < j then old(mountPoints[k + 1]) else old(mountPoints[k])
      {
        mountPoints[j] := mountPoints[j + 1];
      }
      numMountPoints := numMountPoints - 1;
    }
  }
}
