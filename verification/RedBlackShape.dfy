/**
 Shapes of red-black trees and the algebra of their contexts.

 A `Shape` is the mathematical tree that a linked structure of `Ref`s represents; a `Path` is
 a shape with one hole, written from the hole up to the root. Every rotation and recolouring of
 the kernel's tree is a step on a (shape, path) pair, and the lemmas below say what such a step
 keeps: the in-order sequence, the colours' rules and the black heights.
 */
module RedBlackShape {

  import opened Machine

  datatype Color = Black | Red

  /** A node, known by its identity alone; `nil` is one of them. */
  type Ref = nat

  datatype Shape = Leaf | Node(left: Shape, node: Ref, color: Color, right: Shape)

  /** The surroundings of a hole: `InLeft(up, n, c, s)` is a hole that is the left child of `n`. */
  datatype Path =
    | Top
    | InLeft(up: Path, node: Ref, color: Color, sibling: Shape)
    | InRight(up: Path, sibling: Shape, node: Ref, color: Color)

  function Plug(t: Shape, q: Path): Shape
    decreases q
  {
    match q
    case Top => t
    case InLeft(up, n, c, s) => Plug(Node(t, n, c, s), up)
    case InRight(up, s, n, c) => Plug(Node(s, n, c, t), up)
  }

  /** `inner` with its top hole placed in the hole of `outer`. */
  function Append(inner: Path, outer: Path): Path
    decreases inner
  {
    match inner
    case Top => outer
    case InLeft(up, n, c, s) => InLeft(Append(up, outer), n, c, s)
    case InRight(up, s, n, c) => InRight(Append(up, outer), s, n, c)
  }

  function Repainted(q: Path, c: Color): Path
    requires !q.Top?
  {
    q.(color := c)
  }

  function WithSibling(q: Path, s: Shape): Path
    requires !q.Top?
  {
    q.(sibling := s)
  }

  function Depth(q: Path): nat {
    if q.Top? then 0 else 1 + Depth(q.up)
  }

  function Height(t: Shape): nat {
    match t
    case Leaf => 0
    case Node(l, _, _, r) => 1 + if Height(l) < Height(r) then Height(r) else Height(l)
  }

  // ---------- nodes and their order ----------

  function Nodes(t: Shape): (s: set<Ref>)
    ensures t.Node? ==> t.node in s && Nodes(t.left) <= s && Nodes(t.right) <= s
  {
    match t
    case Leaf => {}
    case Node(l, n, _, r) => Nodes(l) + {n} + Nodes(r)
  }

  function PathNodes(q: Path): (s: set<Ref>)
    ensures !q.Top? ==> q.node in s && Nodes(q.sibling) <= s && PathNodes(q.up) <= s
  {
    if q.Top? then {} else PathNodes(q.up) + {q.node} + Nodes(q.sibling)
  }

  function InOrder(t: Shape): seq<Ref> {
    match t
    case Leaf => []
    case Node(l, n, _, r) => InOrder(l) + [n] + InOrder(r)
  }

  /** The nodes that come before (after) the hole in in-order. */
  function Before(q: Path): seq<Ref> {
    match q
    case Top => []
    case InLeft(up, _, _, _) => Before(up)
    case InRight(up, s, n, _) => Before(up) + InOrder(s) + [n]
  }

  function After(q: Path): seq<Ref> {
    match q
    case Top => []
    case InLeft(up, n, _, s) => [n] + InOrder(s) + After(up)
    case InRight(up, _, _, _) => After(up)
  }

  lemma {:induction false} InOrderPlug(t: Shape, q: Path)
    ensures InOrder(Plug(t, q)) == Before(q) + InOrder(t) + After(q)
    decreases q
  {
    match q
    case Top =>
    case InLeft(up, n, c, s) =>
      InOrderPlug(Node(t, n, c, s), up);
      Regroup(Before(up), InOrder(t), [n], InOrder(s), After(up));
    case InRight(up, s, n, c) =>
      InOrderPlug(Node(s, n, c, t), up);
      Regroup(Before(up), InOrder(s), [n], InOrder(t), After(up));
  }

  lemma {:induction false} Regroup<T>(a: seq<T>, b: seq<T>, c: seq<T>, d: seq<T>, e: seq<T>)
    ensures a + (b + c + d) + e == a + b + (c + d + e)
    ensures a + (b + c + d) + e == (a + b + c) + d + e
  {
  }

  lemma {:induction false} SameOrderPlug(t: Shape, t': Shape, q: Path)
    requires InOrder(t) == InOrder(t')
    ensures InOrder(Plug(t, q)) == InOrder(Plug(t', q))
  {
    InOrderPlug(t, q);
    InOrderPlug(t', q);
  }

  lemma {:induction false} NodesInOrder(t: Shape, n: Ref)
    ensures n in Nodes(t) <==> n in InOrder(t)
  {
    if t.Node? {
      NodesInOrder(t.left, n);
      NodesInOrder(t.right, n);
    }
  }

  lemma {:induction false} NodesPlug(t: Shape, q: Path)
    ensures Nodes(Plug(t, q)) == Nodes(t) + PathNodes(q)
    decreases q
  {
    match q
    case Top =>
    case InLeft(up, n, c, s) => NodesPlug(Node(t, n, c, s), up);
    case InRight(up, s, n, c) => NodesPlug(Node(s, n, c, t), up);
  }

  /** Where a node of a shape stands. */
  lemma {:induction false} Locate(shape: Shape, z: Ref) returns (t: Shape, q: Path)
    requires z in Nodes(shape)
    ensures t.Node? && t.node == z && Plug(t, q) == shape
  {
    if shape.node == z {
      t, q := shape, Top;
    } else if z in Nodes(shape.left) {
      t, q := Locate(shape.left, z);
      PlugAppend(t, q, InLeft(Top, shape.node, shape.color, shape.right));
      q := Append(q, InLeft(Top, shape.node, shape.color, shape.right));
    } else {
      t, q := Locate(shape.right, z);
      PlugAppend(t, q, InRight(Top, shape.left, shape.node, shape.color));
      q := Append(q, InRight(Top, shape.left, shape.node, shape.color));
    }
  }

  lemma {:induction false} AppendEnds(inner: Path, outer: Path)
    ensures inner.Top? ==> Append(inner, outer) == outer
    ensures !inner.Top? ==> !Append(inner, outer).Top? && Append(inner, outer).node == inner.node
    ensures !inner.Top? ==> inner.node in PathNodes(inner)
  {
  }

  lemma {:induction false} DepthAppend(inner: Path, outer: Path)
    ensures Depth(Append(inner, outer)) == Depth(inner) + Depth(outer)
  {
    if !inner.Top? {
      DepthAppend(inner.up, outer);
    }
  }

  lemma {:induction false} AppendTop(q: Path)
    ensures Append(q, Top) == q
  {
    if !q.Top? {
      AppendTop(q.up);
    }
  }

  lemma {:induction false} PlugAppend(t: Shape, inner: Path, outer: Path)
    ensures Plug(t, Append(inner, outer)) == Plug(Plug(t, inner), outer)
    decreases inner
  {
    match inner
    case Top =>
    case InLeft(up, n, c, s) => PlugAppend(Node(t, n, c, s), up, outer);
    case InRight(up, s, n, c) => PlugAppend(Node(s, n, c, t), up, outer);
  }

  // ---------- each node occurs once ----------

  predicate Distinct(t: Shape) {
    match t
    case Leaf => true
    case Node(l, n, _, r) =>
      Distinct(l) && Distinct(r) && Nodes(l) !! Nodes(r) && n !in Nodes(l) && n !in Nodes(r)
  }

  predicate PathDistinct(q: Path) {
    !q.Top? ==>
      && PathDistinct(q.up) && Distinct(q.sibling)
      && PathNodes(q.up) !! Nodes(q.sibling)
      && q.node !in PathNodes(q.up) && q.node !in Nodes(q.sibling)
  }

  /** Shape and path share no node and repeat none. */
  predicate Separate(t: Shape, q: Path) {
    Distinct(t) && PathDistinct(q) && Nodes(t) !! PathNodes(q)
  }

  lemma {:induction false} SeparatePlug(t: Shape, q: Path)
    requires Separate(t, q)
    ensures Distinct(Plug(t, q))
    decreases q
  {
    match q
    case Top =>
    case InLeft(up, n, c, s) => SeparatePlug(Node(t, n, c, s), up);
    case InRight(up, s, n, c) => SeparatePlug(Node(s, n, c, t), up);
  }

  ghost predicate NoRepeats(s: seq<Ref>) {
    forall i, j :: 0 <= i < j < |s| ==> s[i] != s[j]
  }

  lemma {:induction false} DistinctNoRepeats(t: Shape)
    requires Distinct(t)
    ensures NoRepeats(InOrder(t))
  {
    match t
    case Leaf =>
    case Node(l, n, c, r) =>
      DistinctNoRepeats(l); DistinctNoRepeats(r);
      var a, b := InOrder(l), InOrder(r);
      var s := a + [n] + b;
      forall i, j | 0 <= i < j < |s| ensures s[i] != s[j] {
        if j < |a| {
          assert s[i] == a[i] && s[j] == a[j];
        } else if |a| < i {
          assert s[i] == b[i - |a| - 1] && s[j] == b[j - |a| - 1];
        } else {
          assert i < |a| ==> s[i] == a[i] && a[i] in a;
          assert |a| < j ==> s[j] == b[j - |a| - 1] && b[j - |a| - 1] in b;
          NodesInOrder(l, s[i]);
          NodesInOrder(r, s[j]);
        }
      }
  }

  // ---------- rotations on shapes ----------

  predicate CanRotateLeft(t: Shape) { t.Node? && t.right.Node? }

  predicate CanRotateRight(t: Shape) { t.Node? && t.left.Node? }

  function RotatedLeft(t: Shape): Shape
    requires CanRotateLeft(t)
  {
    Node(Node(t.left, t.node, t.color, t.right.left), t.right.node, t.right.color, t.right.right)
  }

  function RotatedRight(t: Shape): Shape
    requires CanRotateRight(t)
  {
    Node(t.left.left, t.left.node, t.left.color, Node(t.left.right, t.node, t.color, t.right))
  }

  lemma {:induction false} RotateLeftKeepsOrder(t: Shape)
    requires CanRotateLeft(t)
    ensures InOrder(RotatedLeft(t)) == InOrder(t)
    ensures Nodes(RotatedLeft(t)) == Nodes(t)
    ensures Distinct(t) ==> Distinct(RotatedLeft(t))
    ensures RotatedRight(RotatedLeft(t)) == t
  {
    assert Distinct(t) ==> Distinct(t.right);
    var a, b, c := InOrder(t.left), InOrder(t.right.left), InOrder(t.right.right);
    assert (a + [t.node] + b) + [t.right.node] + c == a + [t.node] + (b + [t.right.node] + c);
  }

  lemma {:induction false} RotateRightKeepsOrder(t: Shape)
    requires CanRotateRight(t)
    ensures InOrder(RotatedRight(t)) == InOrder(t)
    ensures Nodes(RotatedRight(t)) == Nodes(t)
    ensures Distinct(t) ==> Distinct(RotatedRight(t))
    ensures RotatedLeft(RotatedRight(t)) == t
  {
    assert Distinct(t) ==> Distinct(t.left);
    var a, b, c := InOrder(t.left.left), InOrder(t.left.right), InOrder(t.right);
    assert (a + [t.left.node] + b) + [t.node] + c == a + [t.left.node] + (b + [t.node] + c);
  }

  // ---------- the colour rules ----------

  function RootColor(t: Shape): Color {
    if t.Leaf? then Black else t.color
  }

  /** Black nodes on the leftmost way down. */
  function Blacks(t: Shape): nat {
    match t
    case Leaf => 0
    case Node(l, _, c, _) => Blacks(l) + if c == Black then 1 else 0
  }

  /** Every way down from a node meets the same number of black nodes. */
  predicate Balanced(t: Shape) {
    match t
    case Leaf => true
    case Node(l, _, _, r) => Balanced(l) && Balanced(r) && Blacks(l) == Blacks(r)
  }

  /** No red node has a red child. */
  predicate NoRedRed(t: Shape) {
    match t
    case Leaf => true
    case Node(l, _, c, r) =>
      NoRedRed(l) && NoRedRed(r) && (c == Red ==> RootColor(l) == Black && RootColor(r) == Black)
  }

  predicate RedBlack(t: Shape) {
    RootColor(t) == Black && Balanced(t) && NoRedRed(t)
  }

  /** The colour of the node just above the hole; the sentinel above the root is black. */
  function HoleColor(q: Path): Color {
    if q.Top? then Black else q.color
  }

  /** Whether a red-black subtree with `h` black levels completes the path to a red-black tree. */
  predicate Fits(q: Path, h: nat)
    decreases q
  {
    !q.Top? ==>
      && Balanced(q.sibling) && NoRedRed(q.sibling) && Blacks(q.sibling) == h
      && (q.color == Red ==> RootColor(q.sibling) == Black && !q.up.Top? && q.up.color == Black)
      && Fits(q.up, h + if q.color == Black then 1 else 0)
  }

  function Blackened(t: Shape): Shape {
    if t.Leaf? then Leaf else t.(color := Black)
  }

  lemma {:induction false} FitsPlug(t: Shape, q: Path)
    requires Balanced(t) && NoRedRed(t) && Fits(q, Blacks(t))
    requires RootColor(t) == Red ==> HoleColor(q) == Black && !q.Top?
    ensures RedBlack(Plug(t, q))
    decreases q
  {
    match q
    case Top =>
    case InLeft(up, n, c, s) => FitsPlug(Node(t, n, c, s), up);
    case InRight(up, s, n, c) => FitsPlug(Node(s, n, c, t), up);
  }

  lemma {:induction false} PlugFits(t: Shape, q: Path)
    requires RedBlack(Plug(t, q))
    ensures Balanced(t) && NoRedRed(t) && Fits(q, Blacks(t))
    ensures RootColor(t) == Red ==> HoleColor(q) == Black && !q.Top?
    decreases q
  {
    match q
    case Top =>
    case InLeft(up, n, c, s) => PlugFits(Node(t, n, c, s), up);
    case InRight(up, s, n, c) => PlugFits(Node(s, n, c, t), up);
  }

  /** What a path accepts depends on colours alone, not on which nodes carry them. */
  lemma {:induction false} FitsRenamed(inner: Path, up: Path, s: Shape, c: Color, z: Ref, y: Ref, h: nat)
    ensures Fits(Append(inner, InRight(up, s, z, c)), h) == Fits(Append(inner, InRight(up, s, y, c)), h)
    decreases inner
  {
    if !inner.Top? {
      FitsRenamed(inner.up, up, s, c, z, y, h + if inner.color == Black then 1 else 0);
    }
  }

  // ---------- sorted sequences: the abstract contents of a tree ----------

  ghost predicate Sorted(s: seq<Ref>, key: Ref -> uint32) {
    forall i, j :: 0 <= i < j < |s| ==> key(s[i]) <= key(s[j])
  }

  /** `s` with `z` placed after every node whose key is not larger. */
  function SortedInsert(s: seq<Ref>, z: Ref, key: Ref -> uint32): seq<Ref> {
    if s == [] || key(z) < key(s[0]) then [z] + s else [s[0]] + SortedInsert(s[1..], z, key)
  }

  /** `s` with the first occurrence of `z` taken out. */
  function Without(s: seq<Ref>, z: Ref): seq<Ref> {
    if s == [] then [] else if s[0] == z then s[1..] else [s[0]] + Without(s[1..], z)
  }

  lemma {:induction false} SortedInsertSplit(a: seq<Ref>, b: seq<Ref>, z: Ref, key: Ref -> uint32)
    requires forall i :: 0 <= i < |a| ==> key(a[i]) <= key(z)
    requires forall i :: 0 <= i < |b| ==> key(z) < key(b[i])
    ensures SortedInsert(a + b, z, key) == a + [z] + b
  {
    if a == [] {
      assert a + b == b;
    } else {
      SortedInsertSplit(a[1..], b, z, key);
      assert (a + b)[1..] == a[1..] + b;
      assert [a[0]] + (a[1..] + [z] + b) == a + [z] + b;
    }
  }

  lemma {:induction false} WithoutSplit(a: seq<Ref>, b: seq<Ref>, z: Ref)
    requires z !in a
    ensures Without(a + [z] + b, z) == a + b
  {
    var s := a + [z] + b;
    if a == [] {
      assert s == [z] + b;
      assert a + b == b;
    } else {
      assert s[0] == a[0] && s[1..] == a[1..] + [z] + b;
      WithoutSplit(a[1..], b, z);
      assert [a[0]] + (a[1..] + b) == a + b;
    }
  }

  /** In a sorted sequence the new node goes after the equal keys and before the larger ones. */
  lemma {:induction false} SortedInsertPosition(s: seq<Ref>, z: Ref, key: Ref -> uint32) returns (k: nat)
    requires Sorted(s, key)
    ensures k <= |s| && SortedInsert(s, z, key) == s[..k] + [z] + s[k..]
    ensures forall i :: 0 <= i < k ==> key(s[i]) <= key(z)
    ensures forall i :: k <= i < |s| ==> key(z) < key(s[i])
  {
    if s == [] || key(z) < key(s[0]) {
      k := 0;
    } else {
      var k' := SortedInsertPosition(s[1..], z, key);
      k := k' + 1;
      assert s[..k] == [s[0]] + s[1..][..k'];
      assert s[k..] == s[1..][k'..];
      forall i | k <= i < |s| ensures key(z) < key(s[i]) { assert s[i] == s[1..][i - 1]; }
      forall i | 0 <= i < k ensures key(s[i]) <= key(z) { assert i == 0 || s[i] == s[1..][i - 1]; }
    }
  }

  lemma {:induction false} WithoutPosition(s: seq<Ref>, z: Ref) returns (k: nat)
    requires z in s
    ensures k < |s| && s[k] == z && z !in s[..k] && Without(s, z) == s[..k] + s[k + 1..]
  {
    if s[0] == z {
      k := 0;
    } else {
      var k' := WithoutPosition(s[1..], z);
      k := k' + 1;
      assert s[..k] == [s[0]] + s[1..][..k'];
      assert s[k + 1..] == s[1..][k' + 1..];
    }
  }

  lemma {:induction false} SortedInsertFacts(s: seq<Ref>, z: Ref, key: Ref -> uint32)
    requires Sorted(s, key)
    ensures Sorted(SortedInsert(s, z, key), key)
    ensures multiset(SortedInsert(s, z, key)) == multiset(s) + multiset{z}
    ensures |SortedInsert(s, z, key)| == |s| + 1
  {
    var k := SortedInsertPosition(s, z, key);
    assert s == s[..k] + s[k..];
    SortedAround(s[..k], z, s[k..], key);
  }

  lemma {:induction false} SortedAround(a: seq<Ref>, z: Ref, b: seq<Ref>, key: Ref -> uint32)
    requires Sorted(a + b, key)
    requires forall i :: 0 <= i < |a| ==> key(a[i]) <= key(z)
    requires forall i :: 0 <= i < |b| ==> key(z) < key(b[i])
    ensures Sorted(a + [z] + b, key)
  {
    var s, r := a + b, a + [z] + b;
    forall i, j | 0 <= i < j < |r| ensures key(r[i]) <= key(r[j]) {
      assert i < |a| ==> r[i] == a[i] == s[i];
      assert |a| < i ==> r[i] == b[i - |a| - 1] == s[i - 1];
      assert j < |a| ==> r[j] == a[j] == s[j];
      assert |a| < j ==> r[j] == b[j - |a| - 1] == s[j - 1];
    }
  }

  lemma {:induction false} WithoutFacts(s: seq<Ref>, z: Ref, key: Ref -> uint32)
    requires Sorted(s, key) && z in s
    ensures Sorted(Without(s, z), key)
    ensures multiset(Without(s, z)) == multiset(s) - multiset{z}
    ensures |Without(s, z)| == |s| - 1
  {
    var k := WithoutPosition(s, z);
    assert s == s[..k] + [z] + s[k + 1..];
    SortedGap(s, k, key);
  }

  lemma {:induction false} SortedGap(s: seq<Ref>, k: nat, key: Ref -> uint32)
    requires Sorted(s, key) && k < |s|
    ensures Sorted(s[..k] + s[k + 1..], key)
  {
    var r := s[..k] + s[k + 1..];
    forall i, j | 0 <= i < j < |r| ensures key(r[i]) <= key(r[j]) {
      assert r[i] == s[if i < k then i else i + 1];
      assert r[j] == s[if j < k then j else j + 1];
    }
  }

  // ---------- removing a node from a shape ----------

  /** A path that only turns left: its hole is the first place in in-order. */
  predicate AllLeft(q: Path) {
    !q.Top? ==> q.InLeft? && AllLeft(q.up)
  }

  lemma {:induction false} AllLeftBefore(q: Path)
    requires AllLeft(q)
    ensures Before(q) == []
  {
    if !q.Top? {
      AllLeftBefore(q.up);
    }
  }

  /** The leftmost node of a shape is the first in order, and what replaces it comes next. */
  lemma {:induction false} FirstRemoved(y: Ref, c: Color, x: Shape, inner: Path)
    requires AllLeft(inner)
    ensures InOrder(Plug(Node(Leaf, y, c, x), inner)) == [y] + InOrder(Plug(x, inner))
  {
    AllLeftBefore(inner);
    InOrderPlug(Node(Leaf, y, c, x), inner);
    InOrderPlug(x, inner);
    assert [] + ([] + [y] + InOrder(x)) + After(inner) == [y] + ([] + InOrder(x) + After(inner));
  }

  lemma {:induction false} BeforeInPath(q: Path, n: Ref)
    ensures n in Before(q) ==> n in PathNodes(q)
  {
    if !q.Top? {
      BeforeInPath(q.up, n);
      NodesInOrder(q.sibling, n);
    }
  }

  /** Replacing `a z b` by `a b` in a hole takes `z` out of the whole sequence. */
  lemma {:induction false} PlugRemoves(t: Shape, t': Shape, q: Path, a: seq<Ref>, z: Ref, b: seq<Ref>)
    requires InOrder(t) == a + [z] + b && InOrder(t') == a + b
    requires z !in a && z !in PathNodes(q)
    ensures InOrder(Plug(t', q)) == Without(InOrder(Plug(t, q)), z)
  {
    InOrderPlug(t, q);
    InOrderPlug(t', q);
    BeforeInPath(q, z);
    var x, y := Before(q), After(q);
    WithoutSplit(x + a, b + y, z);
    RegroupAround(x, a, [z], b, y);
    RegroupAround(x, a, [], b, y);
    assert a + [] == a && (x + a) + [] == x + a;
  }

  lemma {:induction false} RegroupAround<T>(x: seq<T>, a: seq<T>, z: seq<T>, b: seq<T>, y: seq<T>)
    ensures x + (a + z + b) + y == (x + a) + z + (b + y)
  {
  }

  // ---------- the way down to a key ----------

  /** The hole lies after every key up to `k` and before every larger one. */
  predicate Brackets(q: Path, k: uint32, key: Ref -> uint32) {
    && (forall n <- Before(q) :: key(n) <= k)
    && (forall n <- After(q) :: k < key(n))
  }

  lemma {:induction false} SortedParts(a: seq<Ref>, n: Ref, b: seq<Ref>, key: Ref -> uint32)
    requires Sorted(a + [n] + b, key)
    ensures forall x <- a :: key(x) <= key(n)
    ensures forall x <- b :: key(n) <= key(x)
  {
    var s := a + [n] + b;
    assert s[|a|] == n;
    forall x <- a ensures key(x) <= key(n) {
      var i :| 0 <= i < |a| && a[i] == x;
      assert s[i] == x;
    }
    forall x <- b ensures key(n) <= key(x) {
      var i :| 0 <= i < |b| && b[i] == x;
      assert s[|a| + 1 + i] == x;
    }
  }

  lemma {:induction false} NodeSplits(t: Shape, q: Path, key: Ref -> uint32)
    requires t.Node? && Sorted(InOrder(Plug(t, q)), key)
    ensures forall x <- InOrder(t.left) :: key(x) <= key(t.node)
    ensures forall x <- InOrder(t.right) :: key(t.node) <= key(x)
  {
    InOrderPlug(t, q);
    var a, b := Before(q) + InOrder(t.left), InOrder(t.right) + After(q);
    RegroupAround(Before(q), InOrder(t.left), [t.node], InOrder(t.right), After(q));
    SortedParts(a, t.node, b, key);
    hide InOrder, Plug, Sorted;
    forall x <- InOrder(t.left) ensures key(x) <= key(t.node) { assert x in a; }
    forall x <- InOrder(t.right) ensures key(t.node) <= key(x) { assert x in b; }
  }

  lemma {:induction false} DescendBrackets(t: Shape, q: Path, k: uint32, key: Ref -> uint32)
    requires t.Node? && Sorted(InOrder(Plug(t, q)), key) && Brackets(q, k, key)
    ensures k < key(t.node) ==> Brackets(InLeft(q, t.node, t.color, t.right), k, key)
    ensures key(t.node) <= k ==> Brackets(InRight(q, t.left, t.node, t.color), k, key)
  {
    NodeSplits(t, q, key);
  }

  /** No node around the hole has key `k`. */
  predicate Avoids(q: Path, k: uint32, key: Ref -> uint32) {
    (forall n <- Before(q) :: key(n) != k) && (forall n <- After(q) :: key(n) != k)
  }

  lemma {:induction false} DescendAvoids(t: Shape, q: Path, k: uint32, key: Ref -> uint32)
    requires t.Node? && Sorted(InOrder(Plug(t, q)), key) && Avoids(q, k, key)
    ensures k < key(t.node) ==> Avoids(InLeft(q, t.node, t.color, t.right), k, key)
    ensures key(t.node) < k ==> Avoids(InRight(q, t.left, t.node, t.color), k, key)
  {
    NodeSplits(t, q, key);
  }

  lemma {:induction false} AvoidsAll(q: Path, k: uint32, key: Ref -> uint32)
    requires Avoids(q, k, key)
    ensures forall n <- InOrder(Plug(Leaf, q)) :: key(n) != k
  {
    InOrderPlug(Leaf, q);
  }

  lemma {:induction false} PlugContains(t: Shape, q: Path)
    requires t.Node?
    ensures t.node in InOrder(Plug(t, q))
  {
    InOrderPlug(t, q);
    assert t.node in InOrder(t);
  }

  /** Filling the bracketed hole with `z` is a sorted insertion. */
  lemma {:induction false} PlugInserts(q: Path, z: Ref, key: Ref -> uint32)
    requires Brackets(q, key(z), key)
    ensures InOrder(Plug(Node(Leaf, z, Red, Leaf), q)) == SortedInsert(InOrder(Plug(Leaf, q)), z, key)
  {
    InOrderPlug(Leaf, q);
    InOrderPlug(Node(Leaf, z, Red, Leaf), q);
    assert Before(q) + [] + After(q) == Before(q) + After(q);
    assert [] + [z] + [] == [z];
    SortedInsertSplit(Before(q), After(q), z, key);
  }

  lemma {:induction false} DepthPlug(t: Shape, q: Path)
    ensures Depth(q) + Height(t) <= Height(Plug(t, q))
    decreases q
  {
    match q
    case Top =>
    case InLeft(up, n, c, s) => DepthPlug(Node(t, n, c, s), up);
    case InRight(up, s, n, c) => DepthPlug(Node(s, n, c, t), up);
  }

  // ---------- height ----------

  function Pow2(n: nat): nat {
    if n == 0 then 1 else 2 * Pow2(n - 1)
  }

  lemma {:induction false} Pow2Adds(a: nat, b: nat)
    ensures Pow2(a + b) == Pow2(a) * Pow2(b)
  {
    if a != 0 {
      Pow2Adds(a - 1, b);
    }
  }

  lemma {:induction false} Pow2Monotone(a: nat, b: nat)
    requires a <= b
    ensures Pow2(a) <= Pow2(b)
    decreases b
  {
    if a < b {
      Pow2Monotone(a, b - 1);
    }
  }

  lemma {:induction false} BlacksBoundSize(t: Shape)
    requires Balanced(t)
    ensures Pow2(Blacks(t)) <= |InOrder(t)| + 1
  {
    if t.Node? {
      BlacksBoundSize(t.left);
      BlacksBoundSize(t.right);
    }
  }

  lemma {:induction false} BlacksBoundHeight(t: Shape)
    requires Balanced(t) && NoRedRed(t)
    ensures Height(t) <= 2 * Blacks(t) + if RootColor(t) == Red then 1 else 0
  {
    if t.Node? {
      BlacksBoundHeight(t.left);
      BlacksBoundHeight(t.right);
    }
  }

  /** A red-black tree of n nodes has height at most 2·log2(n + 1), that is, 2^height <= (n + 1)^2. */
  lemma {:induction false} HeightBound(t: Shape)
    requires RedBlack(t)
    ensures Pow2(Height(t)) <= (|InOrder(t)| + 1) * (|InOrder(t)| + 1)
  {
    BlacksBoundSize(t);
    BlacksBoundHeight(t);
    var b, n := Blacks(t), |InOrder(t)| + 1;
    Pow2Monotone(Height(t), b + b);
    Pow2Adds(b, b);
    SquareMonotone(Pow2(b), n);
  }

  /** Following links downwards costs no more than the height bound. */
  lemma {:induction false} SearchBound(t: Shape, steps: nat)
    requires RedBlack(t) && steps <= Height(t)
    ensures Pow2(steps) <= (|InOrder(t)| + 1) * (|InOrder(t)| + 1)
  {
    Pow2Monotone(steps, Height(t));
    HeightBound(t);
  }

  lemma {:induction false} SquareMonotone(a: nat, b: nat)
    requires a <= b
    ensures a * a <= b * b
  {
    var d := b - a;
    assert b * b == a * a + d * (a + b);
    NonNegative(d, a + b);
  }
}
