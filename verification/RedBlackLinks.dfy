/**
 How a (shape, path) pair is laid out in the fields of the nodes, and the small moves that
 pointer code makes on such a layout: step up, step down, recolour, rotate.
 */
module RedBlackLinks {
  import opened RedBlackShape

  /** The fields of all nodes, one sequence per field, indexed by node. */
  datatype Links = Links(left: seq<Ref>, right: seq<Ref>, parent: seq<Ref>, color: seq<Color>) {
    predicate Has(n: Ref) {
      n < |left| && n < |right| && n < |parent| && n < |color|
    }
  }

  function RefOf(t: Shape, nil: Ref): Ref {
    if t.Leaf? then nil else t.node
  }

  function ParentOf(q: Path, nil: Ref): Ref {
    if q.Top? then nil else q.node
  }

  /** The nodes of `t`, hanging below `p`, are linked and coloured as `t` says. */
  predicate TreeAt(t: Shape, p: Ref, nil: Ref, m: Links) {
    t.Node? ==>
      && t.node != nil && m.Has(t.node)
      && m.parent[t.node] == p && m.color[t.node] == t.color
      && m.left[t.node] == RefOf(t.left, nil) && m.right[t.node] == RefOf(t.right, nil)
      && TreeAt(t.left, t.node, nil, m) && TreeAt(t.right, t.node, nil, m)
  }

  /** The nodes of `q` surround a hole that holds the link `r`. */
  predicate PathAt(q: Path, r: Ref, root: Ref, nil: Ref, m: Links)
    decreases q
  {
    match q
    case Top => r == root
    case InLeft(up, n, c, s) =>
      && n != nil && m.Has(n) && m.color[n] == c && m.parent[n] == ParentOf(up, nil)
      && m.left[n] == r && m.right[n] == RefOf(s, nil)
      && TreeAt(s, n, nil, m) && PathAt(up, n, root, nil, m)
    case InRight(up, s, n, c) =>
      && n != nil && m.Has(n) && m.color[n] == c && m.parent[n] == ParentOf(up, nil)
      && m.left[n] == RefOf(s, nil) && m.right[n] == r
      && TreeAt(s, n, nil, m) && PathAt(up, n, root, nil, m)
  }

  /** The whole tree is `t` plugged into `q`, laid out in `m`. */
  predicate Stands(t: Shape, q: Path, root: Ref, nil: Ref, m: Links) {
    Separate(t, q) && TreeAt(t, ParentOf(q, nil), nil, m) && PathAt(q, RefOf(t, nil), root, nil, m)
  }

  // ---------- frames ----------

  /** Two field sequences differ at most at the nodes in `changed`. */
  ghost predicate Same<T>(a: seq<T>, b: seq<T>, changed: set<Ref>) {
    |a| == |b| && forall n: Ref :: n < |a| && n !in changed ==> a[n] == b[n]
  }

  ghost predicate Agree(m: Links, m': Links, changed: set<Ref>) {
    && Same(m.left, m'.left, changed) && Same(m.right, m'.right, changed)
    && Same(m.parent, m'.parent, changed) && Same(m.color, m'.color, changed)
  }

  lemma {:induction false} SameUpdated<T>(a: seq<T>, b: seq<T>, n: Ref, v: T, changed: set<Ref>)
    requires Same(a, b, changed) && n < |a| && n in changed
    ensures Same(a, b[n := v], changed)
  {
  }

  lemma {:induction false} TreeFrame(t: Shape, p: Ref, nil: Ref, m: Links, m': Links, changed: set<Ref>)
    requires TreeAt(t, p, nil, m) && Agree(m, m', changed) && Nodes(t) !! changed
    ensures TreeAt(t, p, nil, m')
  {
    if t.Node? {
      TreeFrame(t.left, t.node, nil, m, m', changed);
      TreeFrame(t.right, t.node, nil, m, m', changed);
    }
  }

  lemma {:induction false} PathFrame(q: Path, r: Ref, root: Ref, nil: Ref, m: Links, m': Links, changed: set<Ref>)
    requires PathAt(q, r, root, nil, m) && Agree(m, m', changed) && PathNodes(q) !! changed
    ensures PathAt(q, r, root, nil, m')
    decreases q
  {
    if !q.Top? {
      TreeFrame(q.sibling, q.node, nil, m, m', changed);
      PathFrame(q.up, q.node, root, nil, m, m', changed);
    }
  }

  // ---------- moves ----------

  /** The subtree one level up: the filled hole together with its parent and sibling. */
  function Filled(t: Shape, q: Path): Shape
    requires !q.Top?
  {
    if q.InLeft? then Node(t, q.node, q.color, q.sibling) else Node(q.sibling, q.node, q.color, t)
  }

  lemma {:induction false} Up(t: Shape, q: Path, root: Ref, nil: Ref, m: Links)
    requires !q.Top? && Stands(t, q, root, nil, m)
    ensures Stands(Filled(t, q), q.up, root, nil, m)
    ensures Plug(Filled(t, q), q.up) == Plug(t, q)
  {
  }

  lemma {:induction false} DownLeft(t: Shape, q: Path, root: Ref, nil: Ref, m: Links)
    requires t.Node? && Stands(t, q, root, nil, m)
    ensures Stands(t.left, InLeft(q, t.node, t.color, t.right), root, nil, m)
    ensures Plug(t.left, InLeft(q, t.node, t.color, t.right)) == Plug(t, q)
  {
  }

  lemma {:induction false} DownRight(t: Shape, q: Path, root: Ref, nil: Ref, m: Links)
    requires t.Node? && Stands(t, q, root, nil, m)
    ensures Stands(t.right, InRight(q, t.left, t.node, t.color), root, nil, m)
    ensures Plug(t.right, InRight(q, t.left, t.node, t.color)) == Plug(t, q)
  {
  }

  lemma {:induction false} LookChild(t: Shape, q: Path, root: Ref, nil: Ref, m: Links)
    requires t.Node? && Stands(t, q, root, nil, m)
    ensures t.left.Node? ==> t.left.node != nil && m.Has(t.left.node)
    ensures t.right.Node? ==> t.right.node != nil && m.Has(t.right.node)
  {
    assert TreeAt(t.left, t.node, nil, m) && TreeAt(t.right, t.node, nil, m);
  }

  lemma {:induction false} LookLeft(t: Shape, q: Path, root: Ref, nil: Ref, m: Links)
    requires t.Node? && Stands(t, q, root, nil, m)
    ensures m.Has(t.node) && (m.left[t.node] == nil <==> t.left == Leaf) && (m.right[t.node] == nil <==> t.right == Leaf)
  {
    assert TreeAt(t.left, t.node, nil, m) && TreeAt(t.right, t.node, nil, m);
  }

  lemma {:induction false} AtTopAll(t: Shape, q: Path)
    ensures Append(Top, q) == q && Plug(t, Top) == t && AllLeft(Top)
  {
  }

  lemma {:induction false} DownLeftInner(t: Shape, inner: Path, q: Path)
    requires t.Node? && AllLeft(inner)
    ensures var inner' := InLeft(inner, t.node, t.color, t.right);
      && Append(inner', q) == InLeft(Append(inner, q), t.node, t.color, t.right)
      && Plug(t.left, inner') == Plug(t, inner) && AllLeft(inner')
  {
  }

  lemma {:induction false} ToTop(t: Shape, q: Path, root: Ref, nil: Ref, m: Links)
    requires Stands(t, q, root, nil, m)
    ensures Stands(Plug(t, q), Top, root, nil, m)
    decreases q
  {
    if !q.Top? {
      Up(t, q, root, nil, m);
      ToTop(Filled(t, q), q.up, root, nil, m);
    }
  }

  /** Stepping up or down along a whole inner path. */
  lemma {:induction false} UpAlong(t: Shape, inner: Path, outer: Path, root: Ref, nil: Ref, m: Links)
    requires Stands(t, Append(inner, outer), root, nil, m)
    ensures Stands(Plug(t, inner), outer, root, nil, m)
    decreases inner
  {
    if !inner.Top? {
      Up(t, Append(inner, outer), root, nil, m);
      UpAlong(Filled(t, inner), inner.up, outer, root, nil, m);
    }
  }

  lemma {:induction false} DownAlong(t: Shape, inner: Path, outer: Path, root: Ref, nil: Ref, m: Links)
    requires Stands(Plug(t, inner), outer, root, nil, m)
    ensures Stands(t, Append(inner, outer), root, nil, m)
    decreases inner
  {
    if !inner.Top? {
      DownAlong(Filled(t, inner), inner.up, outer, root, nil, m);
      if inner.InLeft? {
        DownLeft(Filled(t, inner), Append(inner.up, outer), root, nil, m);
      } else {
        DownRight(Filled(t, inner), Append(inner.up, outer), root, nil, m);
      }
    }
  }

  /** What pointer code standing at (t, q) reads. */
  lemma {:induction false} Look(t: Shape, q: Path, root: Ref, nil: Ref, m: Links)
    requires Stands(t, q, root, nil, m)
    ensures t.Node? ==>
      && t.node != nil && m.Has(t.node) && m.parent[t.node] == ParentOf(q, nil) && m.color[t.node] == t.color
      && m.left[t.node] == RefOf(t.left, nil) && m.right[t.node] == RefOf(t.right, nil)
    ensures q.Top? ==> root == RefOf(t, nil)
    ensures !q.Top? ==>
      && q.node != nil && m.Has(q.node) && m.parent[q.node] == ParentOf(q.up, nil) && m.color[q.node] == q.color
      && m.left[q.node] == RefOf(Filled(t, q).left, nil) && m.right[q.node] == RefOf(Filled(t, q).right, nil)
      && (t.Node? ==> t.node != RefOf(q.sibling, nil))
  {
    if !q.Top? && q.sibling.Node? {
      assert q.sibling.node in Nodes(q.sibling);
    }
  }

  lemma {:induction false} RecolorTop(t: Shape, q: Path, root: Ref, nil: Ref, m: Links, c: Color)
    requires t.Node? && Stands(t, q, root, nil, m)
    ensures Stands(t.(color := c), q, root, nil, m.(color := m.color[t.node := c]))
  {
    var m' := m.(color := m.color[t.node := c]);
    TreeFrame(t.left, t.node, nil, m, m', {t.node});
    TreeFrame(t.right, t.node, nil, m, m', {t.node});
    PathFrame(q, t.node, root, nil, m, m', {t.node});
  }

  lemma {:induction false} RecolorParent(t: Shape, q: Path, root: Ref, nil: Ref, m: Links, c: Color)
    requires !q.Top? && Stands(t, q, root, nil, m)
    ensures Stands(t, Repainted(q, c), root, nil, m.(color := m.color[q.node := c]))
  {
    var m' := m.(color := m.color[q.node := c]);
    Up(t, q, root, nil, m);
    RecolorTop(Filled(t, q), q.up, root, nil, m, c);
    if q.InLeft? {
      DownLeft(Filled(t, q).(color := c), q.up, root, nil, m');
    } else {
      DownRight(Filled(t, q).(color := c), q.up, root, nil, m');
    }
  }

  /** The surroundings of the sibling. */
  function SiblingPath(t: Shape, q: Path): Path
    requires !q.Top?
  {
    if q.InLeft? then InRight(q.up, t, q.node, q.color) else InLeft(q.up, q.node, q.color, t)
  }

  lemma {:induction false} ToSibling(t: Shape, q: Path, root: Ref, nil: Ref, m: Links)
    requires !q.Top? && Stands(t, q, root, nil, m)
    ensures Stands(q.sibling, SiblingPath(t, q), root, nil, m)
    ensures SiblingPath(q.sibling, SiblingPath(t, q)) == q
    ensures Plug(q.sibling, SiblingPath(t, q)) == Plug(t, q)
  {
  }

  lemma {:induction false} RecolorSibling(t: Shape, q: Path, root: Ref, nil: Ref, m: Links, c: Color)
    requires !q.Top? && q.sibling.Node? && Stands(t, q, root, nil, m)
    ensures Stands(t, WithSibling(q, q.sibling.(color := c)), root, nil, m.(color := m.color[q.sibling.node := c]))
  {
    var m', s' := m.(color := m.color[q.sibling.node := c]), q.sibling.(color := c);
    ToSibling(t, q, root, nil, m);
    RecolorTop(q.sibling, SiblingPath(t, q), root, nil, m, c);
    ToSibling(s', SiblingPath(t, q), root, nil, m');
  }

  /** What pointer code reads about a sibling and its children. */
  lemma {:induction false} LookSibling(t: Shape, q: Path, root: Ref, nil: Ref, m: Links)
    requires Stands(t, q, root, nil, m) && !q.Top? && q.sibling.Node?
    requires m.Has(nil) && m.color[nil] == Black
    ensures m.Has(q.node) && m.Has(q.sibling.node) && nil !in {q.node, q.sibling.node}
    ensures m.color[q.node] == q.color && m.color[q.sibling.node] == q.sibling.color
    ensures m.left[q.node] == RefOf(Filled(t, q).left, nil) && m.right[q.node] == RefOf(Filled(t, q).right, nil)
    ensures var l, r := m.left[q.sibling.node], m.right[q.sibling.node];
      && l == RefOf(q.sibling.left, nil) && m.Has(l) && m.color[l] == RootColor(q.sibling.left)
      && r == RefOf(q.sibling.right, nil) && m.Has(r) && m.color[r] == RootColor(q.sibling.right)
    ensures RefOf(t, nil) != q.sibling.node
    ensures q.sibling.left.Node? ==> q.sibling.left.node != nil
    ensures q.sibling.right.Node? ==> q.sibling.right.node != nil
  {
    Look(t, q, root, nil, m);
    ToSibling(t, q, root, nil, m);
    Look(q.sibling, SiblingPath(t, q), root, nil, m);
    assert TreeAt(q.sibling.left, q.sibling.node, nil, m) && TreeAt(q.sibling.right, q.sibling.node, nil, m);
  }

  /** What pointer code reads two levels up: parent, grandparent and uncle. */
  lemma {:induction false} LookAround(t: Shape, q: Path, root: Ref, nil: Ref, m: Links)
    requires Stands(t, q, root, nil, m) && t.Node? && !q.Top? && !q.up.Top?
    requires m.Has(nil) && m.color[nil] == Black
    ensures m.Has(t.node) && m.Has(q.node) && m.Has(q.up.node)
    ensures m.parent[t.node] == q.node && m.parent[q.node] == q.up.node
    ensures q.InLeft? <==> t.node == m.left[q.node]
    ensures q.InRight? <==> t.node == m.right[q.node]
    ensures q.up.InLeft? <==> q.node == m.left[q.up.node]
    ensures m.color[q.node] == q.color && m.color[q.up.node] == q.up.color
    ensures var u := if q.up.InLeft? then m.right[q.up.node] else m.left[q.up.node];
      u == RefOf(q.up.sibling, nil) && m.Has(u) && m.color[u] == RootColor(q.up.sibling)
    ensures nil !in {t.node, q.node, q.up.node}
  {
    Look(t, q, root, nil, m);
    Up(t, q, root, nil, m);
    Look(Filled(t, q), q.up, root, nil, m);
  }

  // ---------- hanging a subtree elsewhere ----------

  function Above(q: Path): set<Ref> {
    if q.Top? then {} else {q.node}
  }

  function TopOf(t: Shape): set<Ref> {
    if t.Leaf? then {} else {t.node}
  }

  /** Node `n` now has these links; its colour is the same. */
  predicate SameBut(m: Links, m': Links, n: Ref, left: Ref, right: Ref, parent: Ref)
    requires m.Has(n) && m'.Has(n)
  {
    m'.left[n] == left && m'.right[n] == right && m'.parent[n] == parent && m'.color[n] == m.color[n]
  }

  /** Hanging a subtree below another parent, and another link into a hole. */
  lemma {:induction false} TreeReparented(t: Shape, p: Ref, p': Ref, nil: Ref, m: Links, m': Links, changed: set<Ref>)
    requires TreeAt(t, p, nil, m) && Distinct(t)
    requires Agree(m, m', changed + TopOf(t)) && Nodes(t) !! changed
    requires t.Node? ==>
      && m'.parent[t.node] == p' && m'.color[t.node] == t.color
      && m'.left[t.node] == m.left[t.node] && m'.right[t.node] == m.right[t.node]
    ensures TreeAt(t, p', nil, m')
  {
    if t.Node? {
      TreeFrame(t.left, t.node, nil, m, m', changed + TopOf(t));
      TreeFrame(t.right, t.node, nil, m, m', changed + TopOf(t));
    }
  }

  lemma {:induction false} PathRelinked(q: Path, r: Ref, r': Ref, root: Ref, root': Ref, nil: Ref, m: Links, m': Links, changed: set<Ref>)
    requires PathAt(q, r, root, nil, m) && PathDistinct(q)
    requires Agree(m, m', changed + Above(q)) && PathNodes(q) !! changed
    requires root' == if q.Top? then r' else root
    requires !q.Top? ==>
      && m'.parent[q.node] == m.parent[q.node] && m'.color[q.node] == q.color
      && m'.left[q.node] == (if q.InLeft? then r' else m.left[q.node])
      && m'.right[q.node] == (if q.InRight? then r' else m.right[q.node])
    ensures PathAt(q, r', root', nil, m')
  {
    if !q.Top? {
      TreeFrame(q.sibling, q.node, nil, m, m', changed + Above(q));
      PathFrame(q.up, q.node, root, nil, m, m', changed + Above(q));
    }
  }

  /** A fresh node, linked below the hole that the search ended in. */
  lemma {:induction false} HangLeaf(z: Ref, q: Path, root: Ref, root': Ref, nil: Ref, m: Links, m': Links)
    requires Stands(Leaf, q, root, nil, m) && z != nil && z !in PathNodes(q) && m.Has(z)
    requires root' == if q.Top? then z else root
    requires Agree(m, m', {z} + Above(q))
    requires m'.left[z] == nil && m'.right[z] == nil && m'.parent[z] == ParentOf(q, nil) && m'.color[z] == Red
    requires !q.Top? ==>
      && m'.parent[q.node] == m.parent[q.node] && m'.color[q.node] == q.color
      && m'.left[q.node] == (if q.InLeft? then z else m.left[q.node])
      && m'.right[q.node] == (if q.InRight? then z else m.right[q.node])
    ensures Stands(Node(Leaf, z, Red, Leaf), q, root', nil, m')
  {
    PathRelinked(q, nil, z, root, root', nil, m, m', {z});
  }

  lemma {:induction false} NilOutside(t: Shape, p: Ref, nil: Ref, m: Links)
    requires TreeAt(t, p, nil, m)
    ensures nil !in Nodes(t)
  {
    if t.Node? {
      NilOutside(t.left, t.node, nil, m);
      NilOutside(t.right, t.node, nil, m);
    }
  }

  lemma {:induction false} NilOutsidePath(q: Path, r: Ref, root: Ref, nil: Ref, m: Links)
    requires PathAt(q, r, root, nil, m)
    ensures nil !in PathNodes(q)
    ensures !q.Top? ==> root in PathNodes(q)
    decreases q
  {
    if !q.Top? {
      NilOutside(q.sibling, q.node, nil, m);
      NilOutsidePath(q.up, q.node, root, nil, m);
    }
  }

  /** The code's test whether it stands at the root. */
  lemma {:induction false} AtRoot(t: Shape, q: Path, root: Ref, nil: Ref, m: Links)
    requires Stands(t, q, root, nil, m)
    ensures RefOf(t, nil) == root <==> q.Top?
  {
    NilOutsidePath(q, RefOf(t, nil), root, nil, m);
  }

  /** A child of the removed node takes its place; an absent child is the sentinel. */
  lemma {:induction false} TopInPath(q: Path)
    ensures !q.Top? ==> q.node in PathNodes(q)
  {
  }

  /** What taking out a node looks at. */
  lemma {:induction false} SpliceLooks(t: Shape, c: Shape, q: Path, root: Ref, nil: Ref, m: Links)
    requires t.Node? && Stands(t, q, root, nil, m) && (c == t.left || c == t.right)
    ensures c.Node? ==> c.node != nil && m.Has(c.node) && m.parent[c.node] == t.node && c.node != t.node
    ensures !q.Top? ==> q.node != t.node && (c.Node? ==> q.node != c.node)
    ensures !q.Top? ==> q.node !in TopOf(c)
  {
    assert TreeAt(t.left, t.node, nil, m) && TreeAt(t.right, t.node, nil, m);
    assert !q.Top? ==> q.node !in Nodes(t) && (c.Node? ==> c.node in Nodes(t));
  }

  lemma {:induction false} HangChild(t: Shape, c: Shape, q: Path, root: Ref, root': Ref, nil: Ref, m: Links, m': Links)
    requires t.Node? && Stands(t, q, root, nil, m) && (c == t.left || c == t.right)
    requires root' == if q.Top? then RefOf(c, nil) else root
    requires Agree(m, m', {nil} + Above(q) + TopOf(c))
    requires c.Node? && m.Has(c.node) ==> SameBut(m, m', c.node, m.left[c.node], m.right[c.node], ParentOf(q, nil))
    requires !q.Top? && m.Has(q.node) ==>
      SameBut(m, m', q.node, if q.InLeft? then RefOf(c, nil) else m.left[q.node],
              if q.InRight? then RefOf(c, nil) else m.right[q.node], m.parent[q.node])
    ensures Stands(c, q, root', nil, m')
  {
    NilOutside(t, ParentOf(q, nil), nil, m);
    NilOutsidePath(q, t.node, root, nil, m);
    TreeReparented(c, t.node, ParentOf(q, nil), nil, m, m', {nil} + Above(q));
    PathRelinked(q, t.node, RefOf(c, nil), root, root', nil, m, m', {nil} + TopOf(c));
  }

  /** `y` stands ready to replace `z`: it already has the right subtree, and `z` has the rest. */
  predicate Ready(l: Shape, c: Color, r: Shape, z: Ref, y: Ref, q: Path, root: Ref, nil: Ref, m: Links) {
    && Separate(Node(l, y, c, r), q) && m.Has(y) && m.Has(z) && nil !in {y, z}
    && TreeAt(l, z, nil, m) && TreeAt(r, y, nil, m) && PathAt(q, z, root, nil, m)
    && m.right[y] == RefOf(r, nil)
    && m.left[z] == RefOf(l, nil) && m.parent[z] == ParentOf(q, nil) && m.color[z] == c
    && z !in PathNodes(q) && z != y
  }

  lemma {:induction false} LookReady(l: Shape, c: Color, r: Shape, z: Ref, y: Ref, q: Path, root: Ref, nil: Ref, m: Links)
    requires Ready(l, c, r, z, y, q, root, nil, m) && l.Node?
    ensures m.Has(y) && m.Has(z) && m.Has(l.node) && nil !in {y, z, l.node} && y != l.node
    ensures m.right[y] == RefOf(r, nil) && m.left[z] == l.node && m.parent[z] == ParentOf(q, nil) && m.color[z] == c
    ensures !q.Top? ==>
      && m.Has(q.node) && q.node != nil && q.node !in {y, z, l.node}
      && (if q.InLeft? then m.left[q.node] == z else m.left[q.node] != z)
    ensures z != y
  {
    assert l.node in Nodes(l);
    assert y !in Nodes(l) && Nodes(l) <= Nodes(Node(l, y, c, r));
    assert !q.Top? ==> q.node in PathNodes(q) && (q.sibling.Node? ==> q.sibling.node in PathNodes(q));
  }

  lemma {:induction false} AdoptRight(l: Shape, c: Color, r: Shape, z: Ref, y: Ref, q: Path, root: Ref, nil: Ref, m: Links, m': Links)
    requires Stands(Node(l, z, c, r), q, root, nil, m) && m.Has(y) && y != nil && r.Node? && m.Has(r.node)
    requires y !in Nodes(Node(l, z, c, r)) && y !in PathNodes(q)
    requires m' == m.(right := m.right[y := m.right[z]], parent := m.parent[r.node := y])
    ensures Ready(l, c, r, z, y, q, root, nil, m')
  {
    TreeReparented(r, z, y, nil, m, m', {y});
    TreeFrame(l, z, nil, m, m', {y} + TopOf(r));
    PathFrame(q, z, root, nil, m, m', {y} + TopOf(r));
  }

  /** Which fields change when `y` takes a place, and to what. */
  ghost predicate PlaceTaken(l: Shape, c: Color, r: Shape, y: Ref, q: Path, nil: Ref, m: Links, m': Links)
    requires m.Has(y) && m'.Has(y)
  {
    && Agree(m, m', {y} + Above(q) + TopOf(l))
    && m'.left[y] == RefOf(l, nil) && m'.right[y] == RefOf(r, nil) && m'.parent[y] == ParentOf(q, nil) && m'.color[y] == c
    && (l.Node? && m.Has(l.node) ==> m'.Has(l.node) && SameBut(m, m', l.node, m.left[l.node], m.right[l.node], y))
    && (!q.Top? && m.Has(q.node) ==>
          m'.Has(q.node) &&
          SameBut(m, m', q.node, if q.InLeft? then y else m.left[q.node], if q.InRight? then y else m.right[q.node], m.parent[q.node]))
  }

  lemma {:induction false} TakePlaceTree(l: Shape, c: Color, r: Shape, z: Ref, y: Ref, q: Path, root: Ref, nil: Ref, m: Links, m': Links)
    requires Ready(l, c, r, z, y, q, root, nil, m) && m'.Has(y) && PlaceTaken(l, c, r, y, q, nil, m, m')
    ensures TreeAt(l, y, nil, m') && TreeAt(r, y, nil, m')
  {
    TreeReparented(l, z, y, nil, m, m', {y} + Above(q));
    TreeFrame(r, y, nil, m, m', {y} + Above(q) + TopOf(l));
  }

  lemma {:induction false} TakePlacePath(l: Shape, c: Color, r: Shape, z: Ref, y: Ref, q: Path, root: Ref, root': Ref, nil: Ref, m: Links, m': Links)
    requires Ready(l, c, r, z, y, q, root, nil, m) && m'.Has(y) && PlaceTaken(l, c, r, y, q, nil, m, m')
    requires root' == if q.Top? then y else root
    ensures PathAt(q, y, root', nil, m')
  {
    assert {y} + TopOf(l) + Above(q) == {y} + Above(q) + TopOf(l);
    PathRelinked(q, z, y, root, root', nil, m, m', {y} + TopOf(l));
  }

  lemma {:induction false} TakePlaceStands(l: Shape, c: Color, r: Shape, z: Ref, y: Ref, q: Path, root: Ref, root': Ref, nil: Ref, m: Links, m': Links)
    requires Ready(l, c, r, z, y, q, root, nil, m) && m'.Has(y) && PlaceTaken(l, c, r, y, q, nil, m, m')
    requires root' == if q.Top? then y else root
    ensures Stands(Node(l, y, c, r), q, root', nil, m')
  {
    TakePlaceTree(l, c, r, z, y, q, root, nil, m, m');
    TakePlacePath(l, c, r, z, y, q, root, root', nil, m, m');
    hide PathAt, Separate, Agree, SameBut;
  }

  /** The successor is the right child itself: only the parent of its own child is written. */
  lemma {:induction false} ReadyDirect(t: Shape, q: Path, root: Ref, nil: Ref, m: Links, m': Links)
    requires t.Node? && t.right.Node? && t.right.left == Leaf && Stands(t, q, root, nil, m)
    requires m.Has(RefOf(t.right.right, nil))
    requires m' == m.(parent := m.parent[RefOf(t.right.right, nil) := t.right.node])
    ensures Ready(t.left, t.color, t.right.right, t.node, t.right.node, q, root, nil, m')
  {
    var y, x := t.right.node, t.right.right;
    assert TreeAt(t.right, t.node, nil, m) && TreeAt(x, y, nil, m) && Distinct(t.right);
    NilOutside(t, ParentOf(q, nil), nil, m);
    NilOutsidePath(q, t.node, root, nil, m);
    if x.Node? {
      assert m.parent[x.node] == y;
      assert m' == m;
    } else {
      TreeFrame(t.left, t.node, nil, m, m', {nil});
      PathFrame(q, t.node, root, nil, m, m', {nil});
    }
  }

  /** The fields after the assignments that put `y` in the place of `z`. */
  function AfterTakePlace(m: Links, l: Shape, c: Color, y: Ref, q: Path, nil: Ref): Links
    requires m.Has(y) && l.Node? && m.Has(l.node) && (!q.Top? ==> m.Has(q.node))
  {
    Links(
      (if q.InLeft? then m.left[q.node := y] else m.left)[y := l.node],
      if q.InRight? then m.right[q.node := y] else m.right,
      m.parent[y := ParentOf(q, nil)][l.node := y],
      m.color[y := c])
  }

  lemma {:induction false} AfterTakePlaceStands(l: Shape, c: Color, r: Shape, z: Ref, y: Ref, q: Path, root: Ref, root': Ref, nil: Ref, m: Links)
    requires Ready(l, c, r, z, y, q, root, nil, m)
    requires root' == if q.Top? then y else root
    requires l.Node? && m.Has(l.node) && (!q.Top? ==> m.Has(q.node))
    ensures Stands(Node(l, y, c, r), q, root', nil, AfterTakePlace(m, l, c, y, q, nil))
  {
    var m' := AfterTakePlace(m, l, c, y, q, nil);
    hide Ready, PlaceTaken, Stands;
    LookReady(l, c, r, z, y, q, root, nil, m);
    AfterTakePlaceTaken(l, c, r, z, y, q, root, nil, m);
    TakePlaceStands(l, c, r, z, y, q, root, root', nil, m, m');
  }

  lemma {:induction false} AfterTakePlaceAgrees(l: Shape, c: Color, y: Ref, q: Path, nil: Ref, m: Links)
    requires m.Has(y) && l.Node? && m.Has(l.node) && (!q.Top? ==> m.Has(q.node))
    ensures Agree(m, AfterTakePlace(m, l, c, y, q, nil), {y} + Above(q) + TopOf(l))
  {
    var changed := {y} + Above(q) + TopOf(l);
    SameUpdated(m.left, if q.InLeft? then m.left[q.node := y] else m.left, y, l.node, changed);
    SameUpdated(m.parent, m.parent, y, ParentOf(q, nil), changed);
    SameUpdated(m.parent, m.parent[y := ParentOf(q, nil)], l.node, y, changed);
    SameUpdated(m.color, m.color, y, c, changed);
  }

  lemma {:induction false} AfterTakePlaceTaken(l: Shape, c: Color, r: Shape, z: Ref, y: Ref, q: Path, root: Ref, nil: Ref, m: Links)
    requires Ready(l, c, r, z, y, q, root, nil, m)
    requires l.Node? && m.Has(l.node) && m.Has(y) && (!q.Top? ==> m.Has(q.node))
    ensures PlaceTaken(l, c, r, y, q, nil, m, AfterTakePlace(m, l, c, y, q, nil))
  {
    hide Ready, Agree, Above, TopOf;
    LookReady(l, c, r, z, y, q, root, nil, m);
    AfterTakePlaceAgrees(l, c, y, q, nil, m);
  }

  // ---------- rotations ----------

  /** The rotated nodes and their neighbours exist. */
  predicate LeftRotatable(m: Links, t: Shape, q: Path) {
    && CanRotateLeft(t) && m.Has(t.node) && m.Has(t.right.node)
    && (t.right.left.Node? ==> m.Has(t.right.left.node)) && (!q.Top? ==> m.Has(q.node))
  }

  /** What the code of a left rotation at (t, q) reads. */
  lemma {:induction false} LeftRotateLooks(t: Shape, q: Path, root: Ref, nil: Ref, m: Links)
    requires CanRotateLeft(t) && Stands(t, q, root, nil, m)
    ensures LeftRotatable(m, t, q) && nil !in {t.node, t.right.node}
    ensures nil !in TopOf(t.right.left)
    ensures !q.Top? ==> q.node !in Nodes(t) && m.color[q.node] == q.color
    ensures m.color[t.node] == t.color && m.color[t.right.node] == t.right.color
    ensures m.right[t.node] == t.right.node && m.left[t.right.node] == RefOf(t.right.left, nil)
    ensures m.left[t.node] == RefOf(t.left, nil) && m.right[t.right.node] == RefOf(t.right.right, nil)
    ensures TreeAt(t.left, t.node, nil, m) && TreeAt(t.right.left, t.right.node, nil, m)
    ensures TreeAt(t.right.right, t.right.node, nil, m)
    ensures t.right.left.Node? ==> m.color[t.right.left.node] == t.right.left.color
    ensures Distinct(t.right.left) && Nodes(t.left) !! Nodes(t.right.left) !! Nodes(t.right.right)
    ensures Nodes(t) == Nodes(t.left) + Nodes(t.right.left) + Nodes(t.right.right) + {t.node, t.right.node}
    ensures t.node != t.right.node && (t.right.left.Node? ==> t.right.left.node !in {t.node, t.right.node})
    ensures !q.Top? ==> q.node !in {t.node, t.right.node} && q.node !in TopOf(t.right.left)
    ensures Above(q) !! Nodes(t) && TopOf(t.right.left) <= Nodes(t.right.left)
    ensures {t.node, t.right.node} !! Nodes(t.left) + Nodes(t.right.left) + Nodes(t.right.right)
  {
    assert TreeAt(t.right, t.node, nil, m) && TreeAt(t.right.left, t.right.node, nil, m) && Distinct(t.right);
  }

  /** As far as the assignments of the rotation need it. */
  lemma {:induction false} LeftRotateReads(t: Shape, q: Path, root: Ref, nil: Ref, m: Links)
    requires CanRotateLeft(t) && Stands(t, q, root, nil, m)
    ensures LeftRotatable(m, t, q)
    ensures var x, y, b := t.node, t.right.node, t.right.left;
      && m.right[x] == y && m.left[y] == RefOf(b, nil) && m.parent[x] == ParentOf(q, nil)
      && x != nil && y != nil && x != y && (b.Node? ==> b.node != nil && b.node != x && b.node != y)
      && (!q.Top? ==> q.node != nil && q.node != x && q.node != y && (b.Node? ==> q.node != b.node))
      && (!q.Top? ==> if q.InLeft? then m.left[q.node] == x else m.left[q.node] != x)
  {
    Look(t, q, root, nil, m);
    LeftRotateLooks(t, q, root, nil, m);
    hide TreeAt, PathAt, Separate, Distinct, PathDistinct, Nodes, PathNodes, Stands, Above;
  }

  /** Which fields a left rotation assigns. */
  ghost predicate LeftRotated(m: Links, m': Links, t: Shape, q: Path, nil: Ref)
    requires LeftRotatable(m, t, q)
  {
    var x, y, b := t.node, t.right.node, t.right.left;
    && Agree(m, m', {x, y} + TopOf(b) + Above(q))
    && SameBut(m, m', x, m.left[x], RefOf(b, nil), y)
    && SameBut(m, m', y, x, m.right[y], ParentOf(q, nil))
    && (b.Node? ==> SameBut(m, m', b.node, m.left[b.node], m.right[b.node], x))
    && (q.InLeft? ==> SameBut(m, m', q.node, y, m.right[q.node], m.parent[q.node]))
    && (q.InRight? ==> SameBut(m, m', q.node, m.left[q.node], y, m.parent[q.node]))
  }

  /** The fields after the assignments of a left rotation. */
  function AfterLeftRotate(m: Links, t: Shape, q: Path, nil: Ref): Links
    requires LeftRotatable(m, t, q)
  {
    var x, y, b := t.node, t.right.node, t.right.left;
    var r := m.right[x := RefOf(b, nil)];
    m.(left := (if q.InLeft? then m.left[q.node := y] else m.left)[y := x],
       right := if q.InRight? then r[q.node := y] else r,
       parent := (if b.Node? then m.parent[b.node := x] else m.parent)[y := ParentOf(q, nil)][x := y])
  }

  lemma {:induction false} AfterLeftRotateAgrees(m: Links, t: Shape, q: Path, nil: Ref)
    requires LeftRotatable(m, t, q)
    ensures Agree(m, AfterLeftRotate(m, t, q, nil), {t.node, t.right.node} + TopOf(t.right.left) + Above(q))
  {
    var x, y, b := t.node, t.right.node, t.right.left;
    var changed := {x, y} + TopOf(b) + Above(q);
    var l := if q.InLeft? then m.left[q.node := y] else m.left;
    var p := if b.Node? then m.parent[b.node := x] else m.parent;
    SameUpdated(m.left, l, y, x, changed);
    SameUpdated(m.right, m.right, x, RefOf(b, nil), changed);
    SameUpdated(m.parent, p, y, ParentOf(q, nil), changed);
    SameUpdated(m.parent, p[y := ParentOf(q, nil)], x, y, changed);
  }

  lemma {:induction false} AfterLeftRotateIsLeftRotated(t: Shape, q: Path, root: Ref, nil: Ref, m: Links)
    requires Stands(t, q, root, nil, m) && LeftRotatable(m, t, q)
    ensures LeftRotated(m, AfterLeftRotate(m, t, q, nil), t, q, nil)
  {
    hide TreeAt, PathAt, Separate, Distinct, PathDistinct, Nodes, PathNodes, Stands, Same, Agree, Above;
    LeftRotateLooks(t, q, root, nil, m);
    AfterLeftRotateAgrees(m, t, q, nil);
  }

  lemma {:induction false} LeftRotateKeepsSentinel(t: Shape, q: Path, root: Ref, nil: Ref, m: Links)
    requires Stands(t, q, root, nil, m) && LeftRotatable(m, t, q) && m.Has(nil)
    ensures AfterLeftRotate(m, t, q, nil).parent[nil] == m.parent[nil]
  {
    LeftRotateLooks(t, q, root, nil, m);
  }

  lemma {:induction false} LeftRotateTree(t: Shape, q: Path, root: Ref, nil: Ref, m: Links, m': Links)
    requires Stands(t, q, root, nil, m) && LeftRotatable(m, t, q) && LeftRotated(m, m', t, q, nil)
    ensures TreeAt(RotatedLeft(t), ParentOf(q, nil), nil, m')
  {
    var x, y, b := t.node, t.right.node, t.right.left;
    LeftRotateLooks(t, q, root, nil, m);
    TreeReparented(b, y, x, nil, m, m', {x, y} + Above(q));
    TreeFrame(t.left, x, nil, m, m', {x, y} + TopOf(b) + Above(q));
    TreeFrame(t.right.right, y, nil, m, m', {x, y} + TopOf(b) + Above(q));
    assert TreeAt(RotatedLeft(t).left, y, nil, m');
  }

  lemma {:induction false} LeftRotateStands(t: Shape, q: Path, root: Ref, root': Ref, nil: Ref, m: Links, m': Links)
    requires Stands(t, q, root, nil, m) && LeftRotatable(m, t, q) && LeftRotated(m, m', t, q, nil)
    requires root' == if q.Top? then t.right.node else root
    ensures Stands(RotatedLeft(t), q, root', nil, m')
  {
    LeftRotateLooks(t, q, root, nil, m);
    LeftRotateTree(t, q, root, nil, m, m');
    RotateLeftKeepsOrder(t);
    PathRelinked(q, t.node, t.right.node, root, root', nil, m, m', {t.node, t.right.node} + TopOf(t.right.left));
  }

  lemma {:induction false} AfterLeftRotateStands(t: Shape, q: Path, root: Ref, root': Ref, nil: Ref, m: Links)
    requires Stands(t, q, root, nil, m) && LeftRotatable(m, t, q) && m.Has(nil)
    requires root' == if q.Top? then t.right.node else root
    ensures Stands(RotatedLeft(t), q, root', nil, AfterLeftRotate(m, t, q, nil))
    ensures AfterLeftRotate(m, t, q, nil).parent[nil] == m.parent[nil]
  {
    LeftRotateKeepsSentinel(t, q, root, nil, m);
    AfterLeftRotateIsLeftRotated(t, q, root, nil, m);
    LeftRotateStands(t, q, root, root', nil, m, AfterLeftRotate(m, t, q, nil));
  }

  /** The rotated nodes and their neighbours exist. */
  predicate RightRotatable(m: Links, t: Shape, q: Path) {
    && CanRotateRight(t) && m.Has(t.node) && m.Has(t.left.node)
    && (t.left.right.Node? ==> m.Has(t.left.right.node)) && (!q.Top? ==> m.Has(q.node))
  }

  /** What the code of a right rotation at (t, q) reads. */
  lemma {:induction false} RightRotateLooks(t: Shape, q: Path, root: Ref, nil: Ref, m: Links)
    requires CanRotateRight(t) && Stands(t, q, root, nil, m)
    ensures RightRotatable(m, t, q) && nil !in {t.node, t.left.node}
    ensures nil !in TopOf(t.left.right)
    ensures !q.Top? ==> q.node !in Nodes(t) && m.color[q.node] == q.color
    ensures m.color[t.node] == t.color && m.color[t.left.node] == t.left.color
    ensures m.left[t.node] == t.left.node && m.right[t.left.node] == RefOf(t.left.right, nil)
    ensures m.right[t.node] == RefOf(t.right, nil) && m.left[t.left.node] == RefOf(t.left.left, nil)
    ensures TreeAt(t.right, t.node, nil, m) && TreeAt(t.left.right, t.left.node, nil, m)
    ensures TreeAt(t.left.left, t.left.node, nil, m)
    ensures t.left.right.Node? ==> m.color[t.left.right.node] == t.left.right.color
    ensures Distinct(t.left.right) && Nodes(t.right) !! Nodes(t.left.right) !! Nodes(t.left.left)
    ensures Nodes(t) == Nodes(t.right) + Nodes(t.left.right) + Nodes(t.left.left) + {t.node, t.left.node}
    ensures t.node != t.left.node && (t.left.right.Node? ==> t.left.right.node !in {t.node, t.left.node})
    ensures !q.Top? ==> q.node !in {t.node, t.left.node} && q.node !in TopOf(t.left.right)
    ensures Above(q) !! Nodes(t) && TopOf(t.left.right) <= Nodes(t.left.right)
    ensures {t.node, t.left.node} !! Nodes(t.right) + Nodes(t.left.right) + Nodes(t.left.left)
  {
    assert TreeAt(t.left, t.node, nil, m) && TreeAt(t.left.right, t.left.node, nil, m) && Distinct(t.left);
  }

  /** As far as the assignments of the rotation need it. */
  lemma {:induction false} RightRotateReads(t: Shape, q: Path, root: Ref, nil: Ref, m: Links)
    requires CanRotateRight(t) && Stands(t, q, root, nil, m)
    ensures RightRotatable(m, t, q)
    ensures var x, y, b := t.node, t.left.node, t.left.right;
      && m.left[x] == y && m.right[y] == RefOf(b, nil) && m.parent[x] == ParentOf(q, nil)
      && x != nil && y != nil && x != y && (b.Node? ==> b.node != nil && b.node != x && b.node != y)
      && (!q.Top? ==> q.node != nil && q.node != x && q.node != y && (b.Node? ==> q.node != b.node))
      && (!q.Top? ==> if q.InLeft? then m.left[q.node] == x else m.left[q.node] != x)
  {
    Look(t, q, root, nil, m);
    RightRotateLooks(t, q, root, nil, m);
    hide TreeAt, PathAt, Separate, Distinct, PathDistinct, Nodes, PathNodes, Stands, Above;
  }

  /** Which fields a right rotation assigns. */
  ghost predicate RightRotated(m: Links, m': Links, t: Shape, q: Path, nil: Ref)
    requires RightRotatable(m, t, q)
  {
    var x, y, b := t.node, t.left.node, t.left.right;
    && Agree(m, m', {x, y} + TopOf(b) + Above(q))
    && SameBut(m, m', x, RefOf(b, nil), m.right[x], y)
    && SameBut(m, m', y, m.left[y], x, ParentOf(q, nil))
    && (b.Node? ==> SameBut(m, m', b.node, m.left[b.node], m.right[b.node], x))
    && (q.InRight? ==> SameBut(m, m', q.node, m.left[q.node], y, m.parent[q.node]))
    && (q.InLeft? ==> SameBut(m, m', q.node, y, m.right[q.node], m.parent[q.node]))
  }

  /** The fields after the assignments of a right rotation. */
  function AfterRightRotate(m: Links, t: Shape, q: Path, nil: Ref): Links
    requires RightRotatable(m, t, q)
  {
    var x, y, b := t.node, t.left.node, t.left.right;
    var r := m.left[x := RefOf(b, nil)];
    m.(right := (if q.InRight? then m.right[q.node := y] else m.right)[y := x],
       left := if q.InLeft? then r[q.node := y] else r,
       parent := (if b.Node? then m.parent[b.node := x] else m.parent)[y := ParentOf(q, nil)][x := y])
  }

  lemma {:induction false} AfterRightRotateAgrees(m: Links, t: Shape, q: Path, nil: Ref)
    requires RightRotatable(m, t, q)
    ensures Agree(m, AfterRightRotate(m, t, q, nil), {t.node, t.left.node} + TopOf(t.left.right) + Above(q))
  {
    var x, y, b := t.node, t.left.node, t.left.right;
    var changed := {x, y} + TopOf(b) + Above(q);
    var r0 := if q.InRight? then m.right[q.node := y] else m.right;
    var p := if b.Node? then m.parent[b.node := x] else m.parent;
    SameUpdated(m.right, r0, y, x, changed);
    SameUpdated(m.left, m.left, x, RefOf(b, nil), changed);
    SameUpdated(m.parent, p, y, ParentOf(q, nil), changed);
    SameUpdated(m.parent, p[y := ParentOf(q, nil)], x, y, changed);
  }

  lemma {:induction false} AfterRightRotateIsRightRotated(t: Shape, q: Path, root: Ref, nil: Ref, m: Links)
    requires Stands(t, q, root, nil, m) && RightRotatable(m, t, q)
    ensures RightRotated(m, AfterRightRotate(m, t, q, nil), t, q, nil)
  {
    hide TreeAt, PathAt, Separate, Distinct, PathDistinct, Nodes, PathNodes, Stands, Same, Agree, Above;
    RightRotateLooks(t, q, root, nil, m);
    AfterRightRotateAgrees(m, t, q, nil);
  }

  lemma {:induction false} RightRotateKeepsSentinel(t: Shape, q: Path, root: Ref, nil: Ref, m: Links)
    requires Stands(t, q, root, nil, m) && RightRotatable(m, t, q) && m.Has(nil)
    ensures AfterRightRotate(m, t, q, nil).parent[nil] == m.parent[nil]
  {
    RightRotateLooks(t, q, root, nil, m);
  }

  lemma {:induction false} RightRotateTree(t: Shape, q: Path, root: Ref, nil: Ref, m: Links, m': Links)
    requires Stands(t, q, root, nil, m) && RightRotatable(m, t, q) && RightRotated(m, m', t, q, nil)
    ensures TreeAt(RotatedRight(t), ParentOf(q, nil), nil, m')
  {
    var x, y, b := t.node, t.left.node, t.left.right;
    RightRotateLooks(t, q, root, nil, m);
    TreeReparented(b, y, x, nil, m, m', {x, y} + Above(q));
    TreeFrame(t.right, x, nil, m, m', {x, y} + TopOf(b) + Above(q));
    TreeFrame(t.left.left, y, nil, m, m', {x, y} + TopOf(b) + Above(q));
    assert TreeAt(RotatedRight(t).right, y, nil, m');
  }

  lemma {:induction false} RightRotateStands(t: Shape, q: Path, root: Ref, root': Ref, nil: Ref, m: Links, m': Links)
    requires Stands(t, q, root, nil, m) && RightRotatable(m, t, q) && RightRotated(m, m', t, q, nil)
    requires root' == if q.Top? then t.left.node else root
    ensures Stands(RotatedRight(t), q, root', nil, m')
  {
    RightRotateLooks(t, q, root, nil, m);
    RightRotateTree(t, q, root, nil, m, m');
    RotateRightKeepsOrder(t);
    PathRelinked(q, t.node, t.left.node, root, root', nil, m, m', {t.node, t.left.node} + TopOf(t.left.right));
  }

  lemma {:induction false} AfterRightRotateStands(t: Shape, q: Path, root: Ref, root': Ref, nil: Ref, m: Links)
    requires Stands(t, q, root, nil, m) && RightRotatable(m, t, q) && m.Has(nil)
    requires root' == if q.Top? then t.left.node else root
    ensures Stands(RotatedRight(t), q, root', nil, AfterRightRotate(m, t, q, nil))
    ensures AfterRightRotate(m, t, q, nil).parent[nil] == m.parent[nil]
  {
    RightRotateKeepsSentinel(t, q, root, nil, m);
    AfterRightRotateIsRightRotated(t, q, root, nil, m);
    RightRotateStands(t, q, root, root', nil, m, AfterRightRotate(m, t, q, nil));
  }
}
