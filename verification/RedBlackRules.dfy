/**
 What the repair loops keep, on (shape, path) pairs: after each case of insertion and deletion
 the pair again fits together, up to the one violation that the loop is still carrying.
 */
module RedBlackRules {
  import opened Machine
  import opened RedBlackShape
  import opened RedBlackLinks

  // ---------- insertion ----------

  /** A red subtree that may hang below a red node, everything else being in order. */
  predicate InsertState(t: Shape, q: Path) {
    t.Node? && t.color == Red && Balanced(t) && NoRedRed(t) && Fits(q, Blacks(t))
  }

  /** Below a red parent there are always a black grandparent and an uncle. */
  lemma {:induction false} Uncle(t: Shape, q: Path)
    requires InsertState(t, q) && HoleColor(q) == Red
    ensures !q.up.Top? && q.up.color == Black
    ensures Balanced(q.sibling) && NoRedRed(q.sibling) && Blacks(q.sibling) == Blacks(t) && RootColor(q.sibling) == Black
    ensures Balanced(q.up.sibling) && NoRedRed(q.up.sibling) && Blacks(q.up.sibling) == Blacks(t)
    ensures Fits(q.up.up, Blacks(t) + 1)
  {
    assert Fits(q.up, Blacks(t));
  }

  /** The new node's parent and uncle turn black and its grandparent red. */
  function PushedUp(t: Shape, q: Path): Shape
    requires !q.Top? && !q.up.Top?
  {
    var below := Filled(t, Repainted(q, Black));
    if q.up.InLeft? then Node(below, q.up.node, Red, Blackened(q.up.sibling))
    else Node(Blackened(q.up.sibling), q.up.node, Red, below)
  }

  lemma {:induction false} PushUpKeeps(t: Shape, q: Path)
    requires InsertState(t, q) && HoleColor(q) == Red && !q.up.Top? && RootColor(q.up.sibling) == Red
    ensures InsertState(PushedUp(t, q), q.up.up)
    ensures InOrder(Plug(PushedUp(t, q), q.up.up)) == InOrder(Plug(t, q))
    ensures Depth(q.up.up) + 2 == Depth(q)
  {
    Uncle(t, q);
    SameOrderPlug(PushedUp(t, q), Filled(Filled(t, q), q.up), q.up.up);
  }

  /** Rotating an inner grandchild outwards swaps the roles of the two red nodes. */
  lemma {:induction false} TurnOutKeeps(t: Shape, q: Path)
    requires InsertState(t, q) && HoleColor(q) == Red && !q.up.Top?
    ensures q.InRight? ==>
      var r := RotatedLeft(Filled(t, q));
      && InsertState(r.left, InLeft(q.up, r.node, Red, r.right))
      && InOrder(Plug(r, q.up)) == InOrder(Plug(t, q))
    ensures q.InLeft? ==>
      var r := RotatedRight(Filled(t, q));
      && InsertState(r.right, InRight(q.up, r.left, r.node, Red))
      && InOrder(Plug(r, q.up)) == InOrder(Plug(t, q))
  {
    if q.InRight? {
      RotateLeftKeepsOrder(Filled(t, q));
      SameOrderPlug(RotatedLeft(Filled(t, q)), Filled(t, q), q.up);
    } else {
      RotateRightKeepsOrder(Filled(t, q));
      SameOrderPlug(RotatedRight(Filled(t, q)), Filled(t, q), q.up);
    }
  }

  /** The grandparent's subtree with the parent black and the grandparent red, before the rotation. */
  function Tilted(t: Shape, q: Path): Shape
    requires !q.Top? && !q.up.Top?
  {
    Filled(Filled(t, Repainted(q, Black)), Repainted(q.up, Red))
  }

  lemma {:induction false} RotateOverOrder(t: Shape, q: Path)
    requires InsertState(t, q) && HoleColor(q) == Red && !q.up.Top?
    requires q.InLeft? == q.up.InLeft?
    ensures q.InLeft? ==> InOrder(Plug(RotatedRight(Tilted(t, q)), q.up.up)) == InOrder(Plug(t, q))
    ensures q.InRight? ==> InOrder(Plug(RotatedLeft(Tilted(t, q)), q.up.up)) == InOrder(Plug(t, q))
  {
    var tilted := Tilted(t, q);
    assert InOrder(tilted) == InOrder(Filled(Filled(t, q), q.up));
    if q.InLeft? {
      RotateRightKeepsOrder(tilted);
      SameOrderPlug(RotatedRight(tilted), Filled(Filled(t, q), q.up), q.up.up);
    } else {
      RotateLeftKeepsOrder(tilted);
      SameOrderPlug(RotatedLeft(tilted), Filled(Filled(t, q), q.up), q.up.up);
    }
  }

  lemma {:induction false} RotateOverKeeps(t: Shape, q: Path)
    requires InsertState(t, q) && HoleColor(q) == Red && !q.up.Top? && RootColor(q.up.sibling) == Black
    requires q.InLeft? == q.up.InLeft?
    ensures q.InLeft? ==>
      var r := RotatedRight(Tilted(t, q));
      r.left == t && InsertState(t, InLeft(q.up.up, r.node, Black, r.right))
    ensures q.InRight? ==>
      var r := RotatedLeft(Tilted(t, q));
      r.right == t && InsertState(t, InRight(q.up.up, r.left, r.node, Black))
  {
    Uncle(t, q);
  }

  // The same three recolourings in the fields of the nodes.

  lemma {:induction false} PushUpStands(t: Shape, q: Path, root: Ref, nil: Ref, m: Links)
    requires Stands(t, q, root, nil, m) && !q.Top? && !q.up.Top? && q.up.sibling.Node?
    requires m.Has(q.node) && m.Has(q.up.sibling.node) && m.Has(q.up.node)
    ensures Stands(PushedUp(t, q), q.up.up, root, nil,
                   m.(color := m.color[q.node := Black][q.up.sibling.node := Black][q.up.node := Red]))
  {
    RecolorParent(t, q, root, nil, m, Black);
    var m1 := m.(color := m.color[q.node := Black]);
    Up(t, Repainted(q, Black), root, nil, m1);
    var below := Filled(t, Repainted(q, Black));
    RecolorSibling(below, q.up, root, nil, m1, Black);
    var q2 := WithSibling(q.up, q.up.sibling.(color := Black));
    var m2 := m1.(color := m1.color[q.up.sibling.node := Black]);
    RecolorParent(below, q2, root, nil, m2, Red);
    Up(below, Repainted(q2, Red), root, nil, m2.(color := m2.color[q.up.node := Red]));
  }

  lemma {:induction false} TiltStands(t: Shape, q: Path, root: Ref, nil: Ref, m: Links)
    requires Stands(t, q, root, nil, m) && !q.Top? && !q.up.Top?
    requires m.Has(q.node) && m.Has(q.up.node)
    ensures Stands(Tilted(t, q), q.up.up, root, nil, m.(color := m.color[q.node := Black][q.up.node := Red]))
  {
    RecolorParent(t, q, root, nil, m, Black);
    var m1 := m.(color := m.color[q.node := Black]);
    Up(t, Repainted(q, Black), root, nil, m1);
    var below := Filled(t, Repainted(q, Black));
    RecolorParent(below, q.up, root, nil, m1, Red);
    Up(below, Repainted(q.up, Red), root, nil, m1.(color := m1.color[q.up.node := Red]));
  }

  /** When the loop ends, painting the root black restores every rule. */
  lemma {:induction false} InsertStateEnds(t: Shape, q: Path)
    requires InsertState(t, q) && HoleColor(q) == Black
    ensures RedBlack(Blackened(Plug(t, q))) && InOrder(Blackened(Plug(t, q))) == InOrder(Plug(t, q))
    ensures Plug(t, q).Node?
  {
    if !q.Top? {
      FitsPlug(t, q);
    }
    PlugNonEmpty(t, q);
  }

  /** The hole at the end of a search takes a red leaf. */
  lemma {:induction false} LeafFits(q: Path, z: Ref)
    requires RedBlack(Plug(Leaf, q))
    ensures InsertState(Node(Leaf, z, Red, Leaf), q)
  {
    PlugFits(Leaf, q);
  }

  lemma {:induction false} AtTop(t: Shape, k: uint32, key: Ref -> uint32)
    ensures Plug(t, Top) == t && Brackets(Top, k, key) && Avoids(Top, k, key)
  {
  }

  lemma {:induction false} PlugNonEmpty(t: Shape, q: Path)
    requires t.Node? || !q.Top?
    ensures Plug(t, q).Node?
    decreases q
  {
    if !q.Top? {
      PlugNonEmpty(Filled(t, q), q.up);
    }
  }

  // ---------- deletion ----------

  /**
   A subtree that is one black level short for its place. Its root may be red below a red node,
   or red above a red one: such a root is about to turn black.
   */
  predicate DeleteState(t: Shape, q: Path) {
    Balanced(t) && NoRedRed(Blackened(t)) && Fits(q, Blacks(t) + 1)
  }

  /** A black subtree that is one level short has a sibling to borrow from. */
  lemma {:induction false} Sibling(t: Shape, q: Path)
    requires DeleteState(t, q) && !q.Top?
    ensures q.sibling.Node? && Balanced(q.sibling) && NoRedRed(q.sibling) && Blacks(q.sibling) == Blacks(t) + 1
    ensures RootColor(q.sibling) == Red ==>
      && q.color == Black && q.sibling.left.Node? && q.sibling.right.Node?
      && q.sibling.left.color == Black && q.sibling.right.color == Black
    ensures q.color == Red ==> !q.up.Top? && q.up.color == Black
    ensures Fits(q.up, Blacks(t) + 1 + if q.color == Black then 1 else 0)
  {
  }

  /** Case 1: the red sibling is rotated over the parent, so that the new sibling is black. */
  function SiblingUp(t: Shape, q: Path): Shape
    requires !q.Top? && q.sibling.Node?
  {
    var f := Filled(t, WithSibling(Repainted(q, Red), q.sibling.(color := Black)));
    if q.InLeft? then RotatedLeft(f) else RotatedRight(f)
  }

  function BelowSiblingUp(t: Shape, q: Path): Path
    requires !q.Top? && q.sibling.Node?
  {
    var s := q.sibling;
    if q.InLeft? then InLeft(InLeft(q.up, s.node, Black, s.right), q.node, Red, s.left)
    else InRight(InRight(q.up, s.left, s.node, Black), s.right, q.node, Red)
  }

  lemma {:induction false} SiblingUpOrder(t: Shape, q: Path)
    requires !q.Top? && q.sibling.Node?
    ensures InOrder(Plug(t, BelowSiblingUp(t, q))) == InOrder(Plug(t, q))
  {
    var f := Filled(t, WithSibling(Repainted(q, Red), q.sibling.(color := Black)));
    assert InOrder(f) == InOrder(Filled(t, q));
    if q.InLeft? {
      RotateLeftKeepsOrder(f);
    } else {
      RotateRightKeepsOrder(f);
    }
    SameOrderPlug(SiblingUp(t, q), Filled(t, q), q.up);
  }

  lemma {:induction false} SiblingUpKeeps(t: Shape, q: Path)
    requires DeleteState(t, q) && RootColor(t) == Black && !q.Top? && RootColor(q.sibling) == Red
    ensures q.sibling.Node?
    ensures var q' := BelowSiblingUp(t, q);
      && DeleteState(t, q') && RootColor(q'.sibling) == Black && q'.color == Red
      && Depth(q') == Depth(q) + 1
  {
    Sibling(t, q);
  }

  /** Case 2: the sibling gives up a black level too, and the shortage moves up. */
  function ShortageUp(t: Shape, q: Path): Shape
    requires !q.Top? && q.sibling.Node?
  {
    Filled(t, WithSibling(q, q.sibling.(color := Red)))
  }

  lemma {:induction false} ShortageUpKeeps(t: Shape, q: Path)
    requires DeleteState(t, q) && RootColor(t) == Black && !q.Top? && RootColor(q.sibling) == Black
    requires q.sibling.Node? ==> RootColor(q.sibling.left) == Black && RootColor(q.sibling.right) == Black
    ensures q.sibling.Node?
    ensures DeleteState(ShortageUp(t, q), q.up)
    ensures InOrder(Plug(ShortageUp(t, q), q.up)) == InOrder(Plug(t, q))
  {
    Sibling(t, q);
    SameOrderPlug(ShortageUp(t, q), Filled(t, q), q.up);
  }

  /** Case 3: the sibling's near red child takes the sibling's place. */
  function NearTurned(q: Path): Shape
    requires !q.Top? && q.sibling.Node?
    requires if q.InLeft? then q.sibling.left.Node? else q.sibling.right.Node?
  {
    var s := q.sibling;
    if q.InLeft? then RotatedRight(Node(s.left.(color := Black), s.node, Red, s.right))
    else RotatedLeft(Node(s.left, s.node, Red, s.right.(color := Black)))
  }

  lemma {:induction false} NearTurnedOrder(t: Shape, q: Path)
    requires !q.Top? && q.sibling.Node?
    requires if q.InLeft? then q.sibling.left.Node? else q.sibling.right.Node?
    ensures InOrder(Plug(t, WithSibling(q, NearTurned(q)))) == InOrder(Plug(t, q))
  {
    var s := q.sibling;
    if q.InLeft? {
      RotateRightKeepsOrder(Node(s.left.(color := Black), s.node, Red, s.right));
    } else {
      RotateLeftKeepsOrder(Node(s.left, s.node, Red, s.right.(color := Black)));
    }
    assert InOrder(NearTurned(q)) == InOrder(s);
    SameOrderPlug(Filled(t, WithSibling(q, NearTurned(q))), Filled(t, q), q.up);
  }

  lemma {:induction false} NearTurnedKeeps(t: Shape, q: Path)
    requires DeleteState(t, q) && RootColor(t) == Black && !q.Top? && RootColor(q.sibling) == Black && q.sibling.Node?
    requires if q.InLeft? then RootColor(q.sibling.left) == Red && RootColor(q.sibling.right) == Black
             else RootColor(q.sibling.right) == Red && RootColor(q.sibling.left) == Black
    ensures var q' := WithSibling(q, NearTurned(q));
      && DeleteState(t, q') && q'.sibling.color == Black
      && RootColor(if q.InLeft? then q'.sibling.right else q'.sibling.left) == Red
  {
    Sibling(t, q);
    var near := if q.InLeft? then q.sibling.left else q.sibling.right;
    assert Balanced(near) && NoRedRed(near);
    assert Blacks(near) == Blacks(near.left) == Blacks(near.right) == Blacks(t);
    assert Blacks(q.sibling.left) == Blacks(q.sibling.right) == Blacks(t);
    var n := NearTurned(q);
    assert Balanced(near.left) && Balanced(near.right) && NoRedRed(near.left) && NoRedRed(near.right);
    if q.InLeft? {
      assert n.left == near.left && n.right == Node(near.right, q.sibling.node, Red, q.sibling.right);
      assert Balanced(n.right) && Blacks(n.right) == Blacks(t);
    } else {
      assert n.right == near.right && n.left == Node(q.sibling.left, q.sibling.node, Red, near.left);
      assert Balanced(n.left) && Blacks(n.left) == Blacks(t);
      assert NoRedRed(n.left);
    }
    assert Balanced(n) && NoRedRed(n) && Blacks(n) == Blacks(t) + 1;
  }

  /** Case 4: a rotation with the far red child turned black pays for the missing level. */
  function PaidPath(q: Path): Path
    requires !q.Top? && q.sibling.Node?
    requires if q.InLeft? then q.sibling.right.Node? else q.sibling.left.Node?
  {
    var s := q.sibling;
    if q.InLeft? then InLeft(q.up, q.node, Black, Node(s.left, s.node, q.color, s.right.(color := Black)))
    else InRight(q.up, Node(s.left.(color := Black), s.node, q.color, s.right), q.node, Black)
  }

  function Paid(t: Shape, q: Path): Shape
    requires !q.Top? && q.sibling.Node?
    requires if q.InLeft? then q.sibling.right.Node? else q.sibling.left.Node?
  {
    var f := Filled(t, PaidPath(q));
    if q.InLeft? then RotatedLeft(f) else RotatedRight(f)
  }

  lemma {:induction false} PaidOrder(t: Shape, q: Path)
    requires !q.Top? && q.sibling.Node?
    requires if q.InLeft? then q.sibling.right.Node? else q.sibling.left.Node?
    ensures InOrder(Plug(Paid(t, q), q.up)) == InOrder(Plug(t, q))
  {
    var f := Filled(t, PaidPath(q));
    assert InOrder(PaidPath(q).sibling) == InOrder(q.sibling);
    if q.InLeft? {
      RotateLeftKeepsOrder(f);
    } else {
      RotateRightKeepsOrder(f);
    }
    SameOrderPlug(Paid(t, q), Filled(t, q), q.up);
  }

  lemma {:induction false} PaidKeeps(t: Shape, q: Path)
    requires DeleteState(t, q) && RootColor(t) == Black && !q.Top? && RootColor(q.sibling) == Black && q.sibling.Node?
    requires RootColor(if q.InLeft? then q.sibling.right else q.sibling.left) == Red
    ensures RedBlack(Plug(Paid(t, q), q.up))
  {
    Sibling(t, q);
    FitsPlug(Paid(t, q), q.up);
  }

  // The recolourings of cases 1, 3 and 4 in the fields of the nodes.

  lemma {:induction false} SiblingUpPaints(t: Shape, q: Path, root: Ref, nil: Ref, m: Links)
    requires Stands(t, q, root, nil, m) && !q.Top? && q.sibling.Node?
    requires m.Has(q.node) && m.Has(q.sibling.node)
    ensures Stands(Filled(t, WithSibling(Repainted(q, Red), q.sibling.(color := Black))), q.up, root, nil,
                   m.(color := m.color[q.sibling.node := Black][q.node := Red]))
  {
    RecolorSibling(t, q, root, nil, m, Black);
    var q1 := WithSibling(q, q.sibling.(color := Black));
    var m1 := m.(color := m.color[q.sibling.node := Black]);
    RecolorParent(t, q1, root, nil, m1, Red);
    Up(t, Repainted(q1, Red), root, nil, m1.(color := m1.color[q.node := Red]));
  }

  lemma {:induction false} NearPaints(t: Shape, q: Path, root: Ref, nil: Ref, m: Links)
    requires Stands(t, q, root, nil, m) && !q.Top? && q.sibling.Node?
    requires if q.InLeft? then q.sibling.left.Node? else q.sibling.right.Node?
    requires m.Has(q.sibling.node) && m.Has((if q.InLeft? then q.sibling.left else q.sibling.right).node)
    ensures var s := q.sibling;
      var near := if q.InLeft? then s.left else s.right;
      Stands(if q.InLeft? then Node(near.(color := Black), s.node, Red, s.right)
             else Node(s.left, s.node, Red, near.(color := Black)),
             SiblingPath(t, q), root, nil, m.(color := m.color[near.node := Black][s.node := Red]))
  {
    var s, p := q.sibling, SiblingPath(t, q);
    ToSibling(t, q, root, nil, m);
    if q.InLeft? {
      DownLeft(s, p, root, nil, m);
      var p1 := InLeft(p, s.node, s.color, s.right);
      RecolorTop(s.left, p1, root, nil, m, Black);
      var m1 := m.(color := m.color[s.left.node := Black]);
      RecolorParent(s.left.(color := Black), p1, root, nil, m1, Red);
      Up(s.left.(color := Black), Repainted(p1, Red), root, nil, m1.(color := m1.color[s.node := Red]));
    } else {
      DownRight(s, p, root, nil, m);
      var p1 := InRight(p, s.left, s.node, s.color);
      RecolorTop(s.right, p1, root, nil, m, Black);
      var m1 := m.(color := m.color[s.right.node := Black]);
      RecolorParent(s.right.(color := Black), p1, root, nil, m1, Red);
      Up(s.right.(color := Black), Repainted(p1, Red), root, nil, m1.(color := m1.color[s.node := Red]));
    }
  }

  lemma {:induction false} FarPaints(t: Shape, q: Path, root: Ref, nil: Ref, m: Links)
    requires Stands(t, q, root, nil, m) && !q.Top? && q.sibling.Node?
    requires if q.InLeft? then q.sibling.right.Node? else q.sibling.left.Node?
    requires m.Has((if q.InLeft? then q.sibling.right else q.sibling.left).node)
    ensures var s := q.sibling;
      var far := if q.InLeft? then s.right else s.left;
      Stands(t, WithSibling(q, if q.InLeft? then s.(right := far.(color := Black)) else s.(left := far.(color := Black))),
             root, nil, m.(color := m.color[far.node := Black]))
  {
    var s, p := q.sibling, SiblingPath(t, q);
    ToSibling(t, q, root, nil, m);
    if q.InLeft? {
      var p1 := InRight(p, s.left, s.node, s.color);
      DownRight(s, p, root, nil, m);
      RecolorTop(s.right, p1, root, nil, m, Black);
      var m1 := m.(color := m.color[s.right.node := Black]);
      Up(s.right.(color := Black), p1, root, nil, m1);
      ToSibling(s.(right := s.right.(color := Black)), p, root, nil, m1);
    } else {
      var p1 := InLeft(p, s.node, s.color, s.right);
      DownLeft(s, p, root, nil, m);
      RecolorTop(s.left, p1, root, nil, m, Black);
      var m1 := m.(color := m.color[s.left.node := Black]);
      Up(s.left.(color := Black), p1, root, nil, m1);
      ToSibling(s.(left := s.left.(color := Black)), p, root, nil, m1);
    }
  }

  lemma {:induction false} PaidPaints(t: Shape, q: Path, root: Ref, nil: Ref, m: Links)
    requires Stands(t, q, root, nil, m) && !q.Top? && q.sibling.Node?
    requires if q.InLeft? then q.sibling.right.Node? else q.sibling.left.Node?
    requires m.Has(q.node) && m.Has(q.sibling.node)
    requires m.Has((if q.InLeft? then q.sibling.right else q.sibling.left).node)
    ensures var far := if q.InLeft? then q.sibling.right else q.sibling.left;
      Stands(Filled(t, PaidPath(q)), q.up, root, nil,
             m.(color := m.color[q.sibling.node := q.color][q.node := Black][far.node := Black]))
  {
    RecolorSibling(t, q, root, nil, m, q.color);
    var q1 := WithSibling(q, q.sibling.(color := q.color));
    var m1 := m.(color := m.color[q.sibling.node := q.color]);
    RecolorParent(t, q1, root, nil, m1, Black);
    var q2 := Repainted(q1, Black);
    var m2 := m1.(color := m1.color[q.node := Black]);
    FarPaints(t, q2, root, nil, m2);
    var far := if q.InLeft? then q.sibling.right else q.sibling.left;
    Up(t, PaidPath(q), root, nil, m2.(color := m2.color[far.node := Black]));
  }

  /** When the loop ends, painting its node black restores every rule. */
  lemma {:induction false} DeleteStateEnds(t: Shape, q: Path)
    requires DeleteState(t, q) && (q.Top? || RootColor(t) == Red)
    ensures RedBlack(Plug(Blackened(t), q)) && InOrder(Plug(Blackened(t), q)) == InOrder(Plug(t, q))
  {
    FitsPlug(Blackened(t), q);
    SameOrderPlug(Blackened(t), t, q);
  }

  lemma {:induction false} RedBlackEnds(t: Shape)
    requires RedBlack(t)
    ensures DeleteState(t, Top) && Plug(t, Top) == t
  {
  }

  /** The code's test on which side of its parent a short black subtree hangs. */
  lemma {:induction false} LookShort(t: Shape, q: Path, root: Ref, nil: Ref, m: Links)
    requires Stands(t, q, root, nil, m) && DeleteState(t, q) && !q.Top?
    requires m.Has(nil) && m.color[nil] == Black
    ensures m.Has(q.node) && (RefOf(t, nil) == m.left[q.node] <==> q.InLeft?)
  {
    Sibling(t, q);
    Look(t, q, root, nil, m);
    LookSibling(t, q, root, nil, m);
  }

  // ---------- what is left after a node has been taken out ----------

  lemma {:induction false} OneChildLocal(t: Shape, c: Shape)
    requires t.Node? && Balanced(t) && NoRedRed(t) && (c == t.left || c == t.right)
    ensures Balanced(c) && NoRedRed(c) && NoRedRed(Blackened(c))
    ensures Blacks(t) == Blacks(c) + if t.color == Black then 1 else 0
    ensures t.color == Red ==> RootColor(c) == Black
  {
  }

  /** The subtree that replaces a node with at most one child. */
  lemma {:induction false} OneChildState(t: Shape, c: Shape, q: Path)
    requires t.Node? && RedBlack(Plug(t, q)) && (c == t.left || c == t.right)
    ensures t.color == Black ==> DeleteState(c, q)
    ensures t.color == Red ==> RedBlack(Plug(c, q))
  {
    PlugFits(t, q);
    OneChildLocal(t, c);
    hide Plug, Balanced, NoRedRed, Blacks, Fits, RedBlack;
    if t.color == Red {
      FitsPlug(c, q);
    }
  }

  lemma {:induction false} OneChildOrder(t: Shape, c: Shape, q: Path)
    requires t.Node? && Separate(t, q)
    requires (t.left.Leaf? && c == t.right) || (t.right.Leaf? && c == t.left)
    ensures InOrder(Plug(c, q)) == Without(InOrder(Plug(t, q)), t.node)
  {
    if t.left.Leaf? {
      assert InOrder(t) == [] + [t.node] + InOrder(c) && InOrder(c) == [] + InOrder(c);
      PlugRemoves(t, c, q, [], t.node, InOrder(c));
    } else {
      NodesInOrder(c, t.node);
      assert InOrder(t) == InOrder(c) + [t.node] + [] && InOrder(c) == InOrder(c) + [];
      PlugRemoves(t, c, q, InOrder(c), t.node, []);
    }
  }

  lemma {:induction false} TwoChildrenState(t: Shape, q: Path, y: Ref, c: Color, x: Shape, inner: Path)
    requires t.Node? && RedBlack(Plug(t, q)) && t.right == Plug(Node(Leaf, y, c, x), inner)
    ensures var q' := Append(inner, InRight(q, t.left, y, t.color));
      if c == Black then DeleteState(x, q') else RedBlack(Plug(x, q'))
  {
    var q0 := Append(inner, InRight(q, t.left, t.node, t.color));
    var q' := Append(inner, InRight(q, t.left, y, t.color));
    PlugAppend(Node(Leaf, y, c, x), inner, InRight(q, t.left, t.node, t.color));
    PlugFits(Node(Leaf, y, c, x), q0);
    FitsRenamed(inner, q, t.left, t.color, t.node, y, Blacks(Node(Leaf, y, c, x)));
    if c == Red {
      FitsPlug(x, q');
    }
  }

  lemma {:induction false} TwoChildrenLocal(t: Shape, y: Ref, c: Color, x: Shape, inner: Path)
    requires t.Node? && AllLeft(inner) && t.right == Plug(Node(Leaf, y, c, x), inner)
    ensures var r := [y] + InOrder(Plug(x, inner));
      && InOrder(t) == InOrder(t.left) + [t.node] + r
      && InOrder(Node(t.left, y, t.color, Plug(x, inner))) == InOrder(t.left) + r
  {
    FirstRemoved(y, c, x, inner);
    hide Plug;
    var l, rest := InOrder(t.left), InOrder(Plug(x, inner));
    assert l + [y] + rest == l + ([y] + rest);
  }

  lemma {:induction false} TwoChildrenOrder(t: Shape, q: Path, y: Ref, c: Color, x: Shape, inner: Path)
    requires t.Node? && Separate(t, q) && AllLeft(inner) && t.right == Plug(Node(Leaf, y, c, x), inner)
    ensures InOrder(Plug(x, Append(inner, InRight(q, t.left, y, t.color)))) == Without(InOrder(Plug(t, q)), t.node)
  {
    TwoChildrenLocal(t, y, c, x, inner);
    NodesInOrder(t.left, t.node);
    var rest := Plug(x, inner);
    PlugAppend(x, inner, InRight(q, t.left, y, t.color));
    assert Plug(rest, InRight(q, t.left, y, t.color)) == Plug(Node(t.left, y, t.color, rest), q);
    assert t.node !in Nodes(t.left) && t.node !in PathNodes(q);
    hide InOrder, Plug, Append, Nodes, PathNodes, Separate;
    PlugRemoves(t, Node(t.left, y, t.color, rest), q, InOrder(t.left), t.node, [y] + InOrder(rest));
  }

  /** Node identities: the successor lies inside the right subtree, apart from everything else. */
  lemma {:induction false} SuccessorApart(t: Shape, q: Path, y: Ref, c: Color, x: Shape, inner: Path)
    requires t.Node? && Separate(t, q) && t.right == Plug(Node(Leaf, y, c, x), inner)
    ensures var rest := Plug(x, inner);
      && Separate(Node(t.left, y, t.color, rest), q) && Separate(Node(t.left, t.node, t.color, rest), q)
      && y !in Nodes(Node(t.left, t.node, t.color, rest)) && y !in PathNodes(q) && y != t.node
  {
    NodesPlug(Node(Leaf, y, c, x), inner);
    NodesPlug(x, inner);
    UnplugDistinct(Node(Leaf, y, c, x), inner);
    SeparatePlug(x, inner);
  }

  /** The tree without `z`: in order but for `z`, and red-black or one black level short at (t', q'). */
  predicate TakenOut(z: Ref, t: Shape, q: Path, original: Color, t': Shape, q': Path) {
    && InOrder(Plug(t', q')) == Without(InOrder(Plug(t, q)), z)
    && (if original == Black then DeleteState(t', q') else RedBlack(Plug(t', q')))
    && Depth(q') <= Height(Plug(t, q))
  }

  lemma {:induction false} TwoChildrenTakenOut(t: Shape, q: Path, y: Ref, c: Color, x: Shape, inner: Path, root: Ref, nil: Ref, m: Links)
    requires Stands(t, q, root, nil, m) && RedBlack(Plug(t, q))
    requires t.Node? && AllLeft(inner) && t.right == Plug(Node(Leaf, y, c, x), inner)
    ensures TakenOut(t.node, t, q, c, x, Append(inner, InRight(q, t.left, y, t.color)))
  {
    TwoChildrenState(t, q, y, c, x, inner);
    TwoChildrenOrder(t, q, y, c, x, inner);
    var q0 := InRight(q, t.left, t.node, t.color);
    PlugAppend(Node(Leaf, y, c, x), inner, q0);
    DepthPlug(Node(Leaf, y, c, x), Append(inner, q0));
    DepthAppend(inner, q0);
    DepthAppend(inner, InRight(q, t.left, y, t.color));
  }

  lemma {:induction false} OneChildTakenOut(t: Shape, c: Shape, q: Path, root: Ref, nil: Ref, m: Links)
    requires Stands(t, q, root, nil, m) && t.Node? && RedBlack(Plug(t, q))
    requires (t.left.Leaf? && c == t.right) || (t.right.Leaf? && c == t.left)
    ensures TakenOut(t.node, t, q, t.color, c, q)
  {
    OneChildState(t, c, q);
    OneChildOrder(t, c, q);
    DepthPlug(t, q);
  }

  lemma {:induction false} UnplugDistinct(t: Shape, q: Path)
    requires Distinct(Plug(t, q))
    ensures Separate(t, q)
    decreases q
  {
    if !q.Top? {
      UnplugDistinct(Filled(t, q), q.up);
    }
  }
}
