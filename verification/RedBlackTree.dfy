/**
 The kernel's red-black tree: nodes with parent links and one shared, mutable sentinel.

 The fields of the nodes are arrays indexed by node, so that each assignment of the program is an
 array update. Every method carries, as ghost state, the (shape, path) pair that says where it
 stands in the tree. The abstract value of a tree is the in-order sequence of its nodes.
 */
module RedBlackTree {
  import opened Machine
  import opened RedBlackShape
  import opened RedBlackLinks
  import opened RedBlackRules

  class RBTree {
    const key: Ref -> uint32
    const left: array<Ref>
    const right: array<Ref>
    const parent: array<Ref>
    const color: array<Color>
    const nil: Ref
    var root: Ref
    ghost var shape: Shape

    /** The field arrays are separate objects that cover the same nodes, among them the sentinel. */
    ghost predicate Pool() {
      && left != right && left != parent && right != parent
      && left.Length == right.Length == parent.Length == color.Length
      && nil < left.Length
    }

    ghost function Fields(): Links
      reads left, right, parent, color
    {
      Links(left[..], right[..], parent[..], color[..])
    }

    ghost predicate At(t: Shape, q: Path)
      reads this`root, left, right, parent, color
    {
      Stands(t, q, root, nil, Fields())
    }

    /** The nodes of the tree in key order. */
    ghost function Contents(): seq<Ref>
      reads this`shape
    {
      InOrder(shape)
    }

    ghost predicate Valid()
      reads this, left, right, parent, color
    {
      && Pool() && At(shape, Top) && color[nil] == Black
      && RedBlack(shape) && Sorted(InOrder(shape), key)
    }

    constructor (capacity: nat, key: Ref -> uint32)
      ensures Valid() && Contents() == []
      ensures this.key == key && left.Length == capacity + 1 && nil == capacity
      ensures fresh(left) && fresh(right) && fresh(parent) && fresh(color)
    {
      this.key := key;
      left := new Ref[capacity + 1](_ => 0);
      right := new Ref[capacity + 1](_ => 0);
      parent := new Ref[capacity + 1](_ => 0);
      color := new Color[capacity + 1](_ => Black);
      nil := capacity;
      root := capacity;
      shape := Leaf;
    }

    // ---------- rotations ----------

    /**
     The link that points down at `u`, in its parent or in the root, is turned to `v`. The program
     repeats these branches in both rotations and four times in deletion.
     */
    method Relink(u: Ref, v: Ref, ghost q: Path)
      requires Pool() && u < left.Length && parent[u] == ParentOf(q, nil)
      requires !q.Top? ==>
        && q.node != nil && q.node < left.Length
        && (if q.InLeft? then left[q.node] == u else left[q.node] != u)
      modifies this`root, left, right
      ensures root == if q.Top? then v else old(root)
      ensures left[..] == if q.InLeft? then old(left[..])[q.node := v] else old(left[..])
      ensures right[..] == if q.InRight? then old(right[..])[q.node := v] else old(right[..])
    {
      if parent[u] == nil {
        root := v;
      } else if u == left[parent[u]] {
        left[parent[u]] := v;
      } else {
        right[parent[u]] := v;
      }
    }

    method LeftRotate(x: Ref, ghost t: Shape, ghost q: Path)
      requires Pool() && CanRotateLeft(t) && t.node == x && At(t, q)
      modifies this`root, left, right, parent
      ensures At(RotatedLeft(t), q)
      ensures parent[nil] == old(parent[nil])
    {
      hide TreeAt, PathAt, Separate, Distinct, PathDistinct, Nodes, PathNodes, Stands;
      ghost var m, r := Fields(), root;
      LeftRotateReads(t, q, root, nil, m);
      var y := right[x];
      right[x] := left[y];
      if left[y] != nil {
        parent[left[y]] := x;
      }
      parent[y] := parent[x];
      Relink(x, y, q);
      left[y] := x;
      parent[x] := y;
      ghost var m' := AfterLeftRotate(m, t, q, nil);
      assert left[..] == m'.left;
      assert right[..] == m'.right;
      assert parent[..] == m'.parent;
      AfterLeftRotateStands(t, q, r, root, nil, m);
    }

    method RightRotate(y: Ref, ghost t: Shape, ghost q: Path)
      requires Pool() && CanRotateRight(t) && t.node == y && At(t, q)
      modifies this`root, left, right, parent
      ensures At(RotatedRight(t), q)
      ensures parent[nil] == old(parent[nil])
    {
      hide TreeAt, PathAt, Separate, Distinct, PathDistinct, Nodes, PathNodes, Stands;
      ghost var m, r := Fields(), root;
      RightRotateReads(t, q, root, nil, m);
      var x := left[y];
      left[y] := right[x];
      if right[x] != nil {
        parent[right[x]] := y;
      }
      parent[x] := parent[y];
      Relink(y, x, q);
      right[x] := y;
      parent[y] := x;
      ghost var m' := AfterRightRotate(m, t, q, nil);
      assert left[..] == m'.left;
      assert right[..] == m'.right;
      assert parent[..] == m'.parent;
      AfterRightRotateStands(t, q, r, root, nil, m);
    }

    // ---------- insertion ----------

    /** The last case: the parent turns black, the grandparent red, and the parent is rotated over it. */
    method RotateRightOver(z: Ref, ghost t: Shape, ghost q: Path) returns (ghost q': Path)
      requires Pool() && color[nil] == Black && At(t, q) && InsertState(t, q) && t.node == z
      requires q.InLeft? && q.color == Red && q.up.InLeft? && RootColor(q.up.sibling) == Black
      modifies this`root, left, right, parent, color
      ensures color[nil] == Black && At(t, q') && InsertState(t, q')
      ensures InOrder(Plug(t, q')) == InOrder(Plug(t, q))
      ensures HoleColor(q') == Black && Depth(q') < Depth(q)
    {
      hide TreeAt, PathAt, Separate, Distinct, PathDistinct, Nodes, PathNodes, Stands;
      hide Balanced, NoRedRed, Blacks, Fits, InOrder, Plug;
      LookAround(t, q, root, nil, Fields());
      TiltStands(t, q, root, nil, Fields());
      RotateOverKeeps(t, q);
      RotateOverOrder(t, q);
      color[parent[z]] := Black;
      color[parent[parent[z]]] := Red;
      RightRotate(parent[parent[z]], Tilted(t, q), q.up.up);
      ghost var r := RotatedRight(Tilted(t, q));
      DownLeft(r, q.up.up, root, nil, Fields());
      q' := InLeft(q.up.up, r.node, Black, r.right);
    }

    /** One turn of the loop when the parent of `z` is a left child. */
    method InsertFixLeft(z: Ref, ghost t: Shape, ghost q: Path)
      returns (z': Ref, ghost t': Shape, ghost q': Path, ghost rotations: nat)
      requires Pool() && color[nil] == Black && At(t, q) && InsertState(t, q) && t.node == z
      requires HoleColor(q) == Red && q.up.InLeft?
      modifies this`root, left, right, parent, color
      ensures color[nil] == Black && At(t', q') && InsertState(t', q') && t'.node == z'
      ensures InOrder(Plug(t', q')) == InOrder(Plug(t, q))
      ensures if rotations == 0 then Depth(q') + 2 == Depth(q)
              else rotations <= 2 && HoleColor(q') == Black && Depth(q') < Depth(q)
    {
      hide TreeAt, PathAt, Separate, Distinct, PathDistinct, Nodes, PathNodes, Stands;
      hide Balanced, NoRedRed, Blacks, Fits, InOrder, Plug;
      z', t', q', rotations := z, t, q, 0;
      Uncle(t, q);
      LookAround(t, q, root, nil, Fields());
      var y := right[parent[parent[z']]];
      if color[y] == Red {
        PushUpStands(t, q, root, nil, Fields());
        PushUpKeeps(t, q);
        color[parent[z']] := Black;
        color[y] := Black;
        color[parent[parent[z']]] := Red;
        z' := parent[parent[z']];
        t', q' := PushedUp(t, q), q.up.up;
      } else {
        if z' == right[parent[z']] {
          z' := parent[z'];
          Up(t, q, root, nil, Fields());
          LeftRotate(z', Filled(t, q), q.up);
          ghost var r := RotatedLeft(Filled(t, q));
          DownLeft(r, q.up, root, nil, Fields());
          TurnOutKeeps(t, q);
          t', q', rotations := r.left, InLeft(q.up, r.node, Red, r.right), 1;
        }
        q' := RotateRightOver(z', t', q');
        rotations := rotations + 1;
      }
    }

    /** The mirrored last case: the parent turns black, the grandparent red, and the parent is rotated over it. */
    method RotateLeftOver(z: Ref, ghost t: Shape, ghost q: Path) returns (ghost q': Path)
      requires Pool() && color[nil] == Black && At(t, q) && InsertState(t, q) && t.node == z
      requires q.InRight? && q.color == Red && q.up.InRight? && RootColor(q.up.sibling) == Black
      modifies this`root, left, right, parent, color
      ensures color[nil] == Black && At(t, q') && InsertState(t, q')
      ensures InOrder(Plug(t, q')) == InOrder(Plug(t, q))
      ensures HoleColor(q') == Black && Depth(q') < Depth(q)
    {
      hide TreeAt, PathAt, Separate, Distinct, PathDistinct, Nodes, PathNodes, Stands;
      hide Balanced, NoRedRed, Blacks, Fits, InOrder, Plug;
      LookAround(t, q, root, nil, Fields());
      TiltStands(t, q, root, nil, Fields());
      RotateOverKeeps(t, q);
      RotateOverOrder(t, q);
      color[parent[z]] := Black;
      color[parent[parent[z]]] := Red;
      LeftRotate(parent[parent[z]], Tilted(t, q), q.up.up);
      ghost var r := RotatedLeft(Tilted(t, q));
      DownRight(r, q.up.up, root, nil, Fields());
      q' := InRight(q.up.up, r.left, r.node, Black);
    }

    /** One turn of the loop when the parent of `z` is a right child. */
    method InsertFixRight(z: Ref, ghost t: Shape, ghost q: Path)
      returns (z': Ref, ghost t': Shape, ghost q': Path, ghost rotations: nat)
      requires Pool() && color[nil] == Black && At(t, q) && InsertState(t, q) && t.node == z
      requires HoleColor(q) == Red && q.up.InRight?
      modifies this`root, left, right, parent, color
      ensures color[nil] == Black && At(t', q') && InsertState(t', q') && t'.node == z'
      ensures InOrder(Plug(t', q')) == InOrder(Plug(t, q))
      ensures if rotations == 0 then Depth(q') + 2 == Depth(q)
              else rotations <= 2 && HoleColor(q') == Black && Depth(q') < Depth(q)
    {
      hide TreeAt, PathAt, Separate, Distinct, PathDistinct, Nodes, PathNodes, Stands;
      hide Balanced, NoRedRed, Blacks, Fits, InOrder, Plug;
      z', t', q', rotations := z, t, q, 0;
      Uncle(t, q);
      LookAround(t, q, root, nil, Fields());
      var y := left[parent[parent[z']]];
      if color[y] == Red {
        PushUpStands(t, q, root, nil, Fields());
        PushUpKeeps(t, q);
        color[parent[z']] := Black;
        color[y] := Black;
        color[parent[parent[z']]] := Red;
        z' := parent[parent[z']];
        t', q' := PushedUp(t, q), q.up.up;
      } else {
        if z' == left[parent[z']] {
          z' := parent[z'];
          Up(t, q, root, nil, Fields());
          RightRotate(z', Filled(t, q), q.up);
          ghost var r := RotatedRight(Filled(t, q));
          DownRight(r, q.up, root, nil, Fields());
          TurnOutKeeps(t, q);
          t', q', rotations := r.right, InRight(q.up, r.left, r.node, Red), 1;
        }
        q' := RotateLeftOver(z', t', q');
        rotations := rotations + 1;
      }
    }

    /** The end of the loop: whatever was red at the root turns black. */
    method BlackenRoot(ghost t: Shape, ghost q: Path)
      requires Pool() && color[nil] == Black && At(t, q) && InsertState(t, q) && HoleColor(q) == Black
      modifies this`shape, color
      ensures color[nil] == Black && At(shape, Top) && RedBlack(shape)
      ensures InOrder(shape) == InOrder(Plug(t, q))
    {
      InsertStateEnds(t, q);
      ToTop(t, q, root, nil, Fields());
      hide TreeAt, PathAt, Separate, Distinct, PathDistinct, Nodes, PathNodes, Stands;
      hide Balanced, NoRedRed, Blacks, Fits, InOrder, Plug;
      RecolorTop(Plug(t, q), Top, root, nil, Fields(), Black);
      Look(Plug(t, q), Top, root, nil, Fields());
      color[root] := Black;
      shape := Blackened(Plug(t, q));
    }

    /** One turn of the loop. */
    method InsertFixTurn(z: Ref, ghost t: Shape, ghost q: Path)
      returns (z': Ref, ghost t': Shape, ghost q': Path, ghost rotations: nat)
      requires Pool() && color[nil] == Black && At(t, q) && InsertState(t, q) && t.node == z && HoleColor(q) == Red
      modifies this`root, left, right, parent, color
      ensures color[nil] == Black && At(t', q') && InsertState(t', q') && t'.node == z'
      ensures z' < left.Length && parent[z'] == ParentOf(q', nil) < left.Length && color[parent[z']] == HoleColor(q')
      ensures InOrder(Plug(t', q')) == InOrder(Plug(t, q))
      ensures if rotations == 0 then Depth(q') + 2 == Depth(q)
              else rotations <= 2 && HoleColor(q') == Black && Depth(q') < Depth(q)
    {
      hide TreeAt, PathAt, Separate, Distinct, PathDistinct, Nodes, PathNodes, Stands;
      hide Balanced, NoRedRed, Blacks, Fits, InOrder, Plug;
      Uncle(t, q);
      LookAround(t, q, root, nil, Fields());
      if parent[z] == left[parent[parent[z]]] {
        z', t', q', rotations := InsertFixLeft(z, t, q);
      } else {
        z', t', q', rotations := InsertFixRight(z, t, q);
      }
      Look(t', q', root, nil, Fields());
    }

    /** Restores the rules above a new red leaf, with at most two rotations. */
    method InsertFixup(z0: Ref, ghost t0: Shape, ghost q0: Path) returns (ghost rotations: nat, ghost climbs: nat)
      requires Pool() && color[nil] == Black && At(t0, q0) && InsertState(t0, q0) && t0.node == z0
      modifies this, left, right, parent, color
      ensures Pool() && color[nil] == Black && At(shape, Top) && RedBlack(shape)
      ensures InOrder(shape) == InOrder(Plug(t0, q0))
      ensures rotations <= 2 && 2 * climbs <= Depth(q0)
    {
      hide TreeAt, PathAt, Separate, Distinct, PathDistinct, Nodes, PathNodes, Stands;
      hide Balanced, NoRedRed, Blacks, Fits, InOrder, Plug;
      var z := z0;
      ghost var t, q := t0, q0;
      rotations, climbs := 0, 0;
      Look(t, q, root, nil, Fields());
      while color[parent[z]] == Red
        invariant Pool() && color[nil] == Black && At(t, q) && InsertState(t, q) && t.node == z
        invariant z < left.Length && parent[z] == ParentOf(q, nil) < left.Length && color[parent[z]] == HoleColor(q)
        invariant InOrder(Plug(t, q)) == InOrder(Plug(t0, q0))
        invariant if rotations == 0 then Depth(q) + 2 * climbs == Depth(q0)
                  else rotations <= 2 && 2 * climbs <= Depth(q0) && HoleColor(q) == Black
        decreases Depth(q)
      {
        ghost var turns;
        z, t, q, turns := InsertFixTurn(z, t, q);
        rotations, climbs := rotations + turns, if turns == 0 then climbs + 1 else climbs;
      }
      BlackenRoot(t, q);
    }

    /** Links `z` as a red leaf below `y`, where the search ended. */
    method AttachLeaf(z: Ref, y: Ref, ghost q: Path)
      requires Pool() && color[nil] == Black && At(Leaf, q) && y == ParentOf(q, nil) < left.Length
      requires z < left.Length && z != nil && z !in PathNodes(q)
      requires !q.Top? ==> (q.InLeft? <==> key(z) < key(q.node))
      modifies this`root, left, right, parent, color
      ensures color[nil] == Black && At(Node(Leaf, z, Red, Leaf), q)
    {
      hide TreeAt, PathAt, Separate, Distinct, PathDistinct, Nodes, PathNodes, Stands;
      hide Balanced, NoRedRed, Blacks, Fits, InOrder, Plug;
      ghost var m, r := Fields(), root;
      Look(Leaf, q, root, nil, m);
      TopInPath(q);
      parent[z] := y;
      if y == nil {
        root := z;
      } else if key(z) < key(y) {
        left[y] := z;
      } else {
        right[y] := z;
      }
      left[z] := nil;
      right[z] := nil;
      color[z] := Red;
      HangLeaf(z, q, r, root, nil, m, Fields());
    }

    method Insert(z: Ref) returns (ghost rotations: nat, ghost climbs: nat)
      requires Valid() && z < left.Length && z != nil && z !in Contents()
      modifies this, left, right, parent, color
      ensures Valid() && Contents() == SortedInsert(old(Contents()), z, key)
      ensures rotations <= 2 && 2 * climbs <= Height(old(shape))
    {
      hide TreeAt, PathAt, Separate, Distinct, PathDistinct, Nodes, PathNodes, Stands;
      hide Balanced, NoRedRed, Blacks, Fits, InOrder, Plug, RedBlack, Sorted, Brackets, SortedInsert, Height;
      var y, x := nil, root;
      ghost var t, q := shape, Top;
      Look(t, q, root, nil, Fields());
      AtTop(shape, key(z), key);
      while x != nil
        invariant Valid() && shape == old(shape) && At(t, q) && Plug(t, q) == shape
        invariant x == RefOf(t, nil) && y == ParentOf(q, nil) && Brackets(q, key(z), key)
        invariant !q.Top? ==> (q.InLeft? <==> key(z) < key(q.node))
        invariant y < left.Length && (t.Node? ==> x != nil && x < left.Length)
        decreases t
      {
        Look(t, q, root, nil, Fields());
        DescendBrackets(t, q, key(z), key);
        y := x;
        if key(z) < key(x) {
          DownLeft(t, q, root, nil, Fields());
          x := left[x];
          t, q := t.left, InLeft(q, t.node, t.color, t.right);
        } else {
          DownRight(t, q, root, nil, Fields());
          x := right[x];
          t, q := t.right, InRight(q, t.left, t.node, t.color);
        }
        Look(t, q, root, nil, Fields());
      }
      PlugInserts(q, z, key);
      SortedInsertFacts(InOrder(shape), z, key);
      LeafFits(q, z);
      NodesPlug(Leaf, q);
      NodesInOrder(shape, z);
      DepthPlug(Leaf, q);
      AttachLeaf(z, y, q);
      rotations, climbs := InsertFixup(z, Node(Leaf, z, Red, Leaf), q);
    }

    // ---------- deletion ----------

    /** Case 1: the sibling is red. */
    method DeleteCase1Left(x: Ref, w: Ref, ghost t: Shape, ghost q: Path) returns (ghost q': Path)
      requires x < left.Length
      requires Pool() && color[nil] == Black && At(t, q) && DeleteState(t, q) && RootColor(t) == Black
      requires x == RefOf(t, nil) && !q.Top? && parent[x] == q.node
      requires q.InLeft? && RootColor(q.sibling) == Red && w == RefOf(q.sibling, nil)
      modifies this`root, left, right, parent, color
      ensures color[nil] == Black && At(t, q') && DeleteState(t, q') && InOrder(Plug(t, q')) == InOrder(Plug(t, q))
      ensures q'.InLeft? && parent[x] == q'.node && RootColor(q'.sibling) == Black && q'.color == Red
      ensures Depth(q') == Depth(q) + 1
    {
      hide TreeAt, PathAt, Separate, Distinct, PathDistinct, Nodes, PathNodes, Stands;
      hide Balanced, NoRedRed, Blacks, Fits, InOrder, Plug;
      Sibling(t, q);
      LookSibling(t, q, root, nil, Fields());
      SiblingUpPaints(t, q, root, nil, Fields());
      SiblingUpKeeps(t, q);
      SiblingUpOrder(t, q);
      color[w] := Black;
      color[parent[x]] := Red;
      LeftRotate(parent[x], Filled(t, WithSibling(Repainted(q, Red), q.sibling.(color := Black))), q.up);
      ghost var r := SiblingUp(t, q);
      DownLeft(r, q.up, root, nil, Fields());
      DownLeft(r.left, InLeft(q.up, r.node, Black, r.right), root, nil, Fields());
      q' := BelowSiblingUp(t, q);
      Look(t, q', root, nil, Fields());
    }

    /** Case 2: both children of the black sibling are black. */
    method DeleteCase2(x: Ref, w: Ref, ghost t: Shape, ghost q: Path) returns (x': Ref)
      requires x < left.Length
      requires Pool() && color[nil] == Black && At(t, q) && DeleteState(t, q) && RootColor(t) == Black
      requires x == RefOf(t, nil) && !q.Top? && parent[x] == q.node
      requires q.sibling.Node? && q.sibling.color == Black && w == q.sibling.node
      requires RootColor(q.sibling.left) == Black && RootColor(q.sibling.right) == Black
      modifies color
      ensures color[nil] == Black && At(ShortageUp(t, q), q.up) && DeleteState(ShortageUp(t, q), q.up)
      ensures InOrder(Plug(ShortageUp(t, q), q.up)) == InOrder(Plug(t, q))
      ensures x' == q.node
    {
      hide TreeAt, PathAt, Separate, Distinct, PathDistinct, Nodes, PathNodes, Stands;
      hide Balanced, NoRedRed, Blacks, Fits, InOrder, Plug;
      ShortageUpKeeps(t, q);
      LookSibling(t, q, root, nil, Fields());
      RecolorSibling(t, q, root, nil, Fields(), Red);
      color[w] := Red;
      Up(t, WithSibling(q, q.sibling.(color := Red)), root, nil, Fields());
      x' := parent[x];
    }

    /** Case 3: only the near child of the black sibling is red. */
    method DeleteCase3Left(x: Ref, w: Ref, ghost t: Shape, ghost q: Path) returns (w': Ref, ghost q': Path)
      requires x < left.Length
      requires Pool() && color[nil] == Black && At(t, q) && DeleteState(t, q) && RootColor(t) == Black
      requires x == RefOf(t, nil) && !q.Top? && parent[x] == q.node
      requires q.InLeft? && q.sibling.Node? && q.sibling.color == Black && w == q.sibling.node
      requires RootColor(q.sibling.left) == Red && RootColor(q.sibling.right) == Black
      modifies this`root, left, right, parent, color
      ensures color[nil] == Black && At(t, q') && DeleteState(t, q') && InOrder(Plug(t, q')) == InOrder(Plug(t, q))
      ensures q'.InLeft? && parent[x] == q'.node && q'.up == q.up
      ensures q'.sibling.Node? && q'.sibling.color == Black && RootColor(q'.sibling.right) == Red && w' == q'.sibling.node
    {
      hide TreeAt, PathAt, Separate, Distinct, PathDistinct, Nodes, PathNodes, Stands;
      hide Balanced, NoRedRed, Blacks, Fits, InOrder, Plug;
      LookSibling(t, q, root, nil, Fields());
      NearPaints(t, q, root, nil, Fields());
      NearTurnedKeeps(t, q);
      NearTurnedOrder(t, q);
      color[left[w]] := Black;
      color[w] := Red;
      RightRotate(w, Node(q.sibling.left.(color := Black), w, Red, q.sibling.right), SiblingPath(t, q));
      ToSibling(NearTurned(q), SiblingPath(t, q), root, nil, Fields());
      q' := WithSibling(q, NearTurned(q));
      Look(t, q', root, nil, Fields());
      w' := right[parent[x]];
    }

    /** Case 4: the far child of the black sibling is red. */
    method DeleteCase4Left(x: Ref, w: Ref, ghost t: Shape, ghost q: Path) returns (ghost t': Shape)
      requires x < left.Length
      requires Pool() && color[nil] == Black && At(t, q) && DeleteState(t, q) && RootColor(t) == Black
      requires x == RefOf(t, nil) && !q.Top? && parent[x] == q.node
      requires q.InLeft? && q.sibling.Node? && q.sibling.color == Black && w == q.sibling.node
      requires RootColor(q.sibling.right) == Red
      modifies this`root, left, right, parent, color
      ensures color[nil] == Black && At(t', Top) && RedBlack(t') && t'.Node? && InOrder(t') == InOrder(Plug(t, q))
    {
      hide TreeAt, PathAt, Separate, Distinct, PathDistinct, Nodes, PathNodes, Stands;
      hide Balanced, NoRedRed, Blacks, Fits, InOrder, Plug;
      LookSibling(t, q, root, nil, Fields());
      PaidPaints(t, q, root, nil, Fields());
      PaidKeeps(t, q);
      PaidOrder(t, q);
      color[w] := color[parent[x]];
      color[parent[x]] := Black;
      color[right[w]] := Black;
      LeftRotate(parent[x], Filled(t, PaidPath(q)), q.up);
      t' := Plug(Paid(t, q), q.up);
      ToTop(Paid(t, q), q.up, root, nil, Fields());
      PlugNonEmpty(Paid(t, q), q.up);
    }

    /** Cases 3 and 4 together end the loop at the root. */
    method DeleteCases34Left(x: Ref, w0: Ref, ghost t: Shape, ghost q0: Path, ghost rotations0: nat)
      returns (x': Ref, ghost t': Shape, ghost rotations: nat)
      requires x < left.Length
      requires Pool() && color[nil] == Black && At(t, q0) && DeleteState(t, q0) && RootColor(t) == Black
      requires x == RefOf(t, nil) && !q0.Top? && parent[x] == q0.node
      requires q0.InLeft? && q0.sibling.Node? && q0.sibling.color == Black && w0 == q0.sibling.node
      requires RootColor(q0.sibling.left) == Red || RootColor(q0.sibling.right) == Red
      modifies this`root, left, right, parent, color
      ensures color[nil] == Black && At(t', Top) && DeleteState(t', Top) && InOrder(t') == InOrder(Plug(t, q0))
      ensures x' == RefOf(t', nil) && t'.Node? && Plug(t', Top) == t'
      ensures rotations0 < rotations <= rotations0 + 2
    {
      hide TreeAt, PathAt, Separate, Distinct, PathDistinct, Nodes, PathNodes, Stands;
      hide Balanced, NoRedRed, Blacks, Fits, InOrder, Plug;
      LookSibling(t, q0, root, nil, Fields());
      var w := w0;
      ghost var q := q0;
      rotations := rotations0;
      if color[right[w]] == Black {
        w, q := DeleteCase3Left(x, w, t, q);
        rotations := rotations + 1;
      }
      t' := DeleteCase4Left(x, w, t, q);
      RedBlackEnds(t');
      Look(t', Top, root, nil, Fields());
      rotations := rotations + 1;
      x' := root;
    }

    /** One turn of the loop when `x` is a left child. */
    method DeleteFixLeft(x: Ref, ghost t: Shape, ghost q: Path)
      returns (x': Ref, ghost t': Shape, ghost q': Path, ghost rotations: nat)
      requires x < left.Length
      requires Pool() && color[nil] == Black && At(t, q) && DeleteState(t, q) && RootColor(t) == Black
      requires x == RefOf(t, nil) && !q.Top? && parent[x] == q.node
      requires q.InLeft?
      modifies this`root, left, right, parent, color
      ensures color[nil] == Black && At(t', q') && DeleteState(t', q') && InOrder(Plug(t', q')) == InOrder(Plug(t, q))
      ensures x' == RefOf(t', nil) && t'.Node?
      ensures if rotations == 0 then Depth(q') + 1 == Depth(q)
              else rotations <= 3 && (q'.Top? || RootColor(t') == Red)
    {
      hide TreeAt, PathAt, Separate, Distinct, PathDistinct, Nodes, PathNodes, Stands;
      hide Balanced, NoRedRed, Blacks, Fits, InOrder, Plug, DeleteState;
      t', q', rotations := t, q, 0;
      Sibling(t, q);
      LookSibling(t, q, root, nil, Fields());
      var w := right[parent[x]];
      if color[w] == Red {
        q' := DeleteCase1Left(x, w, t, q);
        rotations := 1;
        Sibling(t, q');
        LookSibling(t, q', root, nil, Fields());
        w := right[parent[x]];
      }
      if color[left[w]] == Black && color[right[w]] == Black {
        x' := DeleteCase2(x, w, t, q');
        t', q' := ShortageUp(t, q'), q'.up;
      } else {
        x', t', rotations := DeleteCases34Left(x, w, t, q', rotations);
        q' := Top;
      }
    }

    /** Mirrored case 1: the sibling is red. */
    method DeleteCase1Right(x: Ref, w: Ref, ghost t: Shape, ghost q: Path) returns (ghost q': Path)
      requires x < left.Length
      requires Pool() && color[nil] == Black && At(t, q) && DeleteState(t, q) && RootColor(t) == Black
      requires x == RefOf(t, nil) && !q.Top? && parent[x] == q.node
      requires q.InRight? && RootColor(q.sibling) == Red && w == RefOf(q.sibling, nil)
      modifies this`root, left, right, parent, color
      ensures color[nil] == Black && At(t, q') && DeleteState(t, q') && InOrder(Plug(t, q')) == InOrder(Plug(t, q))
      ensures q'.InRight? && parent[x] == q'.node && RootColor(q'.sibling) == Black && q'.color == Red
      ensures Depth(q') == Depth(q) + 1
    {
      hide TreeAt, PathAt, Separate, Distinct, PathDistinct, Nodes, PathNodes, Stands;
      hide Balanced, NoRedRed, Blacks, Fits, InOrder, Plug;
      Sibling(t, q);
      LookSibling(t, q, root, nil, Fields());
      SiblingUpPaints(t, q, root, nil, Fields());
      SiblingUpKeeps(t, q);
      SiblingUpOrder(t, q);
      color[w] := Black;
      color[parent[x]] := Red;
      RightRotate(parent[x], Filled(t, WithSibling(Repainted(q, Red), q.sibling.(color := Black))), q.up);
      ghost var r := SiblingUp(t, q);
      DownRight(r, q.up, root, nil, Fields());
      DownRight(r.right, InRight(q.up, r.left, r.node, Black), root, nil, Fields());
      q' := BelowSiblingUp(t, q);
      Look(t, q', root, nil, Fields());
    }

    /** Mirrored case 3: only the near child of the black sibling is red. */
    method DeleteCase3Right(x: Ref, w: Ref, ghost t: Shape, ghost q: Path) returns (w': Ref, ghost q': Path)
      requires x < left.Length
      requires Pool() && color[nil] == Black && At(t, q) && DeleteState(t, q) && RootColor(t) == Black
      requires x == RefOf(t, nil) && !q.Top? && parent[x] == q.node
      requires q.InRight? && q.sibling.Node? && q.sibling.color == Black && w == q.sibling.node
      requires RootColor(q.sibling.right) == Red && RootColor(q.sibling.left) == Black
      modifies this`root, left, right, parent, color
      ensures color[nil] == Black && At(t, q') && DeleteState(t, q') && InOrder(Plug(t, q')) == InOrder(Plug(t, q))
      ensures q'.InRight? && parent[x] == q'.node && q'.up == q.up
      ensures q'.sibling.Node? && q'.sibling.color == Black && RootColor(q'.sibling.left) == Red && w' == q'.sibling.node
    {
      hide TreeAt, PathAt, Separate, Distinct, PathDistinct, Nodes, PathNodes, Stands;
      hide Balanced, NoRedRed, Blacks, Fits, InOrder, Plug;
      LookSibling(t, q, root, nil, Fields());
      NearPaints(t, q, root, nil, Fields());
      NearTurnedKeeps(t, q);
      NearTurnedOrder(t, q);
      color[right[w]] := Black;
      color[w] := Red;
      LeftRotate(w, Node(q.sibling.left, w, Red, q.sibling.right.(color := Black)), SiblingPath(t, q));
      ToSibling(NearTurned(q), SiblingPath(t, q), root, nil, Fields());
      q' := WithSibling(q, NearTurned(q));
      Look(t, q', root, nil, Fields());
      w' := left[parent[x]];
    }

    /** Mirrored case 4: the far child of the black sibling is red. */
    method DeleteCase4Right(x: Ref, w: Ref, ghost t: Shape, ghost q: Path) returns (ghost t': Shape)
      requires x < left.Length
      requires Pool() && color[nil] == Black && At(t, q) && DeleteState(t, q) && RootColor(t) == Black
      requires x == RefOf(t, nil) && !q.Top? && parent[x] == q.node
      requires q.InRight? && q.sibling.Node? && q.sibling.color == Black && w == q.sibling.node
      requires RootColor(q.sibling.left) == Red
      modifies this`root, left, right, parent, color
      ensures color[nil] == Black && At(t', Top) && RedBlack(t') && t'.Node? && InOrder(t') == InOrder(Plug(t, q))
    {
      hide TreeAt, PathAt, Separate, Distinct, PathDistinct, Nodes, PathNodes, Stands;
      hide Balanced, NoRedRed, Blacks, Fits, InOrder, Plug;
      LookSibling(t, q, root, nil, Fields());
      PaidPaints(t, q, root, nil, Fields());
      PaidKeeps(t, q);
      PaidOrder(t, q);
      color[w] := color[parent[x]];
      color[parent[x]] := Black;
      color[left[w]] := Black;
      RightRotate(parent[x], Filled(t, PaidPath(q)), q.up);
      t' := Plug(Paid(t, q), q.up);
      ToTop(Paid(t, q), q.up, root, nil, Fields());
      PlugNonEmpty(Paid(t, q), q.up);
    }

    /** Cases 3 and 4 together end the loop at the root. */
    method DeleteCases34Right(x: Ref, w0: Ref, ghost t: Shape, ghost q0: Path, ghost rotations0: nat)
      returns (x': Ref, ghost t': Shape, ghost rotations: nat)
      requires x < left.Length
      requires Pool() && color[nil] == Black && At(t, q0) && DeleteState(t, q0) && RootColor(t) == Black
      requires x == RefOf(t, nil) && !q0.Top? && parent[x] == q0.node
      requires q0.InRight? && q0.sibling.Node? && q0.sibling.color == Black && w0 == q0.sibling.node
      requires RootColor(q0.sibling.left) == Red || RootColor(q0.sibling.right) == Red
      modifies this`root, left, right, parent, color
      ensures color[nil] == Black && At(t', Top) && DeleteState(t', Top) && InOrder(t') == InOrder(Plug(t, q0))
      ensures x' == RefOf(t', nil) && t'.Node? && Plug(t', Top) == t'
      ensures rotations0 < rotations <= rotations0 + 2
    {
      hide TreeAt, PathAt, Separate, Distinct, PathDistinct, Nodes, PathNodes, Stands;
      hide Balanced, NoRedRed, Blacks, Fits, InOrder, Plug;
      LookSibling(t, q0, root, nil, Fields());
      var w := w0;
      ghost var q := q0;
      rotations := rotations0;
      if color[left[w]] == Black {
        w, q := DeleteCase3Right(x, w, t, q);
        rotations := rotations + 1;
      }
      t' := DeleteCase4Right(x, w, t, q);
      RedBlackEnds(t');
      Look(t', Top, root, nil, Fields());
      rotations := rotations + 1;
      x' := root;
    }

    /** One turn of the loop when `x` is a right child. */
    method DeleteFixRight(x: Ref, ghost t: Shape, ghost q: Path)
      returns (x': Ref, ghost t': Shape, ghost q': Path, ghost rotations: nat)
      requires x < left.Length
      requires Pool() && color[nil] == Black && At(t, q) && DeleteState(t, q) && RootColor(t) == Black
      requires x == RefOf(t, nil) && !q.Top? && parent[x] == q.node
      requires q.InRight?
      modifies this`root, left, right, parent, color
      ensures color[nil] == Black && At(t', q') && DeleteState(t', q') && InOrder(Plug(t', q')) == InOrder(Plug(t, q))
      ensures x' == RefOf(t', nil) && t'.Node?
      ensures if rotations == 0 then Depth(q') + 1 == Depth(q)
              else rotations <= 3 && (q'.Top? || RootColor(t') == Red)
    {
      hide TreeAt, PathAt, Separate, Distinct, PathDistinct, Nodes, PathNodes, Stands;
      hide Balanced, NoRedRed, Blacks, Fits, InOrder, Plug, DeleteState;
      t', q', rotations := t, q, 0;
      Sibling(t, q);
      LookSibling(t, q, root, nil, Fields());
      var w := left[parent[x]];
      if color[w] == Red {
        q' := DeleteCase1Right(x, w, t, q);
        rotations := 1;
        Sibling(t, q');
        LookSibling(t, q', root, nil, Fields());
        w := left[parent[x]];
      }
      if color[right[w]] == Black && color[left[w]] == Black {
        x' := DeleteCase2(x, w, t, q');
        t', q' := ShortageUp(t, q'), q'.up;
      } else {
        x', t', rotations := DeleteCases34Right(x, w, t, q', rotations);
        q' := Top;
      }
    }

    /** The end of the loop: the node it stopped at turns black. */
    method BlackenShort(x: Ref, ghost t: Shape, ghost q: Path)
      requires Pool() && color[nil] == Black && At(t, q) && DeleteState(t, q)
      requires x == RefOf(t, nil) < left.Length && (q.Top? || RootColor(t) == Red)
      modifies this`shape, color
      ensures color[nil] == Black && At(shape, Top) && RedBlack(shape)
      ensures InOrder(shape) == InOrder(Plug(t, q))
    {
      hide TreeAt, PathAt, Separate, Distinct, PathDistinct, Nodes, PathNodes, Stands;
      hide Balanced, NoRedRed, Blacks, Fits, InOrder, Plug;
      DeleteStateEnds(t, q);
      Look(t, q, root, nil, Fields());
      if t.Node? {
        RecolorTop(t, q, root, nil, Fields(), Black);
      }
      color[x] := Black;
      ToTop(Blackened(t), q, root, nil, Fields());
      shape := Plug(Blackened(t), q);
    }

    /** One turn of the loop. */
    method DeleteFixTurn(x: Ref, ghost t: Shape, ghost q: Path)
      returns (x': Ref, ghost t': Shape, ghost q': Path, ghost rotations: nat)
      requires Pool() && color[nil] == Black && At(t, q) && DeleteState(t, q) && RootColor(t) == Black
      requires x == RefOf(t, nil) < left.Length && !q.Top? && parent[x] == q.node
      modifies this`root, left, right, parent, color
      ensures color[nil] == Black && At(t', q') && DeleteState(t', q') && InOrder(Plug(t', q')) == InOrder(Plug(t, q))
      ensures x' == RefOf(t', nil) < left.Length && color[x'] == RootColor(t') && parent[x'] == ParentOf(q', nil)
      ensures x' == root <==> q'.Top?
      ensures if rotations == 0 then Depth(q') + 1 == Depth(q)
              else rotations <= 3 && (q'.Top? || RootColor(t') == Red)
    {
      hide TreeAt, PathAt, Separate, Distinct, PathDistinct, Nodes, PathNodes, Stands;
      hide Balanced, NoRedRed, Blacks, Fits, InOrder, Plug, DeleteState;
      LookShort(t, q, root, nil, Fields());
      if x == left[parent[x]] {
        x', t', q', rotations := DeleteFixLeft(x, t, q);
      } else {
        x', t', q', rotations := DeleteFixRight(x, t, q);
      }
      Look(t', q', root, nil, Fields());
      AtRoot(t', q', root, nil, Fields());
    }

    /** Restores the rules above a subtree that is one black level short, with at most three rotations. */
    method DeleteFixup(x0: Ref, ghost t0: Shape, ghost q0: Path) returns (ghost rotations: nat, ghost climbs: nat)
      requires Pool() && color[nil] == Black && At(t0, q0) && DeleteState(t0, q0)
      requires x0 == RefOf(t0, nil) < left.Length && parent[x0] == ParentOf(q0, nil)
      modifies this, left, right, parent, color
      ensures Pool() && color[nil] == Black && At(shape, Top) && RedBlack(shape)
      ensures InOrder(shape) == InOrder(Plug(t0, q0))
      ensures rotations <= 3 && climbs <= Depth(q0)
    {
      hide TreeAt, PathAt, Separate, Distinct, PathDistinct, Nodes, PathNodes, Stands;
      hide Balanced, NoRedRed, Blacks, Fits, InOrder, Plug, DeleteState;
      var x := x0;
      ghost var t, q := t0, q0;
      rotations, climbs := 0, 0;
      Look(t, q, root, nil, Fields());
      AtRoot(t, q, root, nil, Fields());
      while x != root && color[x] == Black
        invariant Pool() && color[nil] == Black && At(t, q) && DeleteState(t, q)
        invariant x == RefOf(t, nil) < left.Length && color[x] == RootColor(t) && parent[x] == ParentOf(q, nil)
        invariant x == root <==> q.Top?
        invariant InOrder(Plug(t, q)) == InOrder(Plug(t0, q0))
        invariant if rotations == 0 then Depth(q) + climbs == Depth(q0)
                  else rotations <= 3 && climbs <= Depth(q0) && (q.Top? || RootColor(t) == Red)
        decreases if RootColor(t) == Red then 0 else Depth(q) + 1
      {
        ghost var turns;
        x, t, q, turns := DeleteFixTurn(x, t, q);
        rotations, climbs := rotations + turns, if turns == 0 then climbs + 1 else climbs;
      }
      BlackenShort(x, t, q);
    }

    method Minimum(node: Ref, ghost t: Shape, ghost q: Path) returns (y: Ref, ghost s: Shape, ghost inner: Path)
      requires Pool() && At(t, q) && t.Node? && node == t.node
      ensures At(s, Append(inner, q)) && Plug(s, inner) == t && AllLeft(inner)
      ensures s.Node? && s.node == y && s.left == Leaf
      ensures y == InOrder(t)[0]
    {
      hide TreeAt, PathAt, Separate, Distinct, PathDistinct, Nodes, PathNodes, Stands;
      hide Balanced, NoRedRed, Blacks, Fits, InOrder, Plug;
      y, s, inner := node, t, Top;
      AtTopAll(t, q);
      Look(s, q, root, nil, Fields());
      while left[y] != nil
        invariant At(s, Append(inner, q)) && Plug(s, inner) == t && AllLeft(inner)
        invariant s.Node? && s.node == y < left.Length && left[y] == RefOf(s.left, nil)
        decreases s
      {
        DownLeft(s, Append(inner, q), root, nil, Fields());
        DownLeftInner(s, inner, q);
        y := left[y];
        s, inner := s.left, InLeft(inner, s.node, s.color, s.right);
        Look(s, Append(inner, q), root, nil, Fields());
      }
      LookLeft(s, Append(inner, q), root, nil, Fields());
      FirstRemoved(y, s.color, s.right, inner);
    }

    /** `x` replaces `z`, which has no other child. */
    method SpliceOut(z: Ref, x: Ref, ghost t: Shape, ghost c: Shape, ghost q: Path)
      requires Pool() && At(t, q) && t.Node? && t.node == z && (c == t.left || c == t.right)
      requires x == RefOf(c, nil)
      modifies this`root, left, right, parent
      ensures At(c, q) && x < left.Length && parent[x] == ParentOf(q, nil)
    {
      hide TreeAt, PathAt, Separate, Distinct, PathDistinct, Nodes, PathNodes, Stands;
      hide Balanced, NoRedRed, Blacks, Fits, InOrder, Plug;
      ghost var m, r := Fields(), root;
      Look(t, q, root, nil, m);
      SpliceLooks(t, c, q, root, nil, m);
      Relink(z, x, q);
      parent[x] := parent[z];
      HangChild(t, c, q, r, root, nil, m, Fields());
    }

    /** `y`, which already has its right subtree, takes the place, left subtree and colour of `z`. */
    method TakePlace(z: Ref, y: Ref, ghost l: Shape, ghost c: Color, ghost r: Shape, ghost q: Path)
      requires Pool() && Ready(l, c, r, z, y, q, root, nil, Fields()) && l.Node?
      modifies this`root, left, right, parent, color
      ensures At(Node(l, y, c, r), q) && parent[nil] == old(parent[nil])
      ensures color[nil] == old(color[nil])
    {
      hide TreeAt, PathAt, Separate, Distinct, PathDistinct, Nodes, PathNodes, Stands;
      hide Balanced, NoRedRed, Blacks, Fits, InOrder, Plug, Ready;
      ghost var m, rt := Fields(), root;
      LookReady(l, c, r, z, y, q, root, nil, m);
      Relink(z, y, q);
      ghost var linked := left[..];
      parent[y] := parent[z];
      left[y] := left[z];
      assert left[..] == linked[y := l.node];
      parent[left[y]] := y;
      assert parent[..] == m.parent[y := ParentOf(q, nil)][l.node := y];
      color[y] := color[z];
      assert color[..] == m.color[y := c];
      AfterTakePlaceStands(l, c, r, z, y, q, rt, root, nil, m);
    }

    /** A successor below the right child leaves its place and adopts the right subtree of `z`. */
    method DetachDeep(z: Ref, y: Ref, x: Ref, ghost t: Shape, ghost q: Path, ghost s: Shape, ghost inner: Path)
      requires Pool() && t.Node? && t.node == z && !inner.Top?
      requires s.Node? && s.node == y && s.left == Leaf && t.right == Plug(s, inner)
      requires At(s, Append(inner, InRight(q, t.left, z, t.color))) && Separate(t, q)
      requires x == RefOf(s.right, nil)
      modifies this`root, left, right, parent
      ensures Ready(t.left, t.color, Plug(s.right, inner), z, y, q, root, nil, Fields())
      ensures x == nil ==> parent[nil] == inner.node
    {
      hide TreeAt, PathAt, Separate, Distinct, PathDistinct, Nodes, PathNodes, Stands;
      hide Balanced, NoRedRed, Blacks, Fits, InOrder, Plug;
      hide Ready, Append;
      ghost var q0 := InRight(q, t.left, z, t.color);
      ghost var rest := Plug(s.right, inner);
      Look(s, Append(inner, q0), root, nil, Fields());
      SuccessorApart(t, q, y, s.color, s.right, inner);
      AppendEnds(inner, q0);
      SpliceOut(y, x, s, s.right, Append(inner, q0));
      UpAlong(s.right, inner, q0, root, nil, Fields());
      Up(rest, q0, root, nil, Fields());
      PlugNonEmpty(s.right, inner);
      Look(rest, q0, root, nil, Fields());
      ghost var m := Fields();
      right[y] := right[z];
      parent[right[y]] := y;
      AdoptRight(t.left, t.color, rest, z, y, q, root, nil, m, Fields());
    }

    /** The successor `y` of `z` leaves its place to its own right child. */
    method DetachSuccessor(z: Ref, y: Ref, x: Ref, ghost t: Shape, ghost q: Path, ghost s: Shape, ghost inner: Path)
      requires Pool() && At(t, q) && t.Node? && t.node == z && t.left.Node?
      requires s.Node? && s.node == y && s.left == Leaf && t.right == Plug(s, inner)
      requires x == RefOf(s.right, nil)
      modifies this`root, left, right, parent
      ensures Ready(t.left, t.color, Plug(s.right, inner), z, y, q, root, nil, Fields())
      ensures x == nil ==> parent[nil] == if inner.Top? then y else inner.node
    {
      ghost var q0 := InRight(q, t.left, z, t.color);
      DownRight(t, q, root, nil, Fields());
      DownAlong(s, inner, q0, root, nil, Fields());
      Look(s, Append(inner, q0), root, nil, Fields());
      LookChild(s, Append(inner, q0), root, nil, Fields());
      AppendEnds(inner, q0);
      NodesPlug(s, inner);
      assert !inner.Top? ==> inner.node != z;
      AtTopAll(s, q0);
      AtTopAll(s.right, q0);
      hide TreeAt, PathAt, Separate, Distinct, PathDistinct, Nodes, PathNodes, Stands;
      hide Balanced, NoRedRed, Blacks, Fits, InOrder, Plug;
      hide Ready, Append;
      if parent[y] == z {
        ghost var m := Fields();
        parent[x] := y;
        ReadyDirect(t, q, root, nil, m, Fields());
      } else {
        DetachDeep(z, y, x, t, q, s, inner);
      }
    }

    method ReplaceBySuccessor(z: Ref, y: Ref, x: Ref, ghost t: Shape, ghost q: Path, ghost s: Shape, ghost inner: Path)
      requires Pool() && color[nil] == Black && At(t, q) && t.Node? && t.node == z && t.left.Node?
      requires s.Node? && s.node == y && s.left == Leaf && t.right == Plug(s, inner)
      requires x == RefOf(s.right, nil)
      modifies this`root, left, right, parent, color
      ensures color[nil] == Black && At(s.right, Append(inner, InRight(q, t.left, y, t.color)))
      ensures x < left.Length && parent[x] == ParentOf(Append(inner, InRight(q, t.left, y, t.color)), nil)
    {
      hide TreeAt, PathAt, Separate, Distinct, PathDistinct, Nodes, PathNodes, Stands;
      hide Balanced, NoRedRed, Blacks, Fits, InOrder, Plug;
      hide Ready, Append;
      ghost var q1 := InRight(q, t.left, y, t.color);
      DetachSuccessor(z, y, x, t, q, s, inner);
      TakePlace(z, y, t.left, t.color, Plug(s.right, inner), q);
      DownRight(Node(t.left, y, t.color, Plug(s.right, inner)), q, root, nil, Fields());
      DownAlong(s.right, inner, q1, root, nil, Fields());
      AppendEnds(inner, q1);
      Look(s.right, Append(inner, q1), root, nil, Fields());
    }

    /** A node with two children: its successor takes its place, keeping its own identity. */
    method DeleteInner(z: Ref, ghost t: Shape, ghost q: Path)
      returns (x: Ref, original: Color, ghost t': Shape, ghost q': Path)
      requires Pool() && color[nil] == Black && At(t, q) && RedBlack(Plug(t, q)) && t.Node? && t.node == z
      requires t.left.Node? && t.right.Node?
      modifies this`root, left, right, parent, color
      ensures color[nil] == Black && At(t', q') && x == RefOf(t', nil) < left.Length && parent[x] == ParentOf(q', nil)
      ensures TakenOut(z, t, q, original, t', q')
    {
      ghost var q0 := InRight(q, t.left, z, t.color);
      Look(t, q, root, nil, Fields());
      DownRight(t, q, root, nil, Fields());
      hide TreeAt, PathAt, Separate, Distinct, PathDistinct, Nodes, PathNodes, Stands;
      hide Balanced, NoRedRed, Blacks, Fits, InOrder, Plug;
      hide Ready, Append, RedBlack, TakenOut;
      ghost var s, inner;
      var y;
      y, s, inner := Minimum(right[z], t.right, q0);
      Look(s, Append(inner, q0), root, nil, Fields());
      original := color[y];
      x := right[y];
      TwoChildrenTakenOut(t, q, y, s.color, s.right, inner, root, nil, Fields());
      ReplaceBySuccessor(z, y, x, t, q, s, inner);
      t', q' := s.right, Append(inner, InRight(q, t.left, y, t.color));
    }

    /** The three ways to unlink `z`, up to the repair where a node has left its place. */
    method TakeOut(z: Ref, ghost t: Shape, ghost q: Path)
      returns (x: Ref, original: Color, ghost t': Shape, ghost q': Path)
      requires Pool() && color[nil] == Black && At(t, q) && RedBlack(Plug(t, q)) && t.Node? && t.node == z
      modifies this`root, left, right, parent, color
      ensures color[nil] == Black && At(t', q') && x == RefOf(t', nil) < left.Length && parent[x] == ParentOf(q', nil)
      ensures TakenOut(z, t, q, original, t', q')
    {
      Look(t, q, root, nil, Fields());
      LookLeft(t, q, root, nil, Fields());
      hide TreeAt, PathAt, Separate, Distinct, PathDistinct, Nodes, PathNodes, Stands;
      hide Balanced, NoRedRed, Blacks, Fits, InOrder, Plug;
      hide RedBlack, TakenOut;
      original := color[z];
      if left[z] == nil {
        x := right[z];
        t', q' := t.right, q;
        OneChildTakenOut(t, t', q, root, nil, Fields());
        SpliceOut(z, x, t, t', q);
      } else if right[z] == nil {
        x := left[z];
        t', q' := t.left, q;
        OneChildTakenOut(t, t', q, root, nil, Fields());
        SpliceOut(z, x, t, t', q);
      } else {
        x, original, t', q' := DeleteInner(z, t, q);
      }
    }

    method Delete(z: Ref) returns (ghost rotations: nat, ghost climbs: nat)
      requires Valid() && z in Contents()
      modifies this, left, right, parent, color
      ensures Valid() && Contents() == Without(old(Contents()), z)
      ensures rotations <= 3 && climbs <= Height(old(shape))
    {
      hide TreeAt, PathAt, Separate, Distinct, PathDistinct, Nodes, PathNodes, Stands;
      hide Balanced, NoRedRed, Blacks, Fits, InOrder, Plug;
      hide RedBlack, Sorted, Without, Height, Append;
      NodesInOrder(shape, z);
      ghost var t, q := Locate(shape, z);
      AppendTop(q);
      DownAlong(t, q, Top, root, nil, Fields());
      WithoutFacts(InOrder(shape), z, key);
      var x, original;
      ghost var t', q';
      x, original, t', q' := TakeOut(z, t, q);
      rotations, climbs := 0, 0;
      if original == Black {
        rotations, climbs := DeleteFixup(x, t', q');
      } else {
        ToTop(t', q', root, nil, Fields());
        shape := Plug(t', q');
      }
    }

    // ---------- search ----------

    /** Some node with key `k` if there is one; `steps` counts the links followed. */
    method Search(k: uint32) returns (r: Option<Ref>, ghost steps: nat)
      requires Valid()
      ensures r.Some? ==> r.value in Contents() && key(r.value) == k
      ensures r.None? ==> forall n <- Contents() :: key(n) != k
      ensures Pow2(steps) <= (|Contents()| + 1) * (|Contents()| + 1)
    {
      hide TreeAt, PathAt, Separate, Distinct, PathDistinct, Nodes, PathNodes, Stands;
      hide Balanced, NoRedRed, Blacks, Fits, InOrder, Plug, RedBlack, Sorted, Avoids;
      var current := root;
      ghost var t, q := shape, Top;
      steps := 0;
      Look(t, q, root, nil, Fields());
      AtTop(shape, k, key);
      while current != nil && k != key(current)
        invariant Valid() && At(t, q) && Plug(t, q) == shape
        invariant current == RefOf(t, nil) && (t.Node? ==> current != nil && current < left.Length)
        invariant Avoids(q, k, key) && steps + Height(t) <= Height(shape)
        decreases t
      {
        DescendAvoids(t, q, k, key);
        if k < key(current) {
          DownLeft(t, q, root, nil, Fields());
          current := left[current];
          t, q := t.left, InLeft(q, t.node, t.color, t.right);
        } else {
          DownRight(t, q, root, nil, Fields());
          current := right[current];
          t, q := t.right, InRight(q, t.left, t.node, t.color);
        }
        steps := steps + 1;
        Look(t, q, root, nil, Fields());
      }
      SearchBound(shape, steps);
      if current == nil {
        AvoidsAll(q, k, key);
        r := None;
      } else {
        PlugContains(t, q);
        r := Some(current);
      }
    }
  }

  // ---------- runs ----------

  datatype Op = Insertion(z: Ref) | Deletion(z: Ref)

  /** The contents of a tree that was empty before `ops`. */
  function ContentsAfter(ops: seq<Op>, key: Ref -> uint32): seq<Ref> {
    if ops == [] then [] else
      var s := ContentsAfter(ops[..|ops| - 1], key);
      match ops[|ops| - 1]
      case Insertion(z) => SortedInsert(s, z, key)
      case Deletion(z) => Without(s, z)
  }

  /** Callers insert nodes that are not in the tree and delete nodes that are. */
  predicate Legal(ops: seq<Op>, capacity: nat, key: Ref -> uint32) {
    forall i :: 0 <= i < |ops| ==>
      match ops[i]
      case Insertion(z) => z < capacity && z !in ContentsAfter(ops[..i], key)
      case Deletion(z) => z in ContentsAfter(ops[..i], key)
  }

  /** The reference: a bag of keys that knows nothing of order or trees. */
  function KeysAfter(ops: seq<Op>, key: Ref -> uint32): multiset<uint32> {
    if ops == [] then multiset{} else
      var bag := KeysAfter(ops[..|ops| - 1], key);
      match ops[|ops| - 1]
      case Insertion(z) => bag + multiset{key(z)}
      case Deletion(z) => bag - multiset{key(z)}
  }

  function KeyBag(s: seq<Ref>, key: Ref -> uint32): multiset<uint32> {
    if s == [] then multiset{} else multiset{key(s[0])} + KeyBag(s[1..], key)
  }

  lemma {:induction false} KeyBagInsert(s: seq<Ref>, z: Ref, key: Ref -> uint32)
    ensures KeyBag(SortedInsert(s, z, key), key) == KeyBag(s, key) + multiset{key(z)}
  {
    if s == [] || key(z) < key(s[0]) {
      assert ([z] + s)[1..] == s;
    } else {
      KeyBagInsert(s[1..], z, key);
      assert ([s[0]] + SortedInsert(s[1..], z, key))[1..] == SortedInsert(s[1..], z, key);
    }
  }

  lemma {:induction false} KeyBagWithout(s: seq<Ref>, z: Ref, key: Ref -> uint32)
    requires z in s
    ensures KeyBag(Without(s, z), key) == KeyBag(s, key) - multiset{key(z)}
    ensures key(z) in KeyBag(s, key)
  {
    if s[0] != z {
      KeyBagWithout(s[1..], z, key);
      assert ([s[0]] + Without(s[1..], z))[1..] == Without(s[1..], z);
      BagMinus(multiset{key(s[0])}, KeyBag(s[1..], key), key(z));
    }
  }

  lemma {:induction false} BagMinus(a: multiset<uint32>, b: multiset<uint32>, k: uint32)
    requires k in b
    ensures a + (b - multiset{k}) == a + b - multiset{k}
  {
  }

  lemma {:induction false} KeyBagMembers(s: seq<Ref>, k: uint32, key: Ref -> uint32)
    ensures k in KeyBag(s, key) <==> exists n :: n in s && key(n) == k
  {
    if s != [] {
      KeyBagMembers(s[1..], k, key);
      assert s == [s[0]] + s[1..];
      assert s[0] in s;
    }
  }

  /** Over every legal run the keys in the tree are those of the reference bag. */
  lemma {:induction false} RunMatchesBag(ops: seq<Op>, capacity: nat, key: Ref -> uint32)
    requires Legal(ops, capacity, key)
    ensures KeyBag(ContentsAfter(ops, key), key) == KeysAfter(ops, key)
  {
    if ops != [] {
      var rest := ops[..|ops| - 1];
      LegalPrefix(ops, |ops| - 1, capacity, key);
      RunMatchesBag(rest, capacity, key);
      var s := ContentsAfter(rest, key);
      match ops[|ops| - 1]
      case Insertion(z) => KeyBagInsert(s, z, key);
      case Deletion(z) => KeyBagWithout(s, z, key);
    }
  }

  lemma {:induction false} LegalPrefix(ops: seq<Op>, n: nat, capacity: nat, key: Ref -> uint32)
    requires Legal(ops, capacity, key) && n <= |ops|
    ensures Legal(ops[..n], capacity, key)
  {
    forall i | 0 <= i < n ensures ops[..n][..i] == ops[..i] {
    }
  }

  /**
   Every legal run of insertions and deletions on a new tree leaves a valid red-black tree, and a
   search in it finds a node with key `k` exactly if the reference bag holds `k`.
   */
  method RunAndSearch(capacity: nat, key: Ref -> uint32, ops: seq<Op>, k: uint32) returns (found: Option<Ref>)
    requires Legal(ops, capacity, key)
    ensures found.Some? <==> k in KeysAfter(ops, key)
    ensures found.Some? ==> found.value in ContentsAfter(ops, key) && key(found.value) == k
  {
    var tree := new RBTree(capacity, key);
    for i := 0 to |ops|
      invariant fresh(tree) && fresh(tree.left) && fresh(tree.right) && fresh(tree.parent) && fresh(tree.color)
      invariant tree.Valid() && tree.Contents() == ContentsAfter(ops[..i], key)
      invariant tree.key == key && tree.left.Length == capacity + 1 && tree.nil == capacity
    {
      hide RedBlack, Sorted, Stands;
      assert ops[..i + 1][..i] == ops[..i];
      match ops[i]
      case Insertion(z) => var _, _ := tree.Insert(z);
      case Deletion(z) => var _, _ := tree.Delete(z);
    }
    assert ops[..|ops|] == ops;
    RunMatchesBag(ops, capacity, key);
    KeyBagMembers(ContentsAfter(ops, key), k, key);
    ghost var steps;
    found, steps := tree.Search(k);
  }
}
