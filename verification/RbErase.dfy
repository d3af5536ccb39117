/**
 rb_erase and its rebalancing loop (net/rbtree.c).
 */
module RbErase {
  import opened RbSpec
  import opened RbTree
  import opened RbInsert

  function Other(s: Side): (r: Side)
  {
    if s == OnLeft then OnRight else OnLeft
  }

  function Child(t: Tree, s: Side): (r: Tree)
    requires t.Node?
  {
    if s == OnLeft then t.left else t.right
  }

  /** A node with `a` on side s and `b` on the other side. */
  function Make(id: nat, color: Color, key: int, data: int, s: Side, a: Tree, b: Tree): (r: Tree)
  {
    if s == OnLeft then Node(id, color, key, data, a, b) else Node(id, color, key, data, b, a)
  }

  /** The loop's invariant: the marked subtree is one black node short; its root may be red over red. */
  ghost predicate Short(c: Context, t: Tree)
  {
    && (t.Node? ==> BlackHeight(t.left) == BlackHeight(t.right) && Balanced(t.left) && Balanced(t.right))
    && Expects(c, BlackHeight(t) + 1)
  }

  /** A short subtree has a real sibling. */
  lemma ShortSibling(c: Context, t: Tree)
    requires Short(c, t) && c.In?
    ensures c.sib.Node? && (RootColor(t) == Black ==> Balanced(t))
  {
  }

  // ---------------------------------------------------------------- red sibling

  /** The sibling rises over the parent; the mark gets a black sibling. */
  function Lifted(c: Context): (r: Context)
    requires c.In? && c.sib.Node?
  {
    var o := c.sib;
    In(In(c.up, c.side, o.id, Black, o.key, o.data, Child(o, Other(c.side))),
       c.side, c.id, Red, c.key, c.data, Child(o, c.side))
  }

  lemma LiftedKeeps(c: Context, t: Tree)
    requires Short(c, t) && c.In? && RootColor(c.sib) == Red
    ensures Short(Lifted(c), t) && RootColor(Lifted(c).sib) == Black
  {
    var up := Lifted(c).up;
    assert Expects(up, BlackHeight(t) + 1);
  }

  lemma LiftedItems(c: Context, t: Tree)
    requires c.In? && c.sib.Node?
    ensures AllItems(Lifted(c), t) == AllItems(c, t)
  {
    var l := Lifted(c);
    if c.side == OnLeft {
      assert ItemsAfter(l) == [Item(c.key, c.data)] + Items(c.sib.left) + ItemsAfter(l.up);
      assert ItemsAfter(l) == ItemsAfter(c) && ItemsBefore(l.up) == ItemsBefore(c);
    } else {
      assert ItemsBefore(l) == ItemsBefore(l.up) + Items(c.sib.right) + [Item(c.key, c.data)];
      assert ItemsBefore(l) == ItemsBefore(c) && ItemsAfter(l.up) == ItemsAfter(c);
    }
  }

  // ---------------------------------------------------------------- black nephews

  /** The sibling turns red: the whole subtree of the parent is now the short one. */
  function Pushed(c: Context, t: Tree): (r: Tree)
    requires c.In? && c.sib.Node?
  {
    Join(c.(sib := c.sib.(color := Red)), t)
  }

  lemma PushedKeeps(c: Context, t: Tree)
    requires Short(c, t) && c.In? && RootColor(t) == Black && c.sib.Node? && c.sib.color == Black
    requires RootColor(c.sib.left) == Black && RootColor(c.sib.right) == Black
    ensures Short(c.up, Pushed(c, t))
  {
    assert Balanced(c.sib.(color := Red));
  }

  lemma PushedItems(c: Context, t: Tree)
    requires c.In? && c.sib.Node?
    ensures AllItems(c.up, Pushed(c, t)) == AllItems(c, t)
  {
    assert Items(c.sib.(color := Red)) == Items(c.sib);
    JoinItems(c.(sib := c.sib.(color := Red)), t);
  }

  // ---------------------------------------------------------------- a red nephew

  /** A red near nephew rises over the sibling. */
  function Bent(c: Context): (r: Context)
    requires c.In? && c.sib.Node? && Child(c.sib, c.side).Node?
  {
    var o, n := c.sib, Child(c.sib, c.side);
    c.(sib := Make(n.id, Black, n.key, n.data, c.side, Child(n, c.side),
                   Make(o.id, Red, o.key, o.data, c.side, Child(n, Other(c.side)), Child(o, Other(c.side)))))
  }

  lemma BentKeeps(c: Context, t: Tree)
    requires Short(c, t) && c.In? && c.sib.Node? && c.sib.color == Black
    requires RootColor(Child(c.sib, c.side)) == Red && RootColor(Child(c.sib, Other(c.side))) == Black
    ensures Short(Bent(c), t) && RootColor(Bent(c).sib) == Black
    ensures RootColor(Child(Bent(c).sib, Other(c.side))) == Red
  {
    var o, n := c.sib, Child(c.sib, c.side);
    var h := BlackHeight(t);
    assert Balanced(n) && BlackHeight(o.left) == BlackHeight(o.right) == h;
    assert BlackHeight(n.left) == BlackHeight(n.right) == h;
    var low := Make(o.id, Red, o.key, o.data, c.side, Child(n, Other(c.side)), Child(o, Other(c.side)));
    assert Balanced(low) && BlackHeight(low) == h;
  }

  lemma BentItems(c: Context, t: Tree)
    requires c.In? && c.sib.Node? && Child(c.sib, c.side).Node?
    ensures AllItems(Bent(c), t) == AllItems(c, t)
  {
    var o, n := c.sib, Child(c.sib, c.side);
    var low := Make(o.id, Red, o.key, o.data, c.side, Child(n, Other(c.side)), Child(o, Other(c.side)));
    if c.side == OnLeft {
      assert Items(low) == Items(n.right) + [Item(o.key, o.data)] + Items(o.right);
      assert Items(n) == Items(n.left) + [Item(n.key, n.data)] + Items(n.right);
    } else {
      assert Items(low) == Items(o.left) + [Item(o.key, o.data)] + Items(n.left);
      assert Items(n) == Items(n.left) + [Item(n.key, n.data)] + Items(n.right);
    }
    assert Items(Bent(c).sib) == Items(o);
  }

  /** With a red far nephew the sibling rises and the shortage is gone. */
  function Settled(c: Context, t: Tree): (r: Tree)
    requires c.In? && c.sib.Node? && Child(c.sib, Other(c.side)).Node?
  {
    var o := c.sib;
    Make(o.id, c.color, o.key, o.data, c.side,
         Make(c.id, Black, c.key, c.data, c.side, t, Child(o, c.side)), Child(o, Other(c.side)).(color := Black))
  }

  lemma SettledKeeps(c: Context, t: Tree)
    requires Short(c, t) && c.In? && RootColor(t) == Black && c.sib.Node? && c.sib.color == Black
    requires RootColor(Child(c.sib, Other(c.side))) == Red
    ensures Marked(c.up, Settled(c, t))
  {
    var p := Make(c.id, Black, c.key, c.data, c.side, t, Child(c.sib, c.side));
    var far := Child(c.sib, Other(c.side));
    var f, h := far.(color := Black), BlackHeight(t);
    assert BlackHeight(c.sib.left) == BlackHeight(c.sib.right) == h;
    assert Balanced(far) && BlackHeight(far.left) == h;
    assert Balanced(p) && Balanced(f) && BlackHeight(p) == BlackHeight(f) == BlackHeight(t) + 1;
  }

  lemma SettledItems(c: Context, t: Tree)
    requires c.In? && c.sib.Node? && Child(c.sib, Other(c.side)).Node?
    ensures AllItems(c.up, Settled(c, t)) == AllItems(c, t)
  {
    var o := c.sib;
    var p := Make(c.id, Black, c.key, c.data, c.side, t, Child(o, c.side));
    assert Items(Child(o, Other(c.side)).(color := Black)) == Items(Child(o, Other(c.side)));
    JoinItems(c, t);
    if c.side == OnLeft {
      assert Items(p) == Items(t) + [Item(c.key, c.data)] + Items(o.left);
    } else {
      assert Items(p) == Items(o.right) + [Item(c.key, c.data)] + Items(t);
    }
    assert Items(Settled(c, t)) == Items(Join(c, t));
  }

  // ---------------------------------------------------------------- the pointer steps

  /** What the code reads of the sibling and its children. */
  lemma NephewReads(h: Heap, root: nat, c: Context, t: Tree)
    requires Shape(h, root, c, t) && c.In? && c.sib.Node?
    ensures var o := c.sib;
            && o.id != 0 && o.id in h && h[o.id].left == Ref(o.left) && h[o.id].right == Ref(o.right)
            && h[o.id].color == o.color
            && (o.left.Node? ==> o.left.id != 0 && o.left.id in h && h[o.left.id].color == o.left.color)
            && (o.right.Node? ==> o.right.id != 0 && o.right.id in h && h[o.right.id].color == o.right.color)
  {
    MarkAcross(h, root, c, t);
    var a, o := Across(c, t), c.sib;
    Reads(h, root, a, o);
    MarkLeft(h, root, a, o);
    Reads(h, root, GoLeft(a, o), o.left);
  }

  /** Colours the sibling of the mark. */
  method ColorSibling(tree: RbTree, other: nat, col: Color, ghost c: Context, ghost t: Tree)
    requires Shape(tree.heap, tree.root, c, t) && c.In? && c.sib.Node? && other == c.sib.id
    modifies tree`heap
    ensures tree.heap.Keys == old(tree.heap.Keys)
    ensures Shape(tree.heap, tree.root, c.(sib := c.sib.(color := col)), t)
  {
    MarkAcross(tree.heap, tree.root, c, t);
    tree.SetColor(other, col, Across(c, t), c.sib);
    MarkAcross(tree.heap, tree.root, Across(c, t), c.sib.(color := col));
  }

  /** Colours the parent of the mark. */
  method ColorParent(tree: RbTree, parent: nat, col: Color, ghost c: Context, ghost t: Tree)
    requires Shape(tree.heap, tree.root, c, t) && c.In? && parent == c.id
    modifies tree`heap
    ensures tree.heap.Keys == old(tree.heap.Keys)
    ensures Shape(tree.heap, tree.root, c.up, Join(c.(color := col), t))
    ensures Shape(tree.heap, tree.root, c.(color := col), t)
  {
    MarkUp(tree.heap, tree.root, c, t);
    tree.SetColor(parent, col, c.up, Join(c, t));
    ghost var p := Join(c, t).(color := col);
    if c.side == OnLeft {
      MarkLeft(tree.heap, tree.root, c.up, p);
    } else {
      MarkRight(tree.heap, tree.root, c.up, p);
    }
  }

  method LiftLeft(tree: RbTree, parent: nat, other: nat, ghost c: Context, ghost t: Tree)
    requires Shape(tree.heap, tree.root, c, t) && c.In? && c.sib.Node? && parent == c.id && other == c.sib.id
    requires c.side == OnLeft
    modifies tree`heap, tree`root
    ensures tree.heap.Keys == old(tree.heap.Keys)
    ensures Shape(tree.heap, tree.root, Lifted(c), t)
  {
    ColorSibling(tree, other, Black, c, t);
    ghost var c1 := c.(sib := c.sib.(color := Black));
    ColorParent(tree, parent, Red, c1, t);
    ghost var p := Join(c1.(color := Red), t);
    tree.RotateLeft(parent, c.up, p);
    ghost var r := RotateLeftTree(p);
    MarkLeft(tree.heap, tree.root, c.up, r);
    MarkLeft(tree.heap, tree.root, GoLeft(c.up, r), r.left);
  }

  method LiftRight(tree: RbTree, parent: nat, other: nat, ghost c: Context, ghost t: Tree)
    requires Shape(tree.heap, tree.root, c, t) && c.In? && c.sib.Node? && parent == c.id && other == c.sib.id
    requires c.side == OnRight
    modifies tree`heap, tree`root
    ensures tree.heap.Keys == old(tree.heap.Keys)
    ensures Shape(tree.heap, tree.root, Lifted(c), t)
  {
    ColorSibling(tree, other, Black, c, t);
    ghost var c1 := c.(sib := c.sib.(color := Black));
    ColorParent(tree, parent, Red, c1, t);
    ghost var p := Join(c1.(color := Red), t);
    tree.RotateRight(parent, c.up, p);
    ghost var r := RotateRightTree(p);
    MarkRight(tree.heap, tree.root, c.up, r);
    MarkRight(tree.heap, tree.root, GoRight(c.up, r), r.right);
  }

  method BendLeft(tree: RbTree, other: nat, near: nat, ghost c: Context, ghost t: Tree)
    requires Shape(tree.heap, tree.root, c, t) && c.In? && c.sib.Node? && c.sib.left.Node?
    requires other == c.sib.id && near == c.sib.left.id && c.side == OnLeft
    modifies tree`heap, tree`root
    ensures tree.heap.Keys == old(tree.heap.Keys)
    ensures Shape(tree.heap, tree.root, Bent(c), t)
  {
    ghost var a, o := Across(c, t), c.sib;
    MarkAcross(tree.heap, tree.root, c, t);
    MarkLeft(tree.heap, tree.root, a, o);
    tree.SetColor(near, Black, GoLeft(a, o), o.left);
    ghost var n := o.left.(color := Black);
    MarkUp(tree.heap, tree.root, GoLeft(a, o), n);
    o := o.(left := n);
    tree.SetColor(other, Red, a, o);
    o := o.(color := Red);
    tree.RotateRight(other, a, o);
    MarkAcross(tree.heap, tree.root, a, RotateRightTree(o));
  }

  method BendRight(tree: RbTree, other: nat, near: nat, ghost c: Context, ghost t: Tree)
    requires Shape(tree.heap, tree.root, c, t) && c.In? && c.sib.Node? && c.sib.right.Node?
    requires other == c.sib.id && near == c.sib.right.id && c.side == OnRight
    modifies tree`heap, tree`root
    ensures tree.heap.Keys == old(tree.heap.Keys)
    ensures Shape(tree.heap, tree.root, Bent(c), t)
  {
    ghost var a, o := Across(c, t), c.sib;
    MarkAcross(tree.heap, tree.root, c, t);
    MarkRight(tree.heap, tree.root, a, o);
    tree.SetColor(near, Black, GoRight(a, o), o.right);
    ghost var n := o.right.(color := Black);
    MarkUp(tree.heap, tree.root, GoRight(a, o), n);
    o := o.(right := n);
    tree.SetColor(other, Red, a, o);
    o := o.(color := Red);
    tree.RotateLeft(other, a, o);
    MarkAcross(tree.heap, tree.root, a, RotateLeftTree(o));
  }

  method SettleLeft(tree: RbTree, parent: nat, other: nat, far: nat, ghost c: Context, ghost t: Tree)
    requires Shape(tree.heap, tree.root, c, t) && c.In? && c.sib.Node? && c.sib.right.Node? && c.side == OnLeft
    requires parent == c.id && other == c.sib.id && far == c.sib.right.id
    modifies tree`heap, tree`root
    ensures tree.heap.Keys == old(tree.heap.Keys)
    ensures Shape(tree.heap, tree.root, c.up, Settled(c, t))
  {
    Reads(tree.heap, tree.root, c, t);
    ColorSibling(tree, other, tree.heap[parent].color, c, t);
    ghost var c1 := c.(sib := c.sib.(color := c.color));
    ColorParent(tree, parent, Black, c1, t);
    c1 := c1.(color := Black);
    ghost var a, o := Across(c1, t), c1.sib;
    MarkAcross(tree.heap, tree.root, c1, t);
    MarkRight(tree.heap, tree.root, a, o);
    tree.SetColor(far, Black, GoRight(a, o), o.right);
    ghost var f := o.right.(color := Black);
    MarkUp(tree.heap, tree.root, GoRight(a, o), f);
    MarkAcross(tree.heap, tree.root, a, o.(right := f));
    c1 := c1.(sib := o.(right := f));
    MarkUp(tree.heap, tree.root, c1, t);
    tree.RotateLeft(parent, c1.up, Join(c1, t));
  }

  method SettleRight(tree: RbTree, parent: nat, other: nat, far: nat, ghost c: Context, ghost t: Tree)
    requires Shape(tree.heap, tree.root, c, t) && c.In? && c.sib.Node? && c.sib.left.Node? && c.side == OnRight
    requires parent == c.id && other == c.sib.id && far == c.sib.left.id
    modifies tree`heap, tree`root
    ensures tree.heap.Keys == old(tree.heap.Keys)
    ensures Shape(tree.heap, tree.root, c.up, Settled(c, t))
  {
    Reads(tree.heap, tree.root, c, t);
    ColorSibling(tree, other, tree.heap[parent].color, c, t);
    ghost var c1 := c.(sib := c.sib.(color := c.color));
    ColorParent(tree, parent, Black, c1, t);
    c1 := c1.(color := Black);
    ghost var a, o := Across(c1, t), c1.sib;
    MarkAcross(tree.heap, tree.root, c1, t);
    MarkLeft(tree.heap, tree.root, a, o);
    tree.SetColor(far, Black, GoLeft(a, o), o.left);
    ghost var f := o.left.(color := Black);
    MarkUp(tree.heap, tree.root, GoLeft(a, o), f);
    MarkAcross(tree.heap, tree.root, a, o.(left := f));
    c1 := c1.(sib := o.(left := f));
    MarkUp(tree.heap, tree.root, c1, t);
    tree.RotateRight(parent, c1.up, Join(c1, t));
  }

  // ---------------------------------------------------------------- the loop

  /** Where the code stands: `node` and `parent` are the mark, and the items are unchanged. */
  ghost predicate Stands(tree: RbTree, node: nat, parent: nat, c: Context, t: Tree, items: seq<Item>)
    reads tree
  {
    Shape(tree.heap, tree.root, c, t) && node == Ref(t) && parent == ContextRef(c) && AllItems(c, t) == items
  }

  /** Reading the colour of a possibly null child. */
  predicate BlackAt(h: Heap, p: nat)
    requires p != 0 ==> p in h
  {
    p == 0 || h[p].color == Black
  }

  /** Progress of the loop: the mark rises, or it becomes red and the loop ends. */
  function Rank(c: Context, t: Tree): (n: nat)
  {
    2 * Depth(c) + if RootColor(t) == Black then 1 else 0
  }

  /** The second half of a turn on the left: the sibling is black. */
  method TurnBlackLeft(tree: RbTree, node: nat, parent: nat, ghost c: Context, ghost t: Tree)
      returns (done: bool, node': nat, parent': nat, ghost c': Context, ghost t': Tree)
    requires Stands(tree, node, parent, c, t, AllItems(c, t)) && Short(c, t) && RootColor(t) == Black
    requires c.In? && c.side == OnLeft && c.sib.Node? && c.sib.color == Black
    modifies tree`heap, tree`root
    ensures tree.heap.Keys == old(tree.heap.Keys)
    ensures done ==> Shape(tree.heap, tree.root, c', t') && Marked(c', t') && AllItems(c', t') == AllItems(c, t)
    ensures !done ==> Stands(tree, node', parent', c', t', AllItems(c, t)) && Short(c', t')
    ensures !done ==> c' == c.up && (c.color == Red ==> RootColor(t') == Red)
  {
    Reads(tree.heap, tree.root, c, t);
    NephewReads(tree.heap, tree.root, c, t);
    var other := tree.heap[parent].right;
    var left, right := tree.heap[other].left, tree.heap[other].right;
    if BlackAt(tree.heap, left) && BlackAt(tree.heap, right) {
      PushedKeeps(c, t);
      PushedItems(c, t);
      ColorSibling(tree, other, Red, c, t);
      ghost var c1 := c.(sib := c.sib.(color := Red));
      MarkUp(tree.heap, tree.root, c1, t);
      c', t' := c.up, Pushed(c, t);
      Reads(tree.heap, tree.root, c', t');
      return false, parent, tree.heap[parent].parent, c', t';
    }
    c', t' := c, t;
    if BlackAt(tree.heap, right) {
      BentKeeps(c, t);
      BentItems(c, t);
      BendLeft(tree, other, left, c, t);
      c' := Bent(c);
      Reads(tree.heap, tree.root, c', t);
      NephewReads(tree.heap, tree.root, c', t);
      other := tree.heap[parent].right;
    }
    SettledKeeps(c', t);
    SettledItems(c', t);
    SettleLeft(tree, parent, other, tree.heap[other].right, c', t);
    c', t' := c'.up, Settled(c', t);
    return true, tree.root, 0, c', t';
  }

  method TurnBlackRight(tree: RbTree, node: nat, parent: nat, ghost c: Context, ghost t: Tree)
      returns (done: bool, node': nat, parent': nat, ghost c': Context, ghost t': Tree)
    requires Stands(tree, node, parent, c, t, AllItems(c, t)) && Short(c, t) && RootColor(t) == Black
    requires c.In? && c.side == OnRight && c.sib.Node? && c.sib.color == Black
    modifies tree`heap, tree`root
    ensures tree.heap.Keys == old(tree.heap.Keys)
    ensures done ==> Shape(tree.heap, tree.root, c', t') && Marked(c', t') && AllItems(c', t') == AllItems(c, t)
    ensures !done ==> Stands(tree, node', parent', c', t', AllItems(c, t)) && Short(c', t')
    ensures !done ==> c' == c.up && (c.color == Red ==> RootColor(t') == Red)
  {
    Reads(tree.heap, tree.root, c, t);
    NephewReads(tree.heap, tree.root, c, t);
    var other := tree.heap[parent].left;
    var left, right := tree.heap[other].left, tree.heap[other].right;
    if BlackAt(tree.heap, left) && BlackAt(tree.heap, right) {
      PushedKeeps(c, t);
      PushedItems(c, t);
      ColorSibling(tree, other, Red, c, t);
      ghost var c1 := c.(sib := c.sib.(color := Red));
      MarkUp(tree.heap, tree.root, c1, t);
      c', t' := c.up, Pushed(c, t);
      Reads(tree.heap, tree.root, c', t');
      return false, parent, tree.heap[parent].parent, c', t';
    }
    c', t' := c, t;
    if BlackAt(tree.heap, left) {
      BentKeeps(c, t);
      BentItems(c, t);
      BendRight(tree, other, right, c, t);
      c' := Bent(c);
      Reads(tree.heap, tree.root, c', t);
      NephewReads(tree.heap, tree.root, c', t);
      other := tree.heap[parent].left;
    }
    SettledKeeps(c', t);
    SettledItems(c', t);
    SettleRight(tree, parent, other, tree.heap[other].left, c', t);
    c', t' := c'.up, Settled(c', t);
    return true, tree.root, 0, c', t';
  }

  /** One turn of the loop, its guard having found a black node below the root. */
  method EraseTurn(tree: RbTree, node: nat, parent: nat, ghost c: Context, ghost t: Tree)
      returns (done: bool, node': nat, parent': nat, ghost c': Context, ghost t': Tree)
    requires Stands(tree, node, parent, c, t, AllItems(c, t)) && Short(c, t) && RootColor(t) == Black && c.In?
    modifies tree`heap, tree`root
    ensures tree.heap.Keys == old(tree.heap.Keys)
    ensures done ==> Shape(tree.heap, tree.root, c', t') && Marked(c', t') && AllItems(c', t') == AllItems(c, t)
    ensures !done ==> Stands(tree, node', parent', c', t', AllItems(c, t)) && Short(c', t') && Rank(c', t') < Rank(c, t)
  {
    ShortSibling(c, t);
    Reads(tree.heap, tree.root, c, t);
    c' := c;
    var onLeft := tree.heap[parent].left == node;
    var other := if onLeft then tree.heap[parent].right else tree.heap[parent].left;
    if tree.heap[other].color == Red {
      LiftedKeeps(c, t);
      LiftedItems(c, t);
      if onLeft {
        LiftLeft(tree, parent, other, c, t);
      } else {
        LiftRight(tree, parent, other, c, t);
      }
      c' := Lifted(c);
      ShortSibling(c', t);
    }
    if onLeft {
      done, node', parent', c', t' := TurnBlackLeft(tree, node, parent, c', t);
    } else {
      done, node', parent', c', t' := TurnBlackRight(tree, node, parent, c', t);
    }
  }

  lemma {:induction false} RootInContext(c: Context, child: nat)
    requires c.In?
    ensures RootRef(c, child) in ContextIds(c)
  {
    if c.up.In? { RootInContext(c.up, c.id); }
  }

  lemma {:induction false} ContextIdsNonzero(c: Context)
    requires DistinctContext(c)
    ensures 0 !in ContextIds(c)
  {
    if c.In? {
      ContextIdsNonzero(c.up);
      IdsNonzero(c.sib);
    }
  }

  lemma {:induction false} IdsNonzero(t: Tree)
    requires Distinct(t)
    ensures 0 !in Ids(t)
  {
    if t.Node? {
      IdsNonzero(t.left);
      IdsNonzero(t.right);
    }
  }

  /** node == root exactly when the mark is at the top. */
  lemma AtRoot(h: Heap, root: nat, c: Context, t: Tree)
    requires Shape(h, root, c, t)
    ensures Ref(t) == root <==> c.Top?
  {
    if c.In? {
      RootInContext(c, Ref(t));
      ContextIdsNonzero(c);
      assert t.Node? ==> t.id in Ids(t);
    }
  }

  /** The loop ends with a red subtree or at the root: blackening it repays the shortage. */
  lemma ShortDone(c: Context, t: Tree)
    requires Short(c, t) && (RootColor(t) == Red || c.Top?)
    ensures t.Node? ==> Marked(c, t.(color := Black)) && AllItems(c, t.(color := Black)) == AllItems(c, t)
    ensures t.Leaf? ==> Marked(c, t)
  {
  }

  /** rb_erase_rebalance: restores a valid tree with the same items. */
  method EraseRebalance(tree: RbTree, node0: nat, parent0: nat, ghost c0: Context, ghost t0: Tree)
      returns (ghost r: Tree)
    requires Stands(tree, node0, parent0, c0, t0, AllItems(c0, t0)) && Short(c0, t0)
    modifies tree`heap, tree`root
    ensures tree.heap.Keys == old(tree.heap.Keys)
    ensures Shape(tree.heap, tree.root, Top, r)
    ensures Balanced(r) && RootColor(r) == Black && Items(r) == AllItems(c0, t0)
  {
    var node, parent, done := node0, parent0, false;
    ghost var c, t := c0, t0;
    Reads(tree.heap, tree.root, c, t);
    AtRoot(tree.heap, tree.root, c, t);
    while !done && BlackAt(tree.heap, node) && node != tree.root
      invariant tree.heap.Keys == old(tree.heap.Keys)
      invariant Shape(tree.heap, tree.root, c, t) && AllItems(c, t) == AllItems(c0, t0)
      invariant if done then Marked(c, t) else Short(c, t) && node == Ref(t) && parent == ContextRef(c)
      invariant !done ==> (node != 0 ==> node in tree.heap) && (BlackAt(tree.heap, node) <==> RootColor(t) == Black)
      invariant !done ==> (node == tree.root <==> c.Top?)
      decreases if done then 0 else 1, Rank(c, t)
    {
      done, node, parent, c, t := EraseTurn(tree, node, parent, c, t);
      Reads(tree.heap, tree.root, c, t);
      AtRoot(tree.heap, tree.root, c, t);
    }
    r := FinishErase(tree, done, node, c, t);
  }

  /** if (node) node->color = BLACK, where after a break node is the root. */
  method FinishErase(tree: RbTree, done: bool, node: nat, ghost c: Context, ghost t: Tree) returns (ghost r: Tree)
    requires Shape(tree.heap, tree.root, c, t)
    requires if done then Marked(c, t) else Short(c, t) && node == Ref(t) && (RootColor(t) == Red || c.Top?)
    modifies tree`heap
    ensures tree.heap.Keys == old(tree.heap.Keys)
    ensures Shape(tree.heap, tree.root, Top, r)
    ensures Balanced(r) && RootColor(r) == Black && Items(r) == AllItems(c, t)
  {
    if done {
      MarkTop(tree.heap, tree.root, c, t);
      PlugBalanced(c, t);
      PlugItems(c, t);
      r := Plug(c, t);
      Reads(tree.heap, tree.root, Top, r);
      if tree.root != 0 {
        tree.SetColor(tree.root, Black, Top, r);
        assert r.(color := Black) == r;
      }
    } else {
      ShortDone(c, t);
      Reads(tree.heap, tree.root, c, t);
      ghost var b := t;
      if node != 0 {
        tree.SetColor(node, Black, c, t);
        b := t.(color := Black);
      }
      MarkTop(tree.heap, tree.root, c, b);
      PlugBalanced(c, b);
      PlugItems(c, b);
      r := Plug(c, b);
    }
  }
}
