/**
 rb_insert and its rebalancing loop (net/rbtree.c).
 */
module RbInsert {
  import opened RbSpec
  import opened RbTree

  /** The loop's invariant: only the edge above the marked red node may join two reds. */
  ghost predicate RedEdge(c: Context, t: Tree)
  {
    t.Node? && t.color == Red && Balanced(t) && Expects(c, BlackHeight(t))
  }

  function AllItems(c: Context, t: Tree): (r: seq<Item>)
  {
    ItemsBefore(c) + Items(t) + ItemsAfter(c)
  }

  lemma JoinItems(c: Context, t: Tree)
    requires c.In?
    ensures AllItems(c.up, Join(c, t)) == AllItems(c, t)
  {
  }

  // ---------------------------------------------------------------- red uncle

  /** Parent and uncle become black, grandparent red; the mark moves two levels up. */
  function Recolored(c: Context, t: Tree): (r: Tree)
    requires c.In? && c.up.In? && c.up.sib.Node?
  {
    Join(c.up.(color := Red, sib := c.up.sib.(color := Black)), Join(c.(color := Black), t))
  }

  lemma RecoloredKeeps(c: Context, t: Tree)
    requires RedEdge(c, t) && c.In? && c.color == Red && c.up.sib.Node? && c.up.sib.color == Red
    ensures RedEdge(c.up.up, Recolored(c, t))
  {
    var n := BlackHeight(t);
    assert Expects(c.up, n);
    var p, u := Join(c.(color := Black), t), c.up.sib.(color := Black);
    assert Balanced(p) && BlackHeight(p) == n + 1;
    assert Balanced(u) && BlackHeight(u) == n + 1;
  }

  lemma RecoloredItems(c: Context, t: Tree)
    requires c.In? && c.up.In? && c.up.sib.Node?
    ensures AllItems(c.up.up, Recolored(c, t)) == AllItems(c, t)
  {
    JoinItems(c, t);
    JoinItems(c.up, Join(c, t));
    assert Items(c.up.sib.(color := Black)) == Items(c.up.sib);
    assert Items(Join(c.(color := Black), t)) == Items(Join(c, t));
  }

  // ---------------------------------------------------------------- black uncle

  /** An inner grandchild is rotated outwards: parent and node change places. */
  function TurnedOut(c: Context, t: Tree): (r: (Context, Tree))
    requires c.In? && t.Node?
  {
    if c.side == OnRight then
      (In(c.up, OnLeft, t.id, t.color, t.key, t.data, t.right), Node(c.id, c.color, c.key, c.data, c.sib, t.left))
    else
      (In(c.up, OnRight, t.id, t.color, t.key, t.data, t.left), Node(c.id, c.color, c.key, c.data, t.right, c.sib))
  }

  lemma TurnedOutKeeps(c: Context, t: Tree)
    requires RedEdge(c, t) && c.In? && c.color == Red
    ensures RedEdge(TurnedOut(c, t).0, TurnedOut(c, t).1)
  {
  }

  lemma TurnedOutItems(c: Context, t: Tree)
    requires c.In? && t.Node?
    ensures AllItems(TurnedOut(c, t).0, TurnedOut(c, t).1) == AllItems(c, t)
  {
  }

  /** The parent rises over the grandparent: black above two reds. */
  function Risen(c: Context): (r: Context)
    requires c.In? && c.up.In?
  {
    var g := if c.side == OnLeft then Node(c.up.id, Red, c.up.key, c.up.data, c.sib, c.up.sib)
             else Node(c.up.id, Red, c.up.key, c.up.data, c.up.sib, c.sib);
    In(c.up.up, c.side, c.id, Black, c.key, c.data, g)
  }

  lemma RisenKeeps(c: Context, t: Tree)
    requires RedEdge(c, t) && c.In? && c.color == Red && RootColor(c.up.sib) == Black
    ensures RedEdge(Risen(c), t)
  {
    assert Expects(c.up, BlackHeight(t));
    assert Balanced(Risen(c).sib) && BlackHeight(Risen(c).sib) == BlackHeight(t);
  }

  lemma RisenItems(c: Context, t: Tree)
    requires c.In? && c.up.In? && c.side == c.up.side
    ensures AllItems(Risen(c), t) == AllItems(c, t)
  {
    var g, up := Risen(c).sib, c.up;
    var x, y := [Item(c.key, c.data)], [Item(up.key, up.data)];
    if c.side == OnLeft {
      assert Items(g) == Items(c.sib) + y + Items(up.sib);
      assert ItemsAfter(up) == y + Items(up.sib) + ItemsAfter(up.up);
      assert ItemsAfter(c) == x + Items(c.sib) + ItemsAfter(up);
      assert ItemsAfter(Risen(c)) == x + Items(g) + ItemsAfter(up.up);
      assert ItemsAfter(c) == ItemsAfter(Risen(c));
      assert ItemsBefore(c) == ItemsBefore(up) == ItemsBefore(up.up);
    } else {
      assert Items(g) == Items(up.sib) + y + Items(c.sib);
      assert ItemsBefore(up) == ItemsBefore(up.up) + Items(up.sib) + y;
      assert ItemsBefore(c) == ItemsBefore(up) + Items(c.sib) + x;
      assert ItemsBefore(Risen(c)) == ItemsBefore(up.up) + Items(g) + x;
      assert ItemsBefore(c) == ItemsBefore(Risen(c));
      assert ItemsAfter(c) == ItemsAfter(up) == ItemsAfter(up.up);
    }
  }

  // ---------------------------------------------------------------- the loop

  method RecolorUncle(tree: RbTree, parent: nat, gparent: nat, uncle: nat, ghost c: Context, ghost t: Tree)
    requires c.In? && c.up.In? && c.up.sib.Node? && Shape(tree.heap, tree.root, c, t)
    requires parent == c.id && gparent == c.up.id && uncle == c.up.sib.id
    modifies tree`heap, tree`root
    ensures tree.heap.Keys == old(tree.heap.Keys)
    ensures Shape(tree.heap, tree.root, c.up.up, Recolored(c, t))
  {
    ghost var p := Join(c, t);
    MarkUp(tree.heap, tree.root, c, t);
    MarkAcross(tree.heap, tree.root, c.up, p);
    tree.SetColor(uncle, Black, Across(c.up, p), c.up.sib);
    ghost var g := c.up.(sib := c.up.sib.(color := Black));
    MarkAcross(tree.heap, tree.root, Across(c.up, p), g.sib);
    tree.SetColor(parent, Black, g, p);
    p := p.(color := Black);
    MarkUp(tree.heap, tree.root, g, p);
    tree.SetColor(gparent, Red, g.up, Join(g, p));
  }

  /** An inner grandchild: one rotation at the parent makes it an outer one. */
  method TurnOutLeft(tree: RbTree, parent: nat, ghost c: Context, ghost t: Tree)
    requires c.In? && t.Node? && Shape(tree.heap, tree.root, c, t) && parent == c.id && c.side == OnRight
    modifies tree`heap, tree`root
    ensures tree.heap.Keys == old(tree.heap.Keys)
    ensures Shape(tree.heap, tree.root, TurnedOut(c, t).0, TurnedOut(c, t).1)
  {
    MarkUp(tree.heap, tree.root, c, t);
    tree.RotateLeft(parent, c.up, Join(c, t));
    MarkLeft(tree.heap, tree.root, c.up, RotateLeftTree(Join(c, t)));
  }

  method TurnOutRight(tree: RbTree, parent: nat, ghost c: Context, ghost t: Tree)
    requires c.In? && t.Node? && Shape(tree.heap, tree.root, c, t) && parent == c.id && c.side == OnLeft
    modifies tree`heap, tree`root
    ensures tree.heap.Keys == old(tree.heap.Keys)
    ensures Shape(tree.heap, tree.root, TurnedOut(c, t).0, TurnedOut(c, t).1)
  {
    MarkUp(tree.heap, tree.root, c, t);
    tree.RotateRight(parent, c.up, Join(c, t));
    MarkRight(tree.heap, tree.root, c.up, RotateRightTree(Join(c, t)));
  }

  /** Parent black, grandparent red, one rotation at the grandparent. */
  method Rise(tree: RbTree, parent: nat, gparent: nat, ghost c: Context, ghost t: Tree)
    requires c.In? && c.up.In? && c.side == c.up.side && Shape(tree.heap, tree.root, c, t)
    requires parent == c.id && gparent == c.up.id
    modifies tree`heap, tree`root
    ensures tree.heap.Keys == old(tree.heap.Keys)
    ensures Shape(tree.heap, tree.root, c.up.up, RiseTop(c, t))
  {
    ghost var p := Join(c, t);
    MarkUp(tree.heap, tree.root, c, t);
    tree.SetColor(parent, Black, c.up, p);
    p := p.(color := Black);
    MarkUp(tree.heap, tree.root, c.up, p);
    tree.SetColor(gparent, Red, c.up.up, Join(c.up, p));
  }

  function RiseTop(c: Context, t: Tree): (r: Tree)
    requires c.In? && c.up.In?
  {
    Join(c.up.(color := Red), Join(c.(color := Black), t))
  }

  /** Where the code stands after one turn of its loop. */
  ghost predicate Turned(tree: RbTree, node: nat, c: Context, t: Tree, items: seq<Item>)
    reads tree
  {
    Shape(tree.heap, tree.root, c, t) && RedEdge(c, t) && t.id == node && AllItems(c, t) == items
  }

  /** The branch with a black uncle, the parent being a left child. */
  method RotateUnderLeft(tree: RbTree, node: nat, parent: nat, gparent: nat, ghost c: Context, ghost t: Tree)
      returns (node': nat, ghost c': Context, ghost t': Tree)
    requires Turned(tree, node, c, t, AllItems(c, t)) && c.In? && c.color == Red && c.up.side == OnLeft
    requires parent == c.id && gparent == c.up.id && RootColor(c.up.sib) == Black
    modifies tree`heap, tree`root
    ensures tree.heap.Keys == old(tree.heap.Keys)
    ensures Turned(tree, node', c', t', AllItems(c, t)) && Depth(c') < Depth(c)
  {
    Reads(tree.heap, tree.root, c, t);
    c', t', node' := c, t, node;
    var par := parent;
    if tree.heap[parent].right == node {
      TurnedOutKeeps(c, t);
      TurnedOutItems(c, t);
      TurnOutLeft(tree, parent, c, t);
      c', t' := TurnedOut(c, t).0, TurnedOut(c, t).1;
      par, node' := node, parent;
    }
    RisenKeeps(c', t');
    RisenItems(c', t');
    Rise(tree, par, gparent, c', t');
    ghost var top := RiseTop(c', t');
    tree.RotateRight(gparent, c'.up.up, top);
    MarkLeft(tree.heap, tree.root, c'.up.up, RotateRightTree(top));
    c' := Risen(c');
  }

  method RotateUnderRight(tree: RbTree, node: nat, parent: nat, gparent: nat, ghost c: Context, ghost t: Tree)
      returns (node': nat, ghost c': Context, ghost t': Tree)
    requires Turned(tree, node, c, t, AllItems(c, t)) && c.In? && c.color == Red && c.up.side == OnRight
    requires parent == c.id && gparent == c.up.id && RootColor(c.up.sib) == Black
    modifies tree`heap, tree`root
    ensures tree.heap.Keys == old(tree.heap.Keys)
    ensures Turned(tree, node', c', t', AllItems(c, t)) && Depth(c') < Depth(c)
  {
    Reads(tree.heap, tree.root, c, t);
    c', t', node' := c, t, node;
    var par := parent;
    if tree.heap[parent].left == node {
      TurnedOutKeeps(c, t);
      TurnedOutItems(c, t);
      TurnOutRight(tree, parent, c, t);
      c', t' := TurnedOut(c, t).0, TurnedOut(c, t).1;
      par, node' := node, parent;
    }
    RisenKeeps(c', t');
    RisenItems(c', t');
    Rise(tree, par, gparent, c', t');
    ghost var top := RiseTop(c', t');
    tree.RotateLeft(gparent, c'.up.up, top);
    MarkRight(tree.heap, tree.root, c'.up.up, RotateLeftTree(top));
    c' := Risen(c');
  }

  function Depth(c: Context): (n: nat)
  {
    if c.Top? then 0 else 1 + Depth(c.up)
  }

  /** One turn of the loop, its guard having found a red parent. */
  method InsertTurn(tree: RbTree, node: nat, parent: nat, ghost c: Context, ghost t: Tree)
      returns (node': nat, ghost c': Context, ghost t': Tree)
    requires Turned(tree, node, c, t, AllItems(c, t)) && c.In? && c.color == Red && parent == c.id
    modifies tree`heap, tree`root
    ensures tree.heap.Keys == old(tree.heap.Keys)
    ensures Turned(tree, node', c', t', AllItems(c, t)) && Depth(c') < Depth(c)
  {
    Reads(tree.heap, tree.root, c, t);
    MarkUp(tree.heap, tree.root, c, t);
    Reads(tree.heap, tree.root, c.up, Join(c, t));
    var gparent := tree.heap[parent].parent;
    var onLeft := parent == tree.heap[gparent].left;
    var uncle := if onLeft then tree.heap[gparent].right else tree.heap[gparent].left;
    if uncle != 0 && tree.heap[uncle].color == Red {
      RecoloredKeeps(c, t);
      RecoloredItems(c, t);
      RecolorUncle(tree, parent, gparent, uncle, c, t);
      c', t', node' := c.up.up, Recolored(c, t), gparent;
    } else if onLeft {
      node', c', t' := RotateUnderLeft(tree, node, parent, gparent, c, t);
    } else {
      node', c', t' := RotateUnderRight(tree, node, parent, gparent, c, t);
    }
  }

  /** After the loop: a black parent or none, so blackening the root leaves a valid tree. */
  lemma InsertDone(c: Context, t: Tree)
    requires RedEdge(c, t) && (c.In? ==> c.color == Black)
    ensures var r := Plug(c, t);
            r.Node? && Balanced(r.(color := Black)) && Items(r.(color := Black)) == AllItems(c, t)
  {
    PlugItems(c, t);
    if c.In? { PlugBalanced(c, t); PlugNode(c, t); }
  }

  lemma {:induction false} PlugNode(c: Context, t: Tree)
    requires t.Node?
    ensures Plug(c, t).Node? && (c.In? ==> Plug(c, t).id == RootRef(c, t.id))
    decreases c
  {
    if c.In? { PlugNode(c.up, Join(c, t)); }
  }

  /** rb_insert_rebalance: restores a valid tree with the same items. */
  method InsertRebalance(tree: RbTree, start: nat, ghost c0: Context, ghost t0: Tree) returns (ghost r: Tree)
    requires Turned(tree, start, c0, t0, AllItems(c0, t0))
    modifies tree`heap, tree`root
    ensures tree.heap.Keys == old(tree.heap.Keys)
    ensures Shape(tree.heap, tree.root, Top, r)
    ensures Balanced(r) && RootColor(r) == Black && Items(r) == AllItems(c0, t0)
  {
    var node := start;
    ghost var c, t := c0, t0;
    Reads(tree.heap, tree.root, c, t);
    var parent := tree.heap[node].parent;
    while parent != 0 && tree.heap[parent].color == Red
      invariant Turned(tree, node, c, t, AllItems(c0, t0)) && tree.heap.Keys == old(tree.heap.Keys)
      invariant parent == ContextRef(c) && (c.In? ==>
        c.id != 0 && c.id in tree.heap && tree.heap[c.id].color == c.color)
      decreases Depth(c)
    {
      node, c, t := InsertTurn(tree, node, parent, c, t);
      Reads(tree.heap, tree.root, c, t);
      parent := tree.heap[node].parent;
    }
    InsertDone(c, t);
    MarkTop(tree.heap, tree.root, c, t);
    tree.SetColor(tree.root, Black, Top, Plug(c, t));
    r := Plug(c, t).(color := Black);
  }

  // ---------------------------------------------------------------- search

  /** The mark in a valid tree: what the descent keeps. */
  ghost predicate Marked(c: Context, t: Tree)
  {
    Balanced(t) && Expects(c, BlackHeight(t)) && ColorFits(c, t)
  }

  /** In an ascending whole, everything left of the marked node is smaller and everything right is larger. */
  lemma AroundNode(c: Context, t: Tree)
    requires t.Node? && Ascending(AllItems(c, t))
    ensures AllBelow(ItemsBefore(c) + Items(t.left), t.key)
    ensures AllAbove(Items(t.right) + ItemsAfter(c), t.key)
  {
    var before, after := ItemsBefore(c) + Items(t.left), Items(t.right) + ItemsAfter(c);
    var all := AllItems(c, t);
    assert all == before + [Item(t.key, t.data)] + after;
    var n := |before|;
    assert all[n] == Item(t.key, t.data);
    forall i | 0 <= i < n ensures before[i].key < t.key { assert all[i] == before[i]; }
    forall i | 0 <= i < |after| ensures t.key < after[i].key { assert all[n + 1 + i] == after[i]; }
  }

  lemma StepLeft(c: Context, t: Tree, key: int)
    requires t.Node? && Ascending(AllItems(c, t)) && key < t.key && AllAbove(ItemsAfter(c), key)
    ensures AllItems(GoLeft(c, t), t.left) == AllItems(c, t)
    ensures AllAbove(ItemsAfter(GoLeft(c, t)), key)
  {
    AroundNode(c, t);
    var after := Items(t.right) + ItemsAfter(c);
    assert ItemsAfter(GoLeft(c, t)) == [Item(t.key, t.data)] + after;
  }

  lemma StepRight(c: Context, t: Tree, key: int)
    requires t.Node? && Ascending(AllItems(c, t)) && t.key < key && AllBelow(ItemsBefore(c), key)
    ensures AllItems(GoRight(c, t), t.right) == AllItems(c, t)
    ensures AllBelow(ItemsBefore(GoRight(c, t)), key)
  {
    AroundNode(c, t);
    var before := ItemsBefore(c) + Items(t.left);
    assert ItemsBefore(GoRight(c, t)) == before + [Item(t.key, t.data)];
  }

  lemma MarkedDown(c: Context, t: Tree)
    requires Marked(c, t) && t.Node?
    ensures Marked(GoLeft(c, t), t.left) && Marked(GoRight(c, t), t.right)
  {
  }

  lemma NodeInItems(c: Context, t: Tree)
    requires t.Node?
    ensures Item(t.key, t.data) in AllItems(c, t)
  {
    var all := AllItems(c, t);
    assert all[|ItemsBefore(c)| + |Items(t.left)|] == Item(t.key, t.data);
  }

  /** rb_search_auxiliary: the node with the key, or the place and parent where it belongs. */
  method SearchAuxiliary(tree: RbTree, key: int) returns (node: nat, parent: nat, ghost c: Context, ghost t: Tree)
    requires tree.Valid() && Fd(key)
    ensures Shape(tree.heap, tree.root, c, t) && Marked(c, t) && AllItems(c, t) == Items(tree.shape)
    ensures node == Ref(t) && (t.Leaf? ==> parent == ContextRef(c)) && (t.Node? ==> t.key == key)
    ensures AllBelow(ItemsBefore(c), key) && AllAbove(ItemsAfter(c), key)
  {
    node, parent := tree.root, 0;
    c, t := Top, tree.shape;
    while node != 0
      invariant Shape(tree.heap, tree.root, c, t) && Marked(c, t) && AllItems(c, t) == Items(tree.shape)
      invariant node == Ref(t) && parent == ContextRef(c)
      invariant AllBelow(ItemsBefore(c), key) && AllAbove(ItemsAfter(c), key)
      decreases t
    {
      Reads(tree.heap, tree.root, c, t);
      NodeInItems(c, t);
      DiffOrders(t.key, key);
      parent := node;
      var ret := Diff(tree.heap[node].key, key);
      MarkedDown(c, t);
      if 0 < ret {
        StepLeft(c, t, key);
        MarkLeft(tree.heap, tree.root, c, t);
        node := tree.heap[node].left;
        c, t := GoLeft(c, t), t.left;
      } else if 0 > ret {
        StepRight(c, t, key);
        MarkRight(tree.heap, tree.root, c, t);
        node := tree.heap[node].right;
        c, t := GoRight(c, t), t.right;
      } else {
        AroundNode(c, t);
        return;
      }
    }
    ZeroIsLeaf(tree.heap, tree.root, c, t);
  }

  lemma ZeroIsLeaf(h: Heap, root: nat, c: Context, t: Tree)
    requires Shape(h, root, c, t) && Ref(t) == 0
    ensures t.Leaf?
  {
    Reads(h, root, c, t);
  }

  // ---------------------------------------------------------------- rb_insert

  /** One more item between smaller and larger ones is one more entry of the map. */
  lemma {:induction false} AsMapInsert(pre: seq<Item>, x: Item, post: seq<Item>)
    requires !HasKey(post, x.key)
    ensures AsMap(pre + [x] + post) == AsMap(pre + post)[x.key := x.data]
  {
    var all := pre + [x] + post;
    if post == [] {
      assert all[..|all| - 1] == pre && pre + post == pre;
    } else {
      var last := post[|post| - 1];
      var rest := post[..|post| - 1];
      assert all[..|all| - 1] == pre + [x] + rest && (pre + post)[..|pre + post| - 1] == pre + rest;
      AsMapInsert(pre, x, rest);
      assert post[|post| - 1].key != x.key;
    }
  }

  lemma AscendingInsert(pre: seq<Item>, x: Item, post: seq<Item>)
    requires Ascending(pre + post) && AllBelow(pre, x.key) && AllAbove(post, x.key)
    ensures Ascending(pre + [x] + post) && !HasKey(pre + post, x.key)
  {
    var old_, all := pre + post, pre + [x] + post;
    forall i, j | 0 <= i < j < |all| ensures all[i].key < all[j].key {
      if i != |pre| && j != |pre| {
        var i', j' := if i < |pre| then i else i - 1, if j < |pre| then j else j - 1;
        assert old_[i'] == all[i] && old_[j'] == all[j];
      }
    }
  }

  /** The new red leaf. */
  function NewNode(id: nat, key: int, data: int): (t: Tree)
  {
    Node(id, Red, key, data, Leaf, Leaf)
  }

  lemma Attached(h: Heap, root: nat, h': Heap, c: Context, id: nat, key: int, data: int)
    requires Shape(h, root, c, Leaf) && id != 0 && id !in h
    requires var h1 := h[id := Rec(0, 0, ContextRef(c), key, data, Red)];
             if c.Top? then h' == h1 else c.id in h && h' == h1[c.id := Linked(c, h[c.id], id)]
    ensures Shape(h', RootRef(c, id), c, NewNode(id, key, data))
  {
    Relink(h, h', c, 0, id);
  }

  /** rb_new_node and the linking below the parent found by the search. */
  method Attach(tree: RbTree, parent: nat, key: int, data: int, ghost c: Context) returns (node: nat)
    requires Shape(tree.heap, tree.root, c, Leaf) && tree.Allocator() && parent == ContextRef(c)
    requires AllBelow(ItemsBefore(c), key) && AllAbove(ItemsAfter(c), key)
    modifies tree`heap, tree`root, tree`nextAddress
    ensures node !in old(tree.heap) && Shape(tree.heap, tree.root, c, NewNode(node, key, data)) && tree.Allocator()
  {
    ghost var h := tree.heap;
    Reads(h, tree.root, c, Leaf);
    node := tree.nextAddress;
    tree.nextAddress := tree.nextAddress + 1;
    tree.heap := tree.heap[node := Rec(0, 0, parent, key, data, Red)];
    if parent != 0 {
      SideByKey(c, key);
      if tree.heap[parent].key > key {
        tree.heap := tree.heap[parent := tree.heap[parent].(left := node)];
      } else {
        tree.heap := tree.heap[parent := tree.heap[parent].(right := node)];
      }
    } else {
      tree.root := node;
    }
    Attached(h, old(tree.root), tree.heap, c, node, key, data);
  }

  lemma SideByKey(c: Context, key: int)
    requires c.In? && AllBelow(ItemsBefore(c), key) && AllAbove(ItemsAfter(c), key)
    ensures c.key > key <==> c.side == OnLeft
  {
    if c.side == OnLeft {
      assert ItemsAfter(c)[0].key == c.key;
    } else {
      assert ItemsBefore(c)[|ItemsBefore(c)| - 1].key == c.key;
    }
  }

  /** The rest of rb_insert, the search having ended at an empty place. */
  method InsertAt(tree: RbTree, parent: nat, key: int, data: int, ghost c: Context)
    requires tree.Valid() && Fd(key) && parent == ContextRef(c)
    requires Shape(tree.heap, tree.root, c, Leaf) && Marked(c, Leaf)
    requires ItemsBefore(c) + ItemsAfter(c) == Items(tree.shape)
    requires AllBelow(ItemsBefore(c), key) && AllAbove(ItemsAfter(c), key)
    modifies tree
    ensures tree.Valid() && Items(tree.shape) == ItemsBefore(c) + [Item(key, data)] + ItemsAfter(c)
  {
    AscendingInsert(ItemsBefore(c), Item(key, data), ItemsAfter(c));
    FdInsert(Items(tree.shape), ItemsBefore(c), Item(key, data), ItemsAfter(c));
    var node := Attach(tree, parent, key, data, c);
    LeafHangs(c, node, key, data);
    tree.shape := InsertRebalance(tree, node, c, NewNode(node, key, data));
  }

  /** A new red leaf in an empty place of a valid tree. */
  lemma LeafHangs(c: Context, node: nat, key: int, data: int)
    requires Marked(c, Leaf)
    ensures RedEdge(c, NewNode(node, key, data))
    ensures AllItems(c, NewNode(node, key, data)) == ItemsBefore(c) + [Item(key, data)] + ItemsAfter(c)
  {
    assert Items(NewNode(node, key, data)) == [Item(key, data)];
  }

  /** rb_insert: adds the key if it is absent; a present key and its data stay as they are. */
  method Insert(tree: RbTree, key: int, data: int)
    requires tree.Valid() && Fd(key)
    modifies tree
    ensures tree.Valid()
    ensures tree.Contents() == if key in old(tree.Contents()) then old(tree.Contents())
      else old(tree.Contents())[key := data]
    ensures key in old(tree.Contents()) ==> tree.root == old(tree.root) && tree.heap == old(tree.heap)
  {
    var node, parent;
    ghost var c, t;
    node, parent, c, t := SearchAuxiliary(tree, key);
    Reads(tree.heap, tree.root, c, t);
    if node != 0 {
      NodeInItems(c, t);
      return;
    }
    assert Items(tree.shape) == ItemsBefore(c) + ItemsAfter(c);
    AscendingInsert(ItemsBefore(c), Item(key, data), ItemsAfter(c));
    AsMapInsert(ItemsBefore(c), Item(key, data), ItemsAfter(c));
    InsertAt(tree, parent, key, data, c);
  }

  lemma FdInsert(items: seq<Item>, pre: seq<Item>, x: Item, post: seq<Item>)
    requires items == pre + post && Fd(x.key) && forall i :: 0 <= i < |items| ==> Fd(items[i].key)
    ensures forall i :: 0 <= i < |pre + [x] + post| ==> Fd((pre + [x] + post)[i].key)
  {
    var all := pre + [x] + post;
    forall i | 0 <= i < |all| ensures Fd(all[i].key) {
      if i != |pre| { assert all[i] == items[if i < |pre| then i else i - 1]; }
    }
  }

  /** rb_search. */
  method Search(tree: RbTree, key: int) returns (node: nat)
    requires tree.Valid() && Fd(key)
    ensures node != 0 <==> key in tree.Contents()
    ensures node != 0 ==>
      node in tree.heap && tree.heap[node].key == key && tree.heap[node].data == tree.Contents()[key]
  {
    var parent;
    ghost var c, t;
    node, parent, c, t := SearchAuxiliary(tree, key);
    Reads(tree.heap, tree.root, c, t);
    if node != 0 {
      NodeInItems(c, t);
      AsMapAt(Items(tree.shape), Item(t.key, t.data));
    } else {
      assert Items(tree.shape) == ItemsBefore(c) + ItemsAfter(c);
      AscendingInsert(ItemsBefore(c), Item(key, 0), ItemsAfter(c));
    }
  }

  lemma {:induction false} AsMapAt(s: seq<Item>, x: Item)
    requires Ascending(s) && x in s
    ensures x.key in AsMap(s) && AsMap(s)[x.key] == x.data
  {
    var last := |s| - 1;
    if s[last] != x {
      assert x in s[..last];
      AsMapAt(s[..last], x);
    }
  }
}
