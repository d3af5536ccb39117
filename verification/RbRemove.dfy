/**
 rb_erase: unlinking a node, replacing a node by its successor, and the whole operation
 (net/rbtree.c).
 */
module RbRemove {
  import opened RbSpec
  import opened RbTree
  import opened RbInsert
  import opened RbErase

  // ---------------------------------------------------------------- a path inside a path

  /** Context d, itself hanging below b. */
  function Over(d: Context, b: Context): (r: Context)
  {
    if d.Top? then b else d.(up := Over(d.up, b))
  }

  lemma {:induction false} MarkUpTo(h: Heap, root: nat, d: Context, b: Context, t: Tree)
    requires Shape(h, root, Over(d, b), t)
    ensures Shape(h, root, b, Plug(d, t))
    decreases d
  {
    if d.In? {
      MarkUp(h, root, Over(d, b), t);
      MarkUpTo(h, root, d.up, b, Join(d, t));
    }
  }

  lemma {:induction false} MarkDownTo(h: Heap, root: nat, d: Context, b: Context, t: Tree)
    requires Shape(h, root, b, Plug(d, t))
    ensures Shape(h, root, Over(d, b), t)
    decreases d
  {
    if d.In? {
      MarkDownTo(h, root, d.up, b, Join(d, t));
      if d.side == OnLeft {
        MarkLeft(h, root, Over(d.up, b), Join(d, t));
      } else {
        MarkRight(h, root, Over(d.up, b), Join(d, t));
      }
    }
  }

  lemma {:induction false} OverItems(d: Context, b: Context)
    ensures ItemsBefore(Over(d, b)) == ItemsBefore(b) + ItemsBefore(d)
    ensures ItemsAfter(Over(d, b)) == ItemsAfter(d) + ItemsAfter(b)
  {
    if d.In? { OverItems(d.up, b); }
  }

  /** Only the colours and siblings of the base matter to the balance above it. */
  lemma {:induction false} OverExpects(d: Context, b: Context, b': Context, n: nat)
    requires Expects(Over(d, b), n) && b.In? && b'.In?
    requires b'.color == b.color && b'.sib == b.sib && b'.up == b.up
    ensures Expects(Over(d, b'), n)
    ensures Over(d, b').In? && Over(d, b').color == Over(d, b).color
  {
    if d.In? { OverExpects(d.up, b, b', n + Weight(d.color)); }
  }

  // ---------------------------------------------------------------- unlinking

  /** The heap without the record at address i. */
  function Without(h: Heap, i: nat): (r: Heap)
  {
    h - {i}
  }

  lemma Spliced(h: Heap, root: nat, h': Heap, c: Context, t: Tree, child: Tree)
    requires Shape(h, root, c, t) && t.Node?
    requires (t.left == Leaf && child == t.right) || (t.right == Leaf && child == t.left)
    requires var h1 := if child.Leaf? then h
      else if child.id in h then h[child.id := h[child.id].(parent := ContextRef(c))] else h;
             ParentLinked(h1, h', c, Ref(child))
    ensures t.id in h' && h'[t.id] == h[t.id]
    ensures Shape(Without(h', t.id), RootRef(c, Ref(child)), c, child)
  {
    var h'' := Without(h', t.id);
    assert Rep(h, child, t.id) && Distinct(child);
    assert child.Node? ==> child.id in Ids(child) && child.id in Ids(t);
    assert Reparented(h, h'', child, ContextRef(c));
    assert Relinked(h, h'', c, Ref(child));
    Reparent(h, h'', child, t.id, ContextRef(c));
    Relink(h, h'', c, t.id, Ref(child));
  }

  /** Takes a node with at most one child out of its place; its own record stays until freed. */
  method Unlink(tree: RbTree, node: nat, child: nat, parent: nat, ghost c: Context, ghost t: Tree, ghost s: Tree)
    requires Shape(tree.heap, tree.root, c, t) && t.Node? && t.id == node && child == Ref(s) && parent == ContextRef(c)
    requires (t.left == Leaf && s == t.right) || (t.right == Leaf && s == t.left)
    modifies tree`heap, tree`root
    ensures node in tree.heap && tree.heap[node] == old(tree.heap[node]) && tree.heap.Keys == old(tree.heap.Keys)
    ensures Shape(Without(tree.heap, node), tree.root, c, s)
  {
    ghost var h := tree.heap;
    ChildReads(h, tree.root, c, t, s);
    Reads(h, tree.root, c, t);
    if child != 0 {
      tree.heap := tree.heap[child := tree.heap[child].(parent := parent)];
    }
    if parent != 0 {
      if tree.heap[parent].left == node {
        tree.heap := tree.heap[parent := tree.heap[parent].(left := child)];
      } else {
        tree.heap := tree.heap[parent := tree.heap[parent].(right := child)];
      }
    } else {
      tree.root := child;
    }
    Spliced(h, old(tree.root), tree.heap, c, t, s);
  }

  lemma ChildReads(h: Heap, root: nat, c: Context, t: Tree, s: Tree)
    requires Shape(h, root, c, t) && t.Node? && (s == t.left || s == t.right)
    ensures s.Node? ==> s.id != 0 && s.id in h && s.id != t.id && (c.In? ==> s.id != c.id)
  {
    assert Rep(h, s, t.id) && Distinct(s);
    assert s.Node? ==> s.id in Ids(s);
  }

  // ---------------------------------------------------------------- replacing

  /** The successor's record takes over the place, colour and children of `o`. */
  function Replaced(o: Tree, id: nat, key: int, data: int): (r: Tree)
    requires o.Node?
  {
    o.(id := id, key := key, data := data)
  }

  ghost predicate TookOver(h: Heap, h': Heap, c: Context, o: Tree, node: nat)
    requires o.Node? && node in h
  {
    && h'.Keys == h.Keys
    && h'[node] == Rec(Ref(o.left), Ref(o.right), ContextRef(c), h[node].key, h[node].data, o.color)
    && Reparented(h, h', o.left, node) && Reparented(h, h', o.right, node) && Relinked(h, h', c, node)
  }

  lemma ReplacedShape(g: Heap, root: nat, g': Heap, c: Context, o: Tree, node: nat, key: int, data: int)
    requires node !in g && node != 0 && o.Node? && Shape(g, root, c, o)
    requires g'.Keys == g.Keys - {o.id} + {node}
    requires g'[node] == Rec(Ref(o.left), Ref(o.right), ContextRef(c), key, data, o.color)
    requires Reparented(g, g', o.left, node) && Reparented(g, g', o.right, node) && Relinked(g, g', c, node)
    ensures Shape(g', RootRef(c, node), c, Replaced(o, node, key, data))
  {
    Reparent(g, g', o.left, o.id, node);
    Reparent(g, g', o.right, o.id, node);
    Relink(g, g', c, o.id, node);
  }

  lemma OutOfTheWay(h: Heap, root: nat, h': Heap, c: Context, o: Tree, node: nat)
    requires node in h && node != 0 && o.Node? && Shape(Without(h, node), root, c, o) && TookOver(h, h', c, o, node)
    ensures var g, g' := Without(h, node), Without(h', o.id);
            && g'.Keys == g.Keys - {o.id} + {node} && g'[node] == h'[node]
            && Reparented(g, g', o.left, node) && Reparented(g, g', o.right, node) && Relinked(g, g', c, node)
  {
    assert node !in Ids(o) && node !in ContextIds(c) by { assert node !in Without(h, node); }
    assert o.left.Node? ==> o.left.id in Ids(o.left);
    assert o.right.Node? ==> o.right.id in Ids(o.right);
  }

  lemma TakeOverWrites(h: Heap, root: nat, h2: Heap, h3: Heap, h': Heap, c: Context, o: Tree, node: nat)
    requires node in h && node != 0 && o.Node? && o.left.Node? && Shape(Without(h, node), root, c, o)
    requires ParentLinked(h[node := Rec(Ref(o.left), Ref(o.right), ContextRef(c), h[node].key, h[node].data, o.color)],
      h2, c, node)
    requires o.left.id in h2 && h3 == h2[o.left.id := h2[o.left.id].(parent := node)]
    requires if o.right.Node? then o.right.id in h3 && h' == h3[o.right.id := h3[o.right.id].(parent := node)]
      else h' == h3
    ensures TookOver(h, h', c, o, node)
  {
    var g := Without(h, node);
    assert Rep(g, o.left, o.id) && Distinct(o.left) && Rep(g, o.right, o.id) && Distinct(o.right);
    assert o.left.id in Ids(o.left);
    assert o.right.Node? ==> o.right.id in Ids(o.right);
    assert node !in Ids(o) && node !in ContextIds(c);
  }

  /** The successor `node`, already unlinked, takes the place of `old_`. */
  method Replace(tree: RbTree, old_: nat, node: nat, ghost c: Context, ghost o: Tree)
    requires node in tree.heap && node != 0 && o.Node? && o.left.Node? && o.id == old_
    requires Shape(Without(tree.heap, node), tree.root, c, o)
    modifies tree`heap, tree`root
    ensures tree.heap.Keys == old(tree.heap.Keys)
    ensures Shape(Without(tree.heap, old_), tree.root, c,
      Replaced(o, node, old(tree.heap[node].key), old(tree.heap[node].data)))
  {
    ghost var h := tree.heap;
    ghost var g := Without(h, node);
    Reads(g, tree.root, c, o);
    ChildReads(g, tree.root, c, o, o.left);
    ChildReads(g, tree.root, c, o, o.right);
    var was := tree.heap[old_];
    tree.heap := tree.heap[node := tree.heap[node].(parent := was.parent, color := was.color, right := was.right,
      left := was.left)];
    if was.parent != 0 {
      if tree.heap[was.parent].left == old_ {
        tree.heap := tree.heap[was.parent := tree.heap[was.parent].(left := node)];
      } else {
        tree.heap := tree.heap[was.parent := tree.heap[was.parent].(right := node)];
      }
    } else {
      tree.root := node;
    }
    ghost var h2 := tree.heap;
    tree.heap := tree.heap[was.left := tree.heap[was.left].(parent := node)];
    ghost var h3 := tree.heap;
    if was.right != 0 {
      tree.heap := tree.heap[was.right := tree.heap[was.right].(parent := node)];
    }
    TakeOverWrites(h, old(tree.root), h2, h3, tree.heap, c, o, node);
    OutOfTheWay(h, old(tree.root), tree.heap, c, o, node);
    ReplacedShape(g, old(tree.root), Without(tree.heap, old_), c, o, node, h[node].key, h[node].data);
  }

  // ---------------------------------------------------------------- the two shapes of removal

  lemma {:induction false} OverHas(d: Context, b: Context)
    requires b.In?
    ensures Over(d, b).In? && b.id in ContextIds(Over(d, b))
  {
    if d.In? { OverHas(d.up, b); }
  }

  /** The leftmost node of the right subtree. */
  method FindSuccessor(tree: RbTree, old_: nat, ghost c: Context, ghost t: Tree)
      returns (node: nat, ghost d: Context, ghost s: Tree)
    requires Shape(tree.heap, tree.root, c, t) && Marked(c, t) && t.Node? && t.id == old_ && t.right.Node?
    ensures Shape(tree.heap, tree.root, Over(d, GoRight(c, t)), s) && Marked(Over(d, GoRight(c, t)), s)
    ensures s.Node? && s.id == node && s.left.Leaf? && Plug(d, s) == t.right && ItemsBefore(d) == []
  {
    ghost var b := GoRight(c, t);
    Reads(tree.heap, tree.root, c, t);
    MarkRight(tree.heap, tree.root, c, t);
    MarkedDown(c, t);
    node := tree.heap[old_].right;
    d, s := Top, t.right;
    Reads(tree.heap, tree.root, b, s);
    var left := tree.heap[node].left;
    while left != 0
      invariant Shape(tree.heap, tree.root, Over(d, b), s) && Marked(Over(d, b), s)
      invariant s.Node? && s.id == node && node in tree.heap && left == Ref(s.left)
      invariant Plug(d, s) == t.right && ItemsBefore(d) == []
      decreases s
    {
      MarkLeft(tree.heap, tree.root, Over(d, b), s);
      MarkedDown(Over(d, b), s);
      d, s, node := In(d, OnLeft, s.id, s.color, s.key, s.data, s.right), s.left, left;
      Reads(tree.heap, tree.root, Over(d, b), s);
      left := tree.heap[node].left;
    }
    MarkLeft(tree.heap, tree.root, Over(d, b), s);
    ZeroIsLeaf(tree.heap, tree.root, GoLeft(Over(d, b), s), s.left);
  }

  /** All items but the marked node's own. */
  function Remaining(c: Context, t: Tree): (r: seq<Item>)
    requires t.Node?
  {
    (ItemsBefore(c) + Items(t.left)) + (Items(t.right) + ItemsAfter(c))
  }

  lemma ItemsAround(c: Context, t: Tree)
    requires t.Node?
    ensures AllItems(c, t) ==
      (ItemsBefore(c) + Items(t.left)) + [Item(t.key, t.data)] + (Items(t.right) + ItemsAfter(c))
  {
  }

  /** What removing a node at the mark leaves: the other items, short by one if the node was black. */
  ghost predicate Removed(c: Context, t: Tree, color: Color, c': Context, t': Tree)
    requires t.Node?
  {
    && AllItems(c', t') == Remaining(c, t)
    && if color == Black then Short(c', t') else Marked(c', t')
  }

  lemma RemovedOne(c: Context, t: Tree, s: Tree)
    requires Marked(c, t) && t.Node? && ((t.left == Leaf && s == t.right) || (t.right == Leaf && s == t.left))
    ensures Removed(c, t, t.color, c, s)
  {
    assert Items(Leaf) == [];
    assert Balanced(s);
    if t.left == Leaf {
      assert Remaining(c, t) == ItemsBefore(c) + Items(s) + ItemsAfter(c);
    } else {
      assert Remaining(c, t) == ItemsBefore(c) + Items(s) + ItemsAfter(c);
    }
  }

  lemma Regroup(p: seq<Item>, x: Item, r: seq<Item>, d: seq<Item>, a: seq<Item>)
    ensures p + [x] + r + (d + a) == p + (([x] + r + d) + a)
  {
  }

  lemma RemovedTwoItems(c: Context, t: Tree, d: Context, s: Tree)
    requires t.Node? && s.Node? && s.left.Leaf? && Plug(d, s) == t.right && ItemsBefore(d) == []
    ensures AllItems(Over(d, GoRight(c, Replaced(t.(right := Plug(d, s.right)), s.id, s.key, s.data))), s.right) ==
            Remaining(c, t)
  {
    var b := GoRight(c, Replaced(t.(right := Plug(d, s.right)), s.id, s.key, s.data));
    var x := Item(s.key, s.data);
    assert Items(t.right) == [x] + Items(s.right) + ItemsAfter(d) by {
      PlugItems(d, s);
      assert Items(s) == [x] + Items(s.right) by { assert Items(s.left) == []; }
    }
    assert
      && ItemsBefore(Over(d, b)) == ItemsBefore(c) + Items(t.left) + [x]
      && ItemsAfter(Over(d, b)) == ItemsAfter(d) + ItemsAfter(c) by {
      OverItems(d, b);
    }
    Regroup(ItemsBefore(c) + Items(t.left), x, Items(s.right), ItemsAfter(d), ItemsAfter(c));
  }

  lemma RemovedTwoBalance(c: Context, t: Tree, d: Context, s: Tree)
    requires t.Node? && s.Node? && s.left.Leaf? && Marked(Over(d, GoRight(c, t)), s)
    ensures var c' := Over(d, GoRight(c, Replaced(t.(right := Plug(d, s.right)), s.id, s.key, s.data)));
            if s.color == Black then Short(c', s.right) else Marked(c', s.right)
  {
    var b, b' := GoRight(c, t), GoRight(c, Replaced(t.(right := Plug(d, s.right)), s.id, s.key, s.data));
    OverHas(d, b);
    OverExpects(d, b, b', BlackHeight(s));
    assert Balanced(s.right);
  }

  /** The successor's parent is the removed node only when it is that node's right child. */
  lemma SuccessorParent(h: Heap, root: nat, d: Context, b: Context, s: Tree)
    requires Shape(h, root, Over(d, b), s) && b.In?
    ensures ContextRef(Over(d, b)) == b.id <==> d.Top?
  {
    if d.In? { OverHas(d.up, b); }
  }

  /** A node with two children: its successor is unlinked and takes its place. */
  method RemoveTwo(tree: RbTree, old_: nat, ghost c: Context, ghost t: Tree)
      returns (child: nat, parent: nat, color: Color, ghost c': Context, ghost t': Tree)
    requires Shape(tree.heap, tree.root, c, t) && Marked(c, t) && t.Node? && t.id == old_ && t.left.Node?
    requires t.right.Node?
    modifies tree`heap, tree`root
    ensures Shape(tree.heap, tree.root, c', t') && child == Ref(t') && parent == ContextRef(c')
    ensures Removed(c, t, color, c', t') && tree.heap.Keys <= old(tree.heap.Keys)
  {
    hide Shape, Expects, Balanced, Marked, AllItems, Remaining, Short;
    var node;
    ghost var d, s;
    node, d, s := FindSuccessor(tree, old_, c, t);
    ghost var b := GoRight(c, t);
    Reads(tree.heap, tree.root, Over(d, b), s);
    child, parent, color := tree.heap[node].right, tree.heap[node].parent, tree.heap[node].color;
    SuccessorParent(tree.heap, tree.root, d, b, s);
    Unlink(tree, node, child, parent, Over(d, b), s, s.right);
    ghost var g := Without(tree.heap, node);
    MarkUpTo(g, tree.root, d, b, s.right);
    ghost var o := t.(right := Plug(d, s.right));
    MarkUp(g, tree.root, b, o.right);
    if tree.heap[node].parent == old_ {
      parent := node;
    }
    Replace(tree, old_, node, c, o);
    tree.heap := Without(tree.heap, old_);
    ghost var r := Replaced(o, node, s.key, s.data);
    MarkRight(tree.heap, tree.root, c, r);
    MarkDownTo(tree.heap, tree.root, d, GoRight(c, r), s.right);
    c', t' := Over(d, GoRight(c, r)), s.right;
    RemovedTwoItems(c, t, d, s);
    RemovedTwoBalance(c, t, d, s);
  }

  /** A node with at most one child: the child takes its place. */
  method RemoveOne(tree: RbTree, old_: nat, ghost c: Context, ghost t: Tree)
      returns (child: nat, parent: nat, color: Color, ghost c': Context, ghost t': Tree)
    requires Shape(tree.heap, tree.root, c, t) && Marked(c, t) && t.Node? && t.id == old_
    requires (t.left.Leaf? || t.right.Leaf?)
    modifies tree`heap, tree`root
    ensures Shape(tree.heap, tree.root, c', t') && child == Ref(t') && parent == ContextRef(c')
    ensures Removed(c, t, color, c', t') && tree.heap.Keys <= old(tree.heap.Keys)
  {
    Reads(tree.heap, tree.root, c, t);
    ChildReads(tree.heap, tree.root, c, t, t.left);
    if tree.heap[old_].left == 0 {
      child := tree.heap[old_].right;
      t' := t.right;
    } else {
      child := tree.heap[old_].left;
      t' := t.left;
    }
    parent, color, c' := tree.heap[old_].parent, tree.heap[old_].color, c;
    Unlink(tree, old_, child, parent, c, t, t');
    tree.heap := Without(tree.heap, old_);
    RemovedOne(c, t, t');
  }

  // ---------------------------------------------------------------- rb_erase

  lemma AsMapErase(pre: seq<Item>, x: Item, post: seq<Item>)
    requires Ascending(pre + [x] + post)
    ensures AsMap(pre + post) == AsMap(pre + [x] + post) - {x.key}
    ensures Ascending(pre + post)
  {
    var all := pre + [x] + post;
    assert all[|pre|] == x;
    forall i | 0 <= i < |pre| ensures pre[i].key < x.key { assert all[i] == pre[i]; }
    forall i | 0 <= i < |post| ensures x.key < post[i].key { assert all[|pre| + 1 + i] == post[i]; }
    forall i, j | 0 <= i < j < |pre + post| ensures (pre + post)[i].key < (pre + post)[j].key {
      var i', j' := if i < |pre| then i else i + 1, if j < |pre| then j else j + 1;
      assert all[i'] == (pre + post)[i] && all[j'] == (pre + post)[j];
    }
    AsMapInsert(pre, x, post);
  }

  lemma FdErase(pre: seq<Item>, x: Item, post: seq<Item>)
    requires forall i :: 0 <= i < |pre + [x] + post| ==> Fd((pre + [x] + post)[i].key)
    ensures forall i :: 0 <= i < |pre + post| ==> Fd((pre + post)[i].key)
  {
    var all := pre + [x] + post;
    forall i | 0 <= i < |pre + post| ensures Fd((pre + post)[i].key) {
      assert all[if i < |pre| then i else i + 1] == (pre + post)[i];
    }
  }

  /** The node at the mark leaves the tree, which is rebalanced if it was black. */
  method EraseNode(tree: RbTree, node: nat, ghost c: Context, ghost t: Tree)
    requires Shape(tree.heap, tree.root, c, t) && Marked(c, t) && t.Node? && t.id == node && tree.Allocator()
    modifies tree
    ensures Shape(tree.heap, tree.root, Top, tree.shape) && tree.Allocator()
    ensures Balanced(tree.shape) && RootColor(tree.shape) == Black
    ensures Items(tree.shape) == Remaining(c, t)
  {
    Reads(tree.heap, tree.root, c, t);
    ChildReads(tree.heap, tree.root, c, t, t.left);
    ChildReads(tree.heap, tree.root, c, t, t.right);
    var child, parent, color;
    ghost var c', t';
    if tree.heap[node].left != 0 && tree.heap[node].right != 0 {
      child, parent, color, c', t' := RemoveTwo(tree, node, c, t);
    } else {
      child, parent, color, c', t' := RemoveOne(tree, node, c, t);
    }
    if color == Black {
      tree.shape := EraseRebalance(tree, child, parent, c', t');
    } else {
      MarkTop(tree.heap, tree.root, c', t');
      PlugBalanced(c', t');
      PlugItems(c', t');
      tree.shape := Plug(c', t');
    }
  }

  /** rb_erase: removes the key if it is present, and nothing else. */
  method Erase(tree: RbTree, key: int)
    requires tree.Valid() && Fd(key)
    modifies tree
    ensures tree.Valid()
    ensures tree.Contents() == old(tree.Contents()) - {key}
    ensures key !in old(tree.Contents()) ==> tree.root == old(tree.root) && tree.heap == old(tree.heap)
  {
    var node, parent;
    ghost var c, t;
    node, parent, c, t := SearchAuxiliary(tree, key);
    Reads(tree.heap, tree.root, c, t);
    if node == 0 {
      assert Items(tree.shape) == ItemsBefore(c) + ItemsAfter(c);
      AscendingInsert(ItemsBefore(c), Item(key, 0), ItemsAfter(c));
      return;
    }
    NodeInItems(c, t);
    EraseFound(tree, node, c, t);
  }

  method EraseFound(tree: RbTree, node: nat, ghost c: Context, ghost t: Tree)
    requires tree.Valid() && Shape(tree.heap, tree.root, c, t) && Marked(c, t) && t.Node? && t.id == node
    requires AllItems(c, t) == Items(tree.shape)
    modifies tree
    ensures tree.Valid()
    ensures tree.Contents() == old(tree.Contents()) - {t.key}
  {
    ghost var pre, x, post := ItemsBefore(c) + Items(t.left), Item(t.key, t.data), Items(t.right) + ItemsAfter(c);
    ItemsAround(c, t);
    AsMapErase(pre, x, post);
    FdErase(pre, x, post);
    EraseNode(tree, node, c, t);
  }
}
