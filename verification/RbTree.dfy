/**
 The pointer code of net/rbtree.c on a heap of node records.

 The heap is a map from addresses to records, so that writing a field is replacing one
 record.  Ghost arguments say which marked tree the heap currently represents.
 */
module RbTree {
  import opened RbSpec

  datatype Rec = Rec(left: nat, right: nat, parent: nat, key: int, data: int, color: Color)

  type Heap = map<nat, Rec>

  /** The records of t, with t hanging below address `par`. */
  ghost predicate Rep(h: Heap, t: Tree, par: nat)
  {
    t.Leaf? || (
      && t.id in h && h[t.id] == Rec(Ref(t.left), Ref(t.right), par, t.key, t.data, t.color)
      && Rep(h, t.left, t.id) && Rep(h, t.right, t.id))
  }

  /** The records of c, with `child` at the marked place. */
  ghost predicate RepContext(h: Heap, c: Context, child: nat)
  {
    c.Top? || (
      && c.id in h
      && h[c.id] == Rec(if c.side == OnLeft then child else Ref(c.sib), if c.side == OnLeft then Ref(c.sib) else child,
                        ContextRef(c.up), c.key, c.data, c.color)
      && Rep(h, c.sib, c.id)
      && RepContext(h, c.up, c.id))
  }

  function RootRef(c: Context, child: nat): (p: nat)
  {
    if c.Top? then child else RootRef(c.up, c.id)
  }

  /** Heap and root represent exactly t in context c: consistent parent pointers, nothing shared, nothing leaked. */
  ghost predicate Shape(h: Heap, root: nat, c: Context, t: Tree)
  {
    && Rep(h, t, ContextRef(c)) && RepContext(h, c, Ref(t))
    && Distinct(t) && DistinctContext(c) && Ids(t) !! ContextIds(c)
    && h.Keys == Ids(t) + ContextIds(c)
    && root == RootRef(c, Ref(t))
  }

  // ---------------------------------------------------------------- framing

  lemma {:induction false} Frame(h: Heap, h': Heap, t: Tree, par: nat)
    requires Rep(h, t, par) && forall i :: i in Ids(t) ==> i in h && i in h' && h[i] == h'[i]
    ensures Rep(h', t, par)
  {
    if t.Node? {
      Frame(h, h', t.left, t.id);
      Frame(h, h', t.right, t.id);
    }
  }

  lemma {:induction false} FrameContext(h: Heap, h': Heap, c: Context, child: nat)
    requires RepContext(h, c, child) && forall i :: i in ContextIds(c) ==> i in h && i in h' && h[i] == h'[i]
    ensures RepContext(h', c, child)
  {
    if c.In? {
      Frame(h, h', c.sib, c.id);
      FrameContext(h, h', c.up, c.id);
    }
  }

  lemma {:induction false} RepIds(h: Heap, t: Tree, par: nat)
    requires Rep(h, t, par)
    ensures Ids(t) <= h.Keys
  {
    if t.Node? {
      RepIds(h, t.left, t.id);
      RepIds(h, t.right, t.id);
    }
  }

  lemma {:induction false} RepContextIds(h: Heap, c: Context, child: nat)
    requires RepContext(h, c, child)
    ensures ContextIds(c) <= h.Keys
  {
    if c.In? {
      RepIds(h, c.sib, c.id);
      RepContextIds(h, c.up, c.id);
    }
  }

  // ---------------------------------------------------------------- moving the mark

  /** The mark may move up one node without changing the heap. */
  lemma MarkUp(h: Heap, root: nat, c: Context, t: Tree)
    requires c.In? && Shape(h, root, c, t)
    ensures Shape(h, root, c.up, Join(c, t))
  {
  }

  function GoLeft(c: Context, t: Tree): (r: Context)
    requires t.Node?
  {
    In(c, OnLeft, t.id, t.color, t.key, t.data, t.right)
  }

  function GoRight(c: Context, t: Tree): (r: Context)
    requires t.Node?
  {
    In(c, OnRight, t.id, t.color, t.key, t.data, t.left)
  }

  lemma MarkLeft(h: Heap, root: nat, c: Context, t: Tree)
    requires t.Node? && Shape(h, root, c, t)
    ensures Shape(h, root, GoLeft(c, t), t.left)
  {
  }

  lemma MarkRight(h: Heap, root: nat, c: Context, t: Tree)
    requires t.Node? && Shape(h, root, c, t)
    ensures Shape(h, root, GoRight(c, t), t.right)
  {
  }

  /** The context of the other child. */
  function Across(c: Context, t: Tree): (r: Context)
    requires c.In?
  {
    c.(side := if c.side == OnLeft then OnRight else OnLeft, sib := t)
  }

  lemma MarkAcross(h: Heap, root: nat, c: Context, t: Tree)
    requires c.In? && Shape(h, root, c, t)
    ensures Shape(h, root, Across(c, t), c.sib)
  {
  }

  lemma {:induction false} MarkTop(h: Heap, root: nat, c: Context, t: Tree)
    requires Shape(h, root, c, t)
    ensures Shape(h, root, Top, Plug(c, t))
    decreases c
  {
    if c.In? {
      MarkUp(h, root, c, t);
      MarkTop(h, root, c.up, Join(c, t));
    }
  }

  /** What the pointer code reads around the mark. */
  lemma Reads(h: Heap, root: nat, c: Context, t: Tree)
    requires Shape(h, root, c, t)
    ensures t.Node? ==>
      t.id != 0 && t.id in h && h[t.id] == Rec(Ref(t.left), Ref(t.right), ContextRef(c), t.key, t.data, t.color)
    ensures c.In? ==>
      && c.id != 0 && c.id in h && h[c.id].color == c.color && h[c.id].parent == ContextRef(c.up)
      && (c.side == OnLeft ==> h[c.id].left == Ref(t) && h[c.id].right == Ref(c.sib))
      && (c.side == OnRight ==> h[c.id].right == Ref(t) && h[c.id].left == Ref(c.sib))
      && (t.Node? || c.sib.Node? ==> Ref(t) != Ref(c.sib))
      && (c.sib.Node? ==> c.sib.id != 0 && c.sib.id in h && h[c.sib.id].color == c.sib.color)
  {
    assert Rep(h, t, ContextRef(c)) && RepContext(h, c, Ref(t));
    if c.In? {
      assert Rep(h, c.sib, c.id) && Distinct(c.sib);
      assert c.sib.Node? ==> c.sib.id in Ids(c.sib);
      assert t.Node? ==> t.id in Ids(t);
    }
  }

  // ---------------------------------------------------------------- relinking

  /** h' differs from h on t only in the parent field of t's root. */
  ghost predicate Reparented(h: Heap, h': Heap, t: Tree, par: nat)
  {
    t.Node? ==>
      && t.id in h && t.id in h' && h'[t.id] == h[t.id].(parent := par)
      && forall i :: i in Ids(t) && i != t.id ==> i in h && i in h' && h'[i] == h[i]
  }

  lemma Reparent(h: Heap, h': Heap, t: Tree, par: nat, par': nat)
    requires Rep(h, t, par) && Distinct(t) && Reparented(h, h', t, par')
    ensures Rep(h', t, par')
  {
    if t.Node? {
      Frame(h, h', t.left, t.id);
      Frame(h, h', t.right, t.id);
    }
  }

  /** The child pointer that c keeps for its marked place. */
  function Linked(c: Context, r: Rec, child: nat): (r': Rec)
    requires c.In?
  {
    if c.side == OnLeft then r.(left := child) else r.(right := child)
  }

  /** h' differs from h on c only in the pointer to the marked place. */
  ghost predicate Relinked(h: Heap, h': Heap, c: Context, child: nat)
  {
    c.In? ==>
      && c.id in h && c.id in h' && h'[c.id] == Linked(c, h[c.id], child)
      && forall i :: i in ContextIds(c) && i != c.id ==> i in h && i in h' && h'[i] == h[i]
  }

  lemma Relink(h: Heap, h': Heap, c: Context, child: nat, child': nat)
    requires RepContext(h, c, child) && DistinctContext(c) && Relinked(h, h', c, child')
    ensures RepContext(h', c, child')
  {
    if c.In? {
      Frame(h, h', c.sib, c.id);
      FrameContext(h, h', c.up, c.id);
    }
  }

  // ---------------------------------------------------------------- rotations

  function RotateLeftTree(t: Tree): (r: Tree)
    requires t.Node? && t.right.Node?
  {
    t.right.(left := t.(right := t.right.left))
  }

  function RotateRightTree(t: Tree): (r: Tree)
    requires t.Node? && t.left.Node?
  {
    t.left.(right := t.(left := t.left.right))
  }

  /** Every write of rb_rotate_left, as one step. */
  ghost predicate RotatedLeft(h: Heap, h': Heap, c: Context, t: Tree)
    requires t.Node? && t.right.Node? && t.id in h && t.right.id in h
  {
    var x, y := t.id, t.right.id;
    && h'.Keys == h.Keys
    && h'[x] == h[x].(right := Ref(t.right.left), parent := y)
    && h'[y] == h[y].(left := x, parent := ContextRef(c))
    && Reparented(h, h', t.right.left, x)
    && Relinked(h, h', c, y)
    && (forall i :: i in Ids(t.left) + Ids(t.right.right) ==> i in h && h'[i] == h[i])
  }

  lemma RotateLeftShape(h: Heap, root: nat, h': Heap, c: Context, t: Tree)
    requires Shape(h, root, c, t) && t.Node? && t.right.Node? && RotatedLeft(h, h', c, t)
    ensures Shape(h', RootRef(c, t.right.id), c, RotateLeftTree(t))
  {
    assert Rep(h, t.right, t.id) && Distinct(t.right);
    Frame(h, h', t.left, t.id);
    Frame(h, h', t.right.right, t.right.id);
    Reparent(h, h', t.right.left, t.right.id, t.id);
    Relink(h, h', c, t.id, t.right.id);
    var x := t.(right := t.right.left);
    assert Rep(h', x, t.right.id) && Distinct(x);
    assert Ids(t) == Ids(RotateLeftTree(t)) by {
      assert Ids(x) == {t.id} + Ids(t.left) + Ids(t.right.left);
      assert Ids(t.right) == {t.right.id} + Ids(t.right.left) + Ids(t.right.right);
    }
  }

  ghost predicate RotatedRight(h: Heap, h': Heap, c: Context, t: Tree)
    requires t.Node? && t.left.Node? && t.id in h && t.left.id in h
  {
    var x, y := t.id, t.left.id;
    && h'.Keys == h.Keys
    && h'[x] == h[x].(left := Ref(t.left.right), parent := y)
    && h'[y] == h[y].(right := x, parent := ContextRef(c))
    && Reparented(h, h', t.left.right, x)
    && Relinked(h, h', c, y)
    && (forall i :: i in Ids(t.right) + Ids(t.left.left) ==> i in h && h'[i] == h[i])
  }

  lemma RotateRightShape(h: Heap, root: nat, h': Heap, c: Context, t: Tree)
    requires Shape(h, root, c, t) && t.Node? && t.left.Node? && RotatedRight(h, h', c, t)
    ensures Shape(h', RootRef(c, t.left.id), c, RotateRightTree(t))
  {
    assert Rep(h, t.left, t.id) && Distinct(t.left);
    Frame(h, h', t.right, t.id);
    Frame(h, h', t.left.left, t.left.id);
    Reparent(h, h', t.left.right, t.left.id, t.id);
    Relink(h, h', c, t.id, t.left.id);
    var x := t.(left := t.left.right);
    assert Rep(h', x, t.left.id) && Distinct(x);
    assert Ids(t) == Ids(RotateRightTree(t)) by {
      assert Ids(x) == {t.id} + Ids(t.left.right) + Ids(t.right);
      assert Ids(t.left) == {t.left.id} + Ids(t.left.left) + Ids(t.left.right);
    }
  }

  /** The parent part of a rotation or removal: the pointer to `node` now points to `repl`. */
  ghost predicate ParentLinked(h: Heap, h': Heap, c: Context, repl: nat)
  {
    if c.Top? then h' == h else c.id in h && h' == h[c.id := Linked(c, h[c.id], repl)]
  }

  /** The writes of rb_rotate_left below the rotated edge, in order. */
  function TurnLeft(h: Heap, node: nat): (r: Heap)
    requires node in h && h[node].right in h && (h[h[node].right].left != 0 ==> h[h[node].right].left in h)
  {
    var up := h[node].right;
    var inner := h[up].left;
    var h1 := h[node := h[node].(right := inner)];
    var h2 := if inner != 0 then h1[inner := h1[inner].(parent := node)] else h1;
    var h3 := h2[up := h2[up].(left := node)];
    h3[up := h3[up].(parent := h3[node].parent)]
  }

  lemma RotateLeftWrites(h: Heap, root: nat, h2: Heap, h': Heap, c: Context, t: Tree)
    requires Shape(h, root, c, t) && t.Node? && t.right.Node?
    requires var x, y, b := t.id, t.right.id, t.right.left;
             && x in h && y in h && h[x].right == y && h[y].left == Ref(b) && (Ref(b) != 0 ==> Ref(b) in h)
             && ParentLinked(TurnLeft(h, x), h2, c, y)
             && x in h2 && h' == h2[x := h2[x].(parent := y)]
    ensures RotatedLeft(h, h', c, t)
  {
    assert Rep(h, t.right, t.id) && Distinct(t.right) && Distinct(t.right.left);
    assert Ref(t.right.left) != 0 ==> Ref(t.right.left) in Ids(t.right.left);
  }

  /** The writes of rb_rotate_right below the rotated edge, in order. */
  function TurnRight(h: Heap, node: nat): (r: Heap)
    requires node in h && h[node].left in h && (h[h[node].left].right != 0 ==> h[h[node].left].right in h)
  {
    var up := h[node].left;
    var inner := h[up].right;
    var h1 := h[node := h[node].(left := inner)];
    var h2 := if inner != 0 then h1[inner := h1[inner].(parent := node)] else h1;
    var h3 := h2[up := h2[up].(right := node)];
    h3[up := h3[up].(parent := h3[node].parent)]
  }

  lemma RotateRightWrites(h: Heap, root: nat, h2: Heap, h': Heap, c: Context, t: Tree)
    requires Shape(h, root, c, t) && t.Node? && t.left.Node?
    requires var x, y, b := t.id, t.left.id, t.left.right;
             && x in h && y in h && h[x].left == y && h[y].right == Ref(b) && (Ref(b) != 0 ==> Ref(b) in h)
             && ParentLinked(TurnRight(h, x), h2, c, y)
             && x in h2 && h' == h2[x := h2[x].(parent := y)]
    ensures RotatedRight(h, h', c, t)
  {
    assert Rep(h, t.left, t.id) && Distinct(t.left) && Distinct(t.left.right);
    assert Ref(t.left.right) != 0 ==> Ref(t.left.right) in Ids(t.left.right);
  }

  /** File descriptors: the keys on which a 32-bit difference orders like the integers. */
  predicate Fd(k: int)
  {
    0 <= k < 0x8000_0000
  }

  /** node->key - key, in 32-bit two's complement. */
  function Diff(a: int, b: int): (r: int)
  {
    (a - b + 0x8000_0000) % 0x1_0000_0000 - 0x8000_0000
  }

  /** On 32-bit keys the sign of the difference is right exactly when the difference does not wrap. */
  lemma DiffOrders(a: int, b: int)
    requires -0x8000_0000 <= a < 0x8000_0000 && -0x8000_0000 <= b < 0x8000_0000
    ensures (Diff(a, b) > 0 <==> a > b) && (Diff(a, b) < 0 <==> a < b) <==> -0x8000_0000 <= a - b < 0x8000_0000
    ensures Fd(a) && Fd(b) ==> Diff(a, b) == a - b
  {
    if a - b >= 0x8000_0000 {
      assert Diff(a, b) == a - b - 0x1_0000_0000;
    } else if a - b < -0x8000_0000 {
      assert Diff(a, b) == a - b + 0x1_0000_0000;
    } else {
      assert Diff(a, b) == a - b;
    }
  }

  function AsMap(s: seq<Item>): (m: map<int, int>)
    ensures forall k :: k in m <==> HasKey(s, k)
  {
    if s == [] then map[] else AsMap(s[..|s| - 1])[s[|s| - 1].key := s[|s| - 1].data]
  }

  class RbTree {
    var heap: Heap
    var root: nat
    var nextAddress: nat           // every address in use is smaller
    ghost var shape: Tree     // the tree that heap and root represent

    constructor ()
      ensures Valid() && shape == Leaf
    {
      heap, root, nextAddress, shape := map[], 0, 1, Leaf;
    }

    /** A valid red-black tree over file descriptors, with consistent pointers. */
    ghost predicate Valid()
      reads this
    {
      && Shape(heap, root, Top, shape) && RedBlack(shape)
      && (forall i :: 0 <= i < |Items(shape)| ==> Fd(Items(shape)[i].key))
      && Allocator()
    }

    ghost predicate Allocator()
      reads this
    {
      nextAddress > 0 && forall i :: i in heap ==> i < nextAddress
    }

    /** The finite map the tree stands for. */
    ghost function Contents(): (m: map<int, int>)
      reads this
    {
      AsMap(Items(shape))
    }

    /** node->color = col, at the marked node. */
    method SetColor(node: nat, col: Color, ghost c: Context, ghost t: Tree)
      requires Shape(heap, root, c, t) && t.Node? && t.id == node
      modifies this`heap
      ensures Shape(heap, root, c, t.(color := col)) && heap.Keys == old(heap.Keys)
    {
      ghost var h := heap;
      heap := heap[node := heap[node].(color := col)];
      Frame(h, heap, t.left, t.id);
      Frame(h, heap, t.right, t.id);
      FrameContext(h, heap, c, t.id);
    }

    /** Writes the parent's pointer to `node`, or the root if there is no parent. */
    method LinkParent(node: nat, repl: nat, parent: nat, ghost c: Context)
      requires parent == ContextRef(c)
      requires c.In? ==> c.id != 0 && c.id in heap && (c.side == OnRight <==> heap[c.id].right == node)
      modifies this`heap, this`root
      ensures ParentLinked(old(heap), heap, c, repl)
      ensures root == if c.Top? then repl else old(root)
    {
      if parent != 0 {
        if node == heap[parent].right {
          heap := heap[parent := heap[parent].(right := repl)];
        } else {
          heap := heap[parent := heap[parent].(left := repl)];
        }
      } else {
        root := repl;
      }
    }

    method TurnLeftLinks(node: nat)
      requires node in heap && heap[node].right in heap
      requires heap[heap[node].right].left != 0 ==> heap[heap[node].right].left in heap
      modifies this`heap
      ensures heap == TurnLeft(old(heap), node)
    {
      var right := heap[node].right;
      var inner := heap[right].left;
      heap := heap[node := heap[node].(right := inner)];
      if inner != 0 {
        heap := heap[inner := heap[inner].(parent := node)];
      }
      heap := heap[right := heap[right].(left := node)];
      heap := heap[right := heap[right].(parent := heap[node].parent)];
    }

    /** rb_rotate_left: the marked node's right child takes its place. */
    method RotateLeft(node: nat, ghost c: Context, ghost t: Tree)
      requires Shape(heap, root, c, t) && t.Node? && t.id == node && t.right.Node?
      modifies this`heap, this`root
      ensures Shape(heap, root, c, RotateLeftTree(t)) && heap.Keys == old(heap.Keys)
    {
      ghost var h := heap;
      OpenRight(h, root, c, t);
      var right := heap[node].right;
      var parent := heap[node].parent;
      TurnLeftLinks(node);
      TurnLeftParent(h, c, t);
      LinkParent(node, right, parent, c);
      ghost var h2 := heap;
      heap := heap[node := heap[node].(parent := right)];
      RotateLeftWrites(h, old(root), h2, heap, c, t);
      RotateLeftShape(h, old(root), heap, c, t);
    }

    method TurnRightLinks(node: nat)
      requires node in heap && heap[node].left in heap
      requires heap[heap[node].left].right != 0 ==> heap[heap[node].left].right in heap
      modifies this`heap
      ensures heap == TurnRight(old(heap), node)
    {
      var left := heap[node].left;
      var inner := heap[left].right;
      heap := heap[node := heap[node].(left := inner)];
      if inner != 0 {
        heap := heap[inner := heap[inner].(parent := node)];
      }
      heap := heap[left := heap[left].(right := node)];
      heap := heap[left := heap[left].(parent := heap[node].parent)];
    }

    /** rb_rotate_right: the marked node's left child takes its place. */
    method RotateRight(node: nat, ghost c: Context, ghost t: Tree)
      requires Shape(heap, root, c, t) && t.Node? && t.id == node && t.left.Node?
      modifies this`heap, this`root
      ensures Shape(heap, root, c, RotateRightTree(t)) && heap.Keys == old(heap.Keys)
    {
      ghost var h := heap;
      OpenLeft(h, root, c, t);
      var left := heap[node].left;
      var parent := heap[node].parent;
      TurnRightLinks(node);
      TurnRightParent(h, c, t);
      LinkParent(node, left, parent, c);
      ghost var h2 := heap;
      heap := heap[node := heap[node].(parent := left)];
      RotateRightWrites(h, old(root), h2, heap, c, t);
      RotateRightShape(h, old(root), heap, c, t);
    }
  }

  /** The addresses a left rotation touches are in the heap and pairwise different. */
  lemma OpenRight(h: Heap, root: nat, c: Context, t: Tree)
    requires Shape(h, root, c, t) && t.Node? && t.right.Node?
    ensures var x, y, b := t.id, t.right.id, t.right.left;
            && x in h && y in h && x != y && h[x] == Rec(Ref(t.left), y, ContextRef(c), t.key, t.data, t.color)
            && h[y] == Rec(Ref(b), Ref(t.right.right), x, t.right.key, t.right.data, t.right.color)
            && (b.Node? ==> b.id in h && b.id != 0 && b.id != x && b.id != y && (c.In? ==> b.id != c.id))
            && (c.In? ==> c.id in h && c.id != 0 && c.id != x && c.id != y)
            && (c.In? ==> (c.side == OnRight <==> h[c.id].right == x))
  {
    assert Rep(h, t.right, t.id) && Distinct(t.right) && Distinct(t.right.left);
    assert Ref(t.right.left) != 0 ==> Ref(t.right.left) in Ids(t.right.left);
  }

  lemma OpenLeft(h: Heap, root: nat, c: Context, t: Tree)
    requires Shape(h, root, c, t) && t.Node? && t.left.Node?
    ensures var x, y, b := t.id, t.left.id, t.left.right;
            && x in h && y in h && x != y && h[x] == Rec(y, Ref(t.right), ContextRef(c), t.key, t.data, t.color)
            && h[y] == Rec(Ref(t.left.left), Ref(b), x, t.left.key, t.left.data, t.left.color)
            && (b.Node? ==> b.id in h && b.id != 0 && b.id != x && b.id != y && (c.In? ==> b.id != c.id))
            && (c.In? ==> c.id in h && c.id != 0 && c.id != x && c.id != y)
            && (c.In? ==> (c.side == OnRight <==> h[c.id].right == x))
  {
    assert Rep(h, t.left, t.id) && Distinct(t.left) && Distinct(t.left.right);
    assert Ref(t.left.right) != 0 ==> Ref(t.left.right) in Ids(t.left.right);
  }

  /** Turning the edge does not touch the parent's record, nor move the turned node. */
  lemma TurnLeftParent(h: Heap, c: Context, t: Tree)
    requires t.Node? && t.right.Node?
    requires var x, y, b := t.id, t.right.id, t.right.left;
            && x in h && y in h && x != y && h[x].right == y && h[y].left == Ref(b) && (Ref(b) != 0 ==> Ref(b) in h)
            && (Ref(b) != 0 ==> Ref(b) != x && Ref(b) != y && (c.In? ==> Ref(b) != c.id))
            && (c.In? ==> c.id in h && c.id != x && c.id != y)
    ensures c.In? ==> c.id in TurnLeft(h, t.id) && TurnLeft(h, t.id)[c.id] == h[c.id]
    ensures t.id in TurnLeft(h, t.id)
  {
  }

  /** Turning the edge does not touch the parent's record, nor move the turned node. */
  lemma TurnRightParent(h: Heap, c: Context, t: Tree)
    requires t.Node? && t.left.Node?
    requires var x, y, b := t.id, t.left.id, t.left.right;
            && x in h && y in h && x != y && h[x].left == y && h[y].right == Ref(b) && (Ref(b) != 0 ==> Ref(b) in h)
            && (Ref(b) != 0 ==> Ref(b) != x && Ref(b) != y && (c.In? ==> Ref(b) != c.id))
            && (c.In? ==> c.id in h && c.id != x && c.id != y)
    ensures c.In? ==> c.id in TurnRight(h, t.id) && TurnRight(h, t.id)[c.id] == h[c.id]
    ensures t.id in TurnRight(h, t.id)
  {
  }
}
