/**
 Red-black trees as values: the shapes that the pointer code of net/rbtree.c moves between.

 A tree with a marked place is a context and the subtree at that place.  Every loop of the
 pointer code walks such a marked place through the tree.
 */
module RbSpec {

  datatype Color = Red | Black
  datatype Side = OnLeft | OnRight
  datatype Item = Item(key: int, data: int)

  /** Node ids stand for addresses; 0 is the null pointer. */
  datatype Tree = Leaf | Node(id: nat, color: Color, key: int, data: int, left: Tree, right: Tree)

  /** A path from the marked place up to the root: on which side it hangs, the node, the other child. */
  datatype Context = Top | In(up: Context, side: Side, id: nat, color: Color, key: int, data: int, sib: Tree)

  function Ref(t: Tree): (p: nat)
  {
    if t.Leaf? then 0 else t.id
  }

  function RootColor(t: Tree): (c: Color)
  {
    if t.Leaf? then Black else t.color
  }

  function ContextRef(c: Context): (p: nat)
  {
    if c.Top? then 0 else c.id
  }

  /** One level of plugging. */
  function Join(c: Context, t: Tree): (r: Tree)
    requires c.In?
  {
    if c.side == OnLeft then Node(c.id, c.color, c.key, c.data, t, c.sib)
    else Node(c.id, c.color, c.key, c.data, c.sib, t)
  }

  function Plug(c: Context, t: Tree): (r: Tree)
    decreases c
  {
    if c.Top? then t else Plug(c.up, Join(c, t))
  }

  // ---------------------------------------------------------------- contents

  /** The items in key order. */
  function Items(t: Tree): (r: seq<Item>)
  {
    if t.Leaf? then [] else Items(t.left) + [Item(t.key, t.data)] + Items(t.right)
  }

  function ItemsBefore(c: Context): (r: seq<Item>)
  {
    if c.Top? then []
    else if c.side == OnLeft then ItemsBefore(c.up)
    else ItemsBefore(c.up) + Items(c.sib) + [Item(c.key, c.data)]
  }

  function ItemsAfter(c: Context): (r: seq<Item>)
  {
    if c.Top? then []
    else if c.side == OnRight then ItemsAfter(c.up)
    else [Item(c.key, c.data)] + Items(c.sib) + ItemsAfter(c.up)
  }

  lemma {:induction false} PlugItems(c: Context, t: Tree)
    ensures Items(Plug(c, t)) == ItemsBefore(c) + Items(t) + ItemsAfter(c)
    decreases c
  {
    if c.In? {
      PlugItems(c.up, Join(c, t));
      assert Items(Join(c, t)) == if c.side == OnLeft then Items(t) + [Item(c.key, c.data)] + Items(c.sib)
                                  else Items(c.sib) + [Item(c.key, c.data)] + Items(t);
    }
  }

  predicate Ascending(s: seq<Item>)
  {
    forall i, j :: 0 <= i < j < |s| ==> s[i].key < s[j].key
  }

  predicate AllBelow(s: seq<Item>, k: int)
  {
    forall i :: 0 <= i < |s| ==> s[i].key < k
  }

  predicate AllAbove(s: seq<Item>, k: int)
  {
    forall i :: 0 <= i < |s| ==> k < s[i].key
  }

  predicate HasKey(s: seq<Item>, k: int)
  {
    exists i :: 0 <= i < |s| && s[i].key == k
  }

  // ---------------------------------------------------------------- node ids

  function Ids(t: Tree): (r: set<nat>)
  {
    if t.Leaf? then {} else {t.id} + Ids(t.left) + Ids(t.right)
  }

  predicate Distinct(t: Tree)
  {
    t.Leaf? || (
      && t.id != 0 && t.id !in Ids(t.left) && t.id !in Ids(t.right) && Ids(t.left) !! Ids(t.right)
      && Distinct(t.left) && Distinct(t.right))
  }

  function ContextIds(c: Context): (r: set<nat>)
  {
    if c.Top? then {} else {c.id} + Ids(c.sib) + ContextIds(c.up)
  }

  predicate DistinctContext(c: Context)
  {
    c.Top? || (
      && c.id != 0 && c.id !in Ids(c.sib) && c.id !in ContextIds(c.up) && Ids(c.sib) !! ContextIds(c.up)
      && Distinct(c.sib) && DistinctContext(c.up))
  }

  // ---------------------------------------------------------------- balance

  /** Black nodes on the leftmost path. */
  function BlackHeight(t: Tree): (n: nat)
  {
    if t.Leaf? then 0 else BlackHeight(t.left) + (if t.color == Black then 1 else 0)
  }

  /** Equal black heights everywhere and no red node with a red child. */
  predicate Balanced(t: Tree)
  {
    t.Leaf? || (
      && BlackHeight(t.left) == BlackHeight(t.right)
      && (t.color == Red ==> RootColor(t.left) == Black && RootColor(t.right) == Black)
      && Balanced(t.left) && Balanced(t.right))
  }

  /** A valid red-black tree. */
  predicate RedBlack(t: Tree)
  {
    Balanced(t) && RootColor(t) == Black && Ascending(Items(t))
  }

  function Weight(c: Color): (n: nat)
  {
    if c == Black then 1 else 0
  }

  /** The context is balanced around a subtree of black height n; its own colours are in order. */
  predicate Expects(c: Context, n: nat)
  {
    c.Top? || (
      && Balanced(c.sib) && BlackHeight(c.sib) == n
      && (c.color == Red ==> RootColor(c.sib) == Black && c.up.In? && c.up.color == Black)
      && Expects(c.up, n + Weight(c.color)))
  }

  /** t may hang in c without two reds in a row and without a red root. */
  predicate ColorFits(c: Context, t: Tree)
  {
    RootColor(t) == Red ==> c.In? && c.color == Black
  }

  lemma {:induction false} PlugBalanced(c: Context, t: Tree)
    requires Expects(c, BlackHeight(t)) && Balanced(t) && ColorFits(c, t)
    ensures Balanced(Plug(c, t)) && RootColor(Plug(c, t)) == Black
    decreases c
  {
    if c.In? { PlugBalanced(c.up, Join(c, t)); }
  }

  // ---------------------------------------------------------------- height

  function Size(t: Tree): (n: nat)
  {
    if t.Leaf? then 0 else 1 + Size(t.left) + Size(t.right)
  }

  function Height(t: Tree): (n: nat)
  {
    if t.Leaf? then 0 else 1 + if Height(t.left) < Height(t.right) then Height(t.right) else Height(t.left)
  }

  function Pow2(n: nat): (r: nat)
    ensures r >= 1
  {
    if n == 0 then 1 else 2 * Pow2(n - 1)
  }

  lemma {:induction false} SizeFromBlackHeight(t: Tree)
    requires Balanced(t)
    ensures Pow2(BlackHeight(t)) <= Size(t) + 1
  {
    if t.Node? {
      SizeFromBlackHeight(t.left);
      SizeFromBlackHeight(t.right);
    }
  }

  lemma {:induction false} HeightFromBlackHeight(t: Tree)
    requires Balanced(t)
    ensures Height(t) <= 2 * BlackHeight(t) + (if RootColor(t) == Red then 1 else 0)
  {
    if t.Node? {
      HeightFromBlackHeight(t.left);
      HeightFromBlackHeight(t.right);
    }
  }

  lemma {:induction false} Pow2Monotone(a: nat, b: nat)
    requires a <= b
    ensures Pow2(a) <= Pow2(b)
  {
    if a < b { Pow2Monotone(a, b - 1); }
  }

  lemma {:induction false} Pow2Twice(n: nat)
    ensures Pow2(2 * n) == Pow2(n) * Pow2(n)
  {
    if n > 0 {
      Pow2Twice(n - 1);
      assert Pow2(2 * n) == 4 * Pow2(2 * n - 2);
    }
  }

  lemma SquareMonotone(a: nat, b: nat)
    requires a <= b
    ensures a * a <= b * b
  {
    calc <= { a * a; { assert a * (b - a) >= 0; } a * b; { assert (b - a) * b >= 0; } b * b; }
  }

  /** Height is at most 2 * log2(size + 1), stated without logarithms. */
  lemma {:induction false} HeightBound(t: Tree)
    requires RedBlack(t)
    ensures Pow2(Height(t)) <= (Size(t) + 1) * (Size(t) + 1)
  {
    SizeFromBlackHeight(t);
    HeightFromBlackHeight(t);
    var b := Pow2(BlackHeight(t));
    Pow2Monotone(Height(t), 2 * BlackHeight(t));
    Pow2Twice(BlackHeight(t));
    SquareMonotone(b, Size(t) + 1);
  }

  lemma {:induction false} ItemsSize(t: Tree)
    ensures |Items(t)| == Size(t)
  {
    if t.Node? {
      ItemsSize(t.left);
      ItemsSize(t.right);
    }
  }
}
