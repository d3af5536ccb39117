/**
 Connections indexed by file descriptor (net/conn.c): a red-black tree and a counter.
 */
module Conn {
  import opened RbSpec
  import opened RbTree
  import opened RbInsert
  import opened RbRemove

  /** Each index entry is a live conn object of that descriptor. */
  ghost predicate Indexed(m: map<int, int>, fds: map<int, int>)
  {
    forall k :: k in m ==> m[k] in fds && fds[m[k]] == k
  }

  lemma IndexedWithout(m: map<int, int>, fds: map<int, int>, fd: int)
    requires Indexed(m, fds) && fd in m
    ensures Indexed(m - {fd}, fds - {m[fd]}) && Indexed(m - {fd}, fds) && |m - {fd}| == |m| - 1
  {
    assert (m - {fd}).Keys == m.Keys - {fd};
  }

  lemma IndexedWith(m: map<int, int>, fds: map<int, int>, fd: int, connection: int)
    requires Indexed(m, fds) && connection !in fds
    ensures Indexed(m, fds[connection := fd]) && Indexed(m[fd := connection], fds[connection := fd])
    ensures |m[fd := connection]| <= |m| + 1
  {
    assert m[fd := connection].Keys == m.Keys + {fd};
  }

  lemma NonEmpty(m: map<int, int>, k: int)
    ensures k in m ==> |m| > 0
  {
    assert k in m ==> k in m.Keys;
  }

  class ConnTree {
    const tree: RbTree
    var connCnt: int
    var fds: map<int, int>      // address of a live conn object -> its fd field
    var nextConn: int

    constructor ()
      ensures Valid() && fresh(tree) && connCnt == 0 && tree.Contents() == map[]
    {
      tree := new RbTree();
      connCnt, fds, nextConn := 0, map[], 1;
    }

    /** The counter never falls below the number of indexed connections, and each index entry is a live conn of that
        fd. */
    ghost predicate Valid()
      reads this, tree
    {
      && tree.Valid() && |tree.Contents()| <= connCnt
      && nextConn > 0 && (forall a :: a in fds ==> 0 < a < nextConn)
      && Indexed(tree.Contents(), fds)
    }

    /** newConn: the counter grows even when the descriptor was already indexed. */
    method NewConn(fd: int) returns (connection: int)
      requires Valid() && Fd(fd)
      modifies this, tree
      ensures Valid() && connCnt == old(connCnt) + 1
      ensures connection !in old(fds) && fds == old(fds)[connection := fd]
      ensures tree.Contents() == if fd in old(tree.Contents()) then old(tree.Contents())
        else old(tree.Contents())[fd := connection]
    {
      connection := nextConn;
      IndexedWith(tree.Contents(), fds, fd, connection);
      nextConn := nextConn + 1;
      fds := fds[connection := fd];
      Insert(tree, fd, connection);
      connCnt := connCnt + 1;
    }

    lemma RootIsEmpty()
      requires tree.Valid()
      ensures tree.root == 0 <==> tree.Contents() == map[]
      ensures tree.root != 0 ==> tree.root in tree.heap
      ensures tree.root != 0 ==> var n := tree.heap[tree.root];
                Fd(n.key) && n.key in tree.Contents() && tree.Contents()[n.key] == n.data
    {
      var t := tree.shape;
      Reads(tree.heap, tree.root, Top, t);
      if t.Node? {
        NodeInItems(Top, t);
        assert AllItems(Top, t) == Items(t);
        AsMapAt(Items(t), Item(t.key, t.data));
      }
    }

    /** freeConn: 1 on success or when there is nothing to do; -1 when the index empties before the counter does, and
        then the conn itself is not freed. */
    method FreeConn(fd: int) returns (r: int)
      requires Valid() && Fd(fd)
      modifies this, tree
      ensures Valid() && tree.Contents() == old(tree.Contents()) - {fd}
      ensures connCnt == if fd in old(tree.Contents()) then old(connCnt) - 1 else old(connCnt)
      ensures r == if fd in old(tree.Contents()) && tree.Contents() == map[] && connCnt != 0 then -1 else 1
      ensures fds == if fd in old(tree.Contents()) && r == 1 then old(fds) - {old(tree.Contents())[fd]} else old(fds)
    {
      ghost var before := tree.Contents();
      if connCnt > 0 {
        var nd := Search(tree, fd);
        if nd != 0 {
          r := FreeFound(fd, tree.heap[nd].data);
          return;
        }
      }
      NonEmpty(before, fd);
      assert before - {fd} == before;
      return 1;
    }

    method FreeFound(fd: int, connection: int) returns (r: int)
      requires Valid() && Fd(fd) && fd in tree.Contents() && tree.Contents()[fd] == connection
      modifies this, tree
      ensures Valid() && tree.Contents() == old(tree.Contents()) - {fd} && connCnt == old(connCnt) - 1
      ensures r == if tree.Contents() == map[] && connCnt != 0 then -1 else 1
      ensures fds == if r == 1 then old(fds) - {connection} else old(fds)
    {
      IndexedWithout(tree.Contents(), fds, fd);
      connCnt := connCnt - 1;
      Erase(tree, fd);
      RootIsEmpty();
      if tree.root == 0 && connCnt != 0 {
        return -1;
      }
      fds := fds - {connection};
      return 1;
    }

    /**
     freeConns ends with an empty index exactly when the counter equals the number of indexed
     connections; otherwise it dereferences the null root.
     */
    method FreeConns() returns (nullRoot: bool)
      requires Valid()
      modifies this, tree
      ensures nullRoot <==> old(connCnt) > |old(tree.Contents())|
      ensures tree.Contents() == map[] && (!nullRoot ==> connCnt == 0)
    {
      while connCnt > 0
        invariant Valid()
        invariant connCnt - |tree.Contents()| == old(connCnt) - |old(tree.Contents())|
        decreases |tree.Contents()|
      {
        RootIsEmpty();
        if tree.root == 0 {
          return true;
        }
        var fd := fds[tree.heap[tree.root].data];
        IndexedWithout(tree.Contents(), fds, fd);
        var r := FreeConn(fd);
      }
      assert |tree.Contents()| == 0;
      return false;
    }
  }

  /** Registering a descriptor twice is the input on which counter and index part. */
  method DuplicateDescriptor(fd: int) returns (c: ConnTree, nullRoot: bool)
    requires Fd(fd)
    ensures nullRoot
  {
    c := new ConnTree();
    var a := c.NewConn(fd);
    var b := c.NewConn(fd);
    assert c.tree.Contents().Keys == {fd};
    assert |c.tree.Contents()| == |{fd}|;
    nullRoot := c.FreeConns();
  }
}
