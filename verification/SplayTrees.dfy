/** Splay trees threaded with a sorted list: searching, inserting and unlinking, and any run of these. */
module SplayTrees {
  import opened SplayShape
  import opened SplayEdit
  import opened SplayNodes
  import opened SplayRelink

  /** prev and next thread the nodes in list order. */
  ghost predicate Threaded(s: seq<Node>, all: set<Node>)
    reads all`prev, all`next
  {
    && (forall i :: 0 <= i < |s| ==> s[i] in all)
    && (forall i {:trigger s[i].prev} :: 0 <= i < |s| ==> s[i].prev == Ptr(s, i - 1))
    && (forall i {:trigger s[i].next} :: 0 <= i < |s| ==> s[i].next == Ptr(s, i + 1))
  }

  ghost predicate Distinct(s: seq<Node>) { forall i, j :: 0 <= i < j < |s| ==> s[i] != s[j] }

  /** The list pointers right after `node` was linked in before position k. */
  ghost predicate ThreadedWith(s: seq<Node>, all: set<Node>, k: int, node: Node)
    requires 0 <= k <= |s|
    reads all`prev, all`next, node`prev, node`next
  {
    && node !in all
    && (forall i :: 0 <= i < |s| ==> s[i] in all)
    && (forall i {:trigger s[i].prev} :: 0 <= i < |s| ==> s[i].prev == if i == k then node else Ptr(s, i - 1))
    && (forall i {:trigger s[i].next} :: 0 <= i < |s| ==> s[i].next == if i == k - 1 then node else Ptr(s, i + 1))
    && node.prev == Ptr(s, k - 1) && node.next == Ptr(s, k)
  }

  lemma ThreadedInserted(s: seq<Node>, all: set<Node>, k: int, node: Node)
    requires 0 <= k <= |s| && ThreadedWith(s, all, k, node)
    ensures Threaded(Inserted(s, k, node), all + {node})
  {
    var s' := Inserted(s, k, node);
    forall i | 0 <= i < |s'|
      ensures s'[i] in all + {node} && s'[i].prev == Ptr(s', i - 1) && s'[i].next == Ptr(s', i + 1)
    {
    }
  }

  /** The list pointers right after s[k] was unlinked. */
  ghost predicate ThreadedWithout(s: seq<Node>, all: set<Node>, k: int)
    requires 0 <= k < |s|
    reads all`prev, all`next
  {
    && (forall i :: 0 <= i < |s| ==> s[i] in all)
    && (forall i {:trigger s[i].prev} :: 0 <= i < |s| && i != k ==>
          s[i].prev == Ptr(s, if i == k + 1 then k - 1 else i - 1))
    && (forall i {:trigger s[i].next} :: 0 <= i < |s| && i != k ==>
          s[i].next == Ptr(s, if i == k - 1 then k + 1 else i + 1))
  }

  lemma ThreadedOffAt(s: seq<Node>, all: set<Node>, k: int, j: int)
    requires 0 <= k < |s| && ThreadedWithout(s, all, k) && 0 <= j < |s| && j != k
    ensures var s' := Off(s, k); var i := Down(k, j); s[j].prev == Ptr(s', i - 1) && s[j].next == Ptr(s', i + 1)
  {
    var before := if j == k + 1 then k - 1 else j - 1;
    var after := if j == k - 1 then k + 1 else j + 1;
    PtrOff(s, k, before);
    if after < |s| { PtrOff(s, k, after); }
  }

  lemma ThreadedOff(s: seq<Node>, all: set<Node>, k: int)
    requires 0 <= k < |s| && ThreadedWithout(s, all, k) && forall j :: 0 <= j < |s| && j != k ==> s[j] != s[k]
    ensures Threaded(Off(s, k), all - {s[k]})
  {
    var s' := Off(s, k);
    forall i | 0 <= i < |s'|
      ensures s'[i] in all - {s[k]} && s'[i].prev == Ptr(s', i - 1) && s'[i].next == Ptr(s', i + 1)
    {
      var j := if i < k then i else i + 1;
      ThreadedOffAt(s, all, k, j);
      OffAt(s, k, j);
    }
  }

  /** List surgery: `node` goes in before s[k]. */
  method ThreadBefore(ghost s: seq<Node>, ghost all: set<Node>, ghost k: int, before: Node, node: Node)
    requires Threaded(s, all) && 0 <= k < |s| && before == s[k] && node !in all && Distinct(s)
    modifies all`prev, all`next, node`prev, node`next
    ensures ThreadedWith(s, all, k, node)
  {
    node.next := before;
    node.prev := before.prev;
    if before.prev != null { before.prev.next := node; }
    before.prev := node;
  }

  /** List surgery: `node` goes in after s[k]. */
  method ThreadAfter(ghost s: seq<Node>, ghost all: set<Node>, ghost k: int, after: Node, node: Node)
    requires Threaded(s, all) && 0 <= k < |s| && after == s[k] && node !in all && Distinct(s)
    modifies all`prev, all`next, node`prev, node`next
    ensures ThreadedWith(s, all, k + 1, node)
  {
    node.prev := after;
    node.next := after.next;
    if after.next != null { after.next.prev := node; }
    after.next := node;
  }

  /** List surgery: s[k] comes out; its own pointers stay. */
  method Unthread(ghost s: seq<Node>, ghost all: set<Node>, ghost k: int, node: Node)
    requires Threaded(s, all) && 0 <= k < |s| && node == s[k] && Distinct(s)
    modifies all`prev, all`next
    ensures ThreadedWithout(s, all, k) && node.prev == Ptr(s, k - 1) && node.next == Ptr(s, k + 1)
  {
    if node.prev != null { node.prev.next := node.next; }
    if node.next != null { node.next.prev := node.prev; }
  }

  /** Tree surgery: `node` goes above the root `before`, taking its left tree. */
  method GraftBefore(ghost s: seq<Node>, ghost all: set<Node>, ghost g: Tree, before: Node, node: Node)
    requires InTree(s, all, g, before) && node !in all
    modifies all`left, all`parent, node`left, node`right, node`parent
    ensures GraftedBefore(s, all, g, before.pos, node)
  {
    assert NodeOk(g, |s|, Spot(before.pos), Whole(before.pos));
    InRange(g, |s|, before.pos);
    node.right := before;
    before.parent := node;
    node.left := before.left;
    if before.left != null { before.left.parent := node; }
    before.left := null;
    node.parent := null;
  }

  /** Tree surgery: `node` goes above the root `after`, taking its right tree. */
  method GraftAfter(ghost s: seq<Node>, ghost all: set<Node>, ghost g: Tree, after: Node, node: Node)
    requires InTree(s, all, g, after) && node !in all
    modifies all`right, all`parent, node`left, node`right, node`parent
    ensures GraftedAfter(s, all, g, after.pos, node)
  {
    assert NodeOk(g, |s|, Spot(after.pos), Whole(after.pos));
    InRange(g, |s|, after.pos);
    node.left := after;
    after.parent := node;
    node.right := after.right;
    if after.right != null { after.right.parent := node; }
    after.right := null;
    node.parent := null;
  }

  /** Tree surgery: the tree of the root's predecessor takes the root's right tree. */
  method SeverUnder(ghost s: seq<Node>, ghost all: set<Node>, ghost g: Tree, node: Node, before: Node)
      returns (root: Node)
    requires InTree(s, all, g, node) && node.pos > 0 && before == s[node.pos - 1]
    modifies all`right, all`parent
    ensures Severed(s, all, g, node.pos) && root == Ptr(s, g.l[node.pos])
  {
    ghost var k := node.pos;
    assert NodeOk(g, |s|, Spot(k), Whole(k));
    InRange(g, |s|, k);
    Sides(g, |s|, k);
    Before(g, |s|, k);
    root := node.left;
    root.parent := null;
    before.right := node.right;
    if node.right != null { node.right.parent := before; }
  }

  /** Tree surgery: the root comes out. */
  method Sever(ghost s: seq<Node>, ghost all: set<Node>, ghost g: Tree, node: Node) returns (root: Node?)
    requires InTree(s, all, g, node) && node.prev == Ptr(s, node.pos - 1) && node.next == Ptr(s, node.pos + 1)
    modifies all`right, all`parent
    ensures Severed(s, all, g, node.pos) && root == Ptr(s, if node.pos > 0 then g.l[node.pos] else g.r[node.pos])
  {
    assert NodeOk(g, |s|, Spot(node.pos), Whole(node.pos));
    InRange(g, |s|, node.pos);
    if node.prev != null {
      root := SeverUnder(s, all, g, node, node.prev);
    } else if node.next != null {
      root := node.right;
      node.right.parent := null;
    } else {
      root := null;
    }
  }

  lemma PosDistinct(s: seq<Node>)
    requires Numbered(s)
    ensures Distinct(s)
  {
  }

  lemma InsertedDistinct(s: seq<Node>, all: set<Node>, k: int, node: Node)
    requires 0 <= k <= |s| && Distinct(s) && node !in all && forall i :: 0 <= i < |s| ==> s[i] in all
    ensures Distinct(Inserted(s, k, node))
  {
  }

  lemma TreeBefore(s: seq<Node>, all: set<Node>, g: Tree, k: int, node: Node)
    requires TreeOk(g, |s|, Whole(k)) && GraftedBefore(s, all, g, k, node) && Numbered(Inserted(s, k, node))
    ensures InTree(Inserted(s, k, node), all + {node}, InsBefore(g, |s|, k), node)
  {
    WiredBefore(s, all, g, k, node);
    InsBeforeOk(g, |s|, k);
    assert Inserted(s, k, node)[k] == node;
  }

  /** The ghost half of an insertion: the grown list gets its positions. */
  ghost method SettleBefore(s: seq<Node>, all: set<Node>, g: Tree, k: int, node: Node)
    requires TreeOk(g, |s|, Whole(k)) && GraftedBefore(s, all, g, k, node) && ThreadedWith(s, all, k, node)
             && Distinct(s)
    modifies all`pos, node`pos
    ensures Threaded(Inserted(s, k, node), all + {node}) && Numbered(Inserted(s, k, node))
    ensures InTree(Inserted(s, k, node), all + {node}, InsBefore(g, |s|, k), node)
  {
    InsertedDistinct(s, all, k, node);
    Number(Inserted(s, k, node));
    assert GraftedBefore(s, all, g, k, node) && ThreadedWith(s, all, k, node);
    TreeBefore(s, all, g, k, node);
    ThreadedInserted(s, all, k, node);
  }

  /** The tree half of an insertion: splay to the neighbour and graft `node` above it. */
  method RaiseBefore(ghost s: seq<Node>, ghost all: set<Node>, ghost g: Tree, ghost root: int, before: Node, node: Node)
    returns (ghost g': Tree)
    requires Wired(s, all, g) && TreeOk(g, |s|, Whole(root)) && Has(s, all, before) && node !in all
    modifies all`left, all`right, all`parent, node`left, node`right, node`parent
    ensures TreeOk(g', |s|, Whole(before.pos)) && GraftedBefore(s, all, g', before.pos, node)
  {
    g' := BottomUp(s, all, g, root, before);
    GraftBefore(s, all, g', before, node);
  }

  method PutBefore(ghost s: seq<Node>, ghost all: set<Node>, ghost g: Tree, ghost root: int, ghost k: int,
      before: Node, node: Node)
    returns (ghost g': Tree)
    requires Threaded(s, all) && Wired(s, all, g) && TreeOk(g, |s|, Whole(root)) && 0 <= k < |s| && s[k] == before
             && node !in all
    modifies all, node
    ensures Threaded(Inserted(s, k, node), all + {node}) && Numbered(Inserted(s, k, node))
    ensures InTree(Inserted(s, k, node), all + {node}, g', node)
  {
    assert before.pos == k;
    PosDistinct(s);
    ThreadBefore(s, all, k, before, node);
    ghost var g1 := RaiseBefore(s, all, g, root, before, node);
    assert ThreadedWith(s, all, k, node);
    SettleBefore(s, all, g1, k, node);
    g' := InsBefore(g1, |s|, k);
  }

  lemma TreeAfter(s: seq<Node>, all: set<Node>, g: Tree, k: int, node: Node)
    requires TreeOk(g, |s|, Whole(k)) && GraftedAfter(s, all, g, k, node) && Numbered(Inserted(s, k + 1, node))
    ensures InTree(Inserted(s, k + 1, node), all + {node}, InsAfter(g, |s|, k), node)
  {
    WiredAfter(s, all, g, k, node);
    InsAfterOk(g, |s|, k);
    assert Inserted(s, k + 1, node)[k + 1] == node;
  }

  /** The ghost half of an insertion: the grown list gets its positions. */
  ghost method SettleAfter(s: seq<Node>, all: set<Node>, g: Tree, k: int, node: Node)
    requires TreeOk(g, |s|, Whole(k)) && GraftedAfter(s, all, g, k, node) && ThreadedWith(s, all, k + 1, node)
             && Distinct(s)
    modifies all`pos, node`pos
    ensures Threaded(Inserted(s, k + 1, node), all + {node}) && Numbered(Inserted(s, k + 1, node))
    ensures InTree(Inserted(s, k + 1, node), all + {node}, InsAfter(g, |s|, k), node)
  {
    InsertedDistinct(s, all, k + 1, node);
    Number(Inserted(s, k + 1, node));
    assert GraftedAfter(s, all, g, k, node) && ThreadedWith(s, all, k + 1, node);
    TreeAfter(s, all, g, k, node);
    ThreadedInserted(s, all, k + 1, node);
  }

  /** The tree half of an insertion: splay to the neighbour and graft `node` above it. */
  method RaiseAfter(ghost s: seq<Node>, ghost all: set<Node>, ghost g: Tree, ghost root: int, after: Node, node: Node)
    returns (ghost g': Tree)
    requires Wired(s, all, g) && TreeOk(g, |s|, Whole(root)) && Has(s, all, after) && node !in all
    modifies all`left, all`right, all`parent, node`left, node`right, node`parent
    ensures TreeOk(g', |s|, Whole(after.pos)) && GraftedAfter(s, all, g', after.pos, node)
  {
    g' := BottomUp(s, all, g, root, after);
    GraftAfter(s, all, g', after, node);
  }

  method PutAfter(ghost s: seq<Node>, ghost all: set<Node>, ghost g: Tree, ghost root: int, ghost k: int, after: Node,
      node: Node)
    returns (ghost g': Tree)
    requires Threaded(s, all) && Wired(s, all, g) && TreeOk(g, |s|, Whole(root)) && 0 <= k < |s| && s[k] == after
             && node !in all
    modifies all, node
    ensures Threaded(Inserted(s, k + 1, node), all + {node}) && Numbered(Inserted(s, k + 1, node))
    ensures InTree(Inserted(s, k + 1, node), all + {node}, g', node)
  {
    assert after.pos == k;
    PosDistinct(s);
    ThreadAfter(s, all, k, after, node);
    ghost var g1 := RaiseAfter(s, all, g, root, after, node);
    assert ThreadedWith(s, all, k + 1, node);
    SettleAfter(s, all, g1, k, node);
    g' := InsAfter(g1, |s|, k);
  }

  /** The ghost half of a removal: the shrunk list gets its positions. */
  ghost method SettleOff(s: seq<Node>, all: set<Node>, g: Tree, k: int)
    requires TreeOk(g, |s|, Whole(k)) && Severed(s, all, g, k) && ThreadedWithout(s, all, k) && Distinct(s)
    modifies all`pos
    ensures Threaded(Off(s, k), all - {s[k]}) && Numbered(Off(s, k))
    ensures Wired(Off(s, k), all - {s[k]}, Removed(g, |s|, k))
    ensures |s| > 1 ==> TreeOk(Removed(g, |s|, k), |s| - 1, Whole(NewRoot(g, |s|, k)))
  {
    OffDistinct(s, k);
    Number(Off(s, k));
    WiredOff(s, all, g, k);
    if |s| > 1 { RemovedOk(g, |s|, k); }
    ThreadedOff(s, all, k);
  }

  lemma OffDistinct(s: seq<Node>, k: int)
    requires 0 <= k < |s| && Distinct(s)
    ensures Distinct(Off(s, k))
  {
  }

  /** The tree half of a removal: splay to the node and cut it out. */
  method Fell(ghost s: seq<Node>, ghost all: set<Node>, ghost g: Tree, ghost root: int, node: Node)
    returns (top: Node?, ghost g': Tree)
    requires Wired(s, all, g) && TreeOk(g, |s|, Whole(root)) && Has(s, all, node)
    requires node.prev == Ptr(s, node.pos - 1) && node.next == Ptr(s, node.pos + 1)
    modifies all`left, all`right, all`parent
    ensures TreeOk(g', |s|, Whole(node.pos)) && Severed(s, all, g', node.pos)
    ensures |s| > 1 ==> 0 <= NewRoot(g', |s|, node.pos) < |s| - 1
    ensures top == Ptr(Off(s, node.pos), NewRoot(g', |s|, node.pos))
  {
    g' := BottomUp(s, all, g, root, node);
    top := Sever(s, all, g', node);
    RootMoves(s, all, g', node.pos);
  }

  method TakeOff(ghost s: seq<Node>, ghost all: set<Node>, ghost g: Tree, ghost root: int, ghost k: int, node: Node)
    returns (top: Node?, ghost g': Tree)
    requires Threaded(s, all) && Wired(s, all, g) && TreeOk(g, |s|, Whole(root)) && 0 <= k < |s| && s[k] == node
    modifies all
    ensures Threaded(Off(s, k), all - {node}) && Numbered(Off(s, k))
    ensures if |s| == 1 then top == null else top != null && InTree(Off(s, k), all - {node}, g', top)
    ensures node.prev == old(node.prev) && node.next == old(node.next)
  {
    assert node.pos == k;
    PosDistinct(s);
    Unthread(s, all, k, node);
    ghost var g1;
    top, g1 := Fell(s, all, g, root, node);
    assert ThreadedWithout(s, all, k);
    SettleOff(s, all, g1, k);
    g' := Removed(g1, |s|, k);
  }

  /** The root of the shrunk tree is the child that took over. */
  lemma RootMoves(s: seq<Node>, all: set<Node>, g: Tree, k: int)
    requires TreeOk(g, |s|, Whole(k))
    ensures NIL <= g.l[k] < |s| && NIL <= g.r[k] < |s|
    ensures Ptr(Off(s, k), NewRoot(g, |s|, k)) == Ptr(s, if k > 0 then g.l[k] else g.r[k])
    ensures |s| > 1 ==> 0 <= NewRoot(g, |s|, k) < |s| - 1
  {
    assert NodeOk(g, |s|, Spot(k), Whole(k));
    if k > 0 { PtrOff(s, k, g.l[k]); } else { PtrOff(s, k, g.r[k]); }
  }

  lemma SortedInserted(s: seq<Node>, k: int, node: Node)
    requires 0 <= k <= |s| && Sorted(Keys(s))
    requires (k == 0 || s[k - 1].key < node.key) && (k == |s| || node.key < s[k].key)
    ensures Sorted(Keys(Inserted(s, k, node)))
  {
    var s' := Inserted(s, k, node);
    forall i, j | 0 <= i < j < |s'| ensures Keys(s')[i] < Keys(s')[j] {
      var a := Keys(s);
      assert i < k ==> s'[i] == s[i] && (i < k - 1 ==> a[i] < a[k - 1]);
      assert j > k ==> s'[j] == s[j - 1] && (j > k + 1 ==> a[k] < a[j - 1]);
      assert i > k ==> s'[i] == s[i - 1];
    }
  }

  lemma SortedOff(s: seq<Node>, k: int)
    requires 0 <= k < |s| && Sorted(Keys(s))
    ensures Sorted(Keys(Off(s, k)))
  {
    var s' := Off(s, k);
    forall i, j | 0 <= i < j < |s'| ensures Keys(s')[i] < Keys(s')[j] {
      assert Keys(s')[i] == Keys(s)[if i < k then i else i + 1];
      assert Keys(s')[j] == Keys(s)[if j < k then j else j + 1];
    }
  }

  /**
   * What the tree structure consists of: a sorted list threaded both ways, and a tree over the same
   * nodes in the same order.
   */
  ghost predicate Sound(head: Node?, tail: Node?, root: Node?, count: int, s: seq<Node>, all: set<Node>, g: Tree)
    reads all`left, all`right, all`parent, all`prev, all`next, all`pos
  {
    && head == Ptr(s, 0) && tail == Ptr(s, |s| - 1) && count == |s|
    && Threaded(s, all) && Sorted(Keys(s))
    && if root == null then s == [] else root in all && InTree(s, all, g, root)
  }

  lemma Grown(head: Node?, tail: Node?, s: seq<Node>, all: set<Node>, k: int, node: Node, g: Tree)
    requires 0 <= k <= |s| && Sorted(Keys(Inserted(s, k, node)))
    requires Threaded(Inserted(s, k, node), all + {node}) && InTree(Inserted(s, k, node), all + {node}, g, node)
    requires head == (if k == 0 then node else Ptr(s, 0)) && tail == (if k == |s| then node else Ptr(s, |s| - 1))
    ensures Sound(head, tail, node, |s| + 1, Inserted(s, k, node), all + {node}, g)
  {
  }

  /** splay_insert_before, on the nodes; returns the new head of the list. */
  method AddBefore(head: Node?, ghost tail: Node?, root: Node, ghost s: seq<Node>, ghost all: set<Node>, ghost g: Tree,
      ghost k: int, before: Node, node: Node)
    returns (first: Node?, ghost g': Tree)
    requires Sound(head, tail, root, |s|, s, all, g) && 0 <= k < |s| && s[k] == before && node !in all
    requires node.key < before.key && (k == 0 || s[k - 1].key < node.key)
    modifies all, node
    ensures Sound(first, tail, node, |s| + 1, Inserted(s, k, node), all + {node}, g') && node.pos == k
  {
    SortedInserted(s, k, node);
    first := if before.prev == null then node else head;
    g' := PutBefore(s, all, g, root.pos, k, before, node);
    Grown(first, tail, s, all, k, node, g');
    assert Inserted(s, k, node)[k] == node;
  }

  /** splay_insert_after, on the nodes; returns the new tail of the list. */
  method AddAfter(ghost head: Node?, tail: Node?, root: Node, ghost s: seq<Node>, ghost all: set<Node>, ghost g: Tree,
      ghost k: int, after: Node, node: Node)
    returns (last: Node?, ghost g': Tree)
    requires Sound(head, tail, root, |s|, s, all, g) && 0 <= k < |s| && s[k] == after && node !in all
    requires after.key < node.key && (k == |s| - 1 || node.key < s[k + 1].key)
    modifies all, node
    ensures Sound(head, last, node, |s| + 1, Inserted(s, k + 1, node), all + {node}, g') && node.pos == k + 1
  {
    SortedInserted(s, k + 1, node);
    last := if after.next == null then node else tail;
    g' := PutAfter(s, all, g, root.pos, k, after, node);
    Grown(head, last, s, all, k + 1, node, g');
    assert Inserted(s, k + 1, node)[k + 1] == node;
  }

  lemma Shrunk(first: Node?, last: Node?, top: Node?, s: seq<Node>, all: set<Node>, k: int, g: Tree)
    requires 0 <= k < |s| && Sorted(Keys(Off(s, k))) && Threaded(Off(s, k), all)
    requires first == Ptr(s, if k == 0 then 1 else 0) && last == Ptr(s, if k == |s| - 1 then |s| - 2 else |s| - 1)
    requires if |s| == 1 then top == null else top != null && InTree(Off(s, k), all, g, top)
    ensures Sound(first, last, top, |s| - 1, Off(s, k), all, g)
  {
    var s' := Off(s, k);
    assert first == Ptr(s', 0);
    assert last == Ptr(s', |s'| - 1);
  }

  /** splay_unlink_node, on the nodes; returns the new ends of the list and the new root. */
  method Drop(head: Node?, tail: Node?, root: Node, ghost s: seq<Node>, ghost all: set<Node>, ghost g: Tree,
      ghost k: int, node: Node)
    returns (first: Node?, last: Node?, top: Node?, ghost g': Tree)
    requires Sound(head, tail, root, |s|, s, all, g) && 0 <= k < |s| && s[k] == node
    modifies all
    ensures Sound(first, last, top, |s| - 1, Off(s, k), all - {node}, g')
  {
    SortedOff(s, k);
    first := if node.prev == null then node.next else head;
    last := if node.next == null then node.prev else tail;
    assert first == Ptr(s, if k == 0 then 1 else 0) && last == Ptr(s, if k == |s| - 1 then |s| - 2 else |s| - 1);
    top, g' := TakeOff(s, all, g, root.pos, k, node);
    Shrunk(first, last, top, s, all - {node}, k, g');
  }

  ghost function KeySet(s: seq<Node>): set<int> { set i | 0 <= i < |s| :: s[i].key }

  /** s[t] holds x, or is next to the gap where x belongs. */
  ghost predicate Nearest(s: seq<Node>, x: int, t: int) {
    && 0 <= t < |s|
    && (|| s[t].key == x
        || (x < s[t].key && (t == 0 || s[t - 1].key < x))
        || (s[t].key < x && (t == |s| - 1 || x < s[t + 1].key)))
  }

  lemma NearestHolds(s: seq<Node>, x: int, t: int)
    requires Sorted(Keys(s)) && Nearest(s, x, t)
    ensures x in KeySet(s) <==> s[t].key == x
    ensures forall i :: 0 <= i < t && s[t].key >= x ==> s[i].key < x
    ensures forall i :: t < i < |s| && s[t].key <= x ==> x < s[i].key
  {
    forall i | 0 <= i < |s| ensures s[i].key == Keys(s)[i] {}
    forall i | 0 <= i < t && s[t].key >= x ensures s[i].key < x {
      assert Keys(s)[i] <= Keys(s)[t - 1] < Keys(s)[t];
    }
    forall i | t < i < |s| && s[t].key <= x ensures x < s[i].key {
      assert Keys(s)[t] < Keys(s)[t + 1] <= Keys(s)[i];
    }
    if x in KeySet(s) {
      var i :| 0 <= i < |s| && s[i].key == x;
    }
  }

  /** Behind a nearest node with a smaller key comes the first greater one. */
  lemma NextOf(s: seq<Node>, all: set<Node>, g: Tree, root: Node, node: Node, x: int)
    requires InTree(s, all, g, root) && Threaded(s, all) && Sorted(Keys(s))
    requires Has(s, all, node) && Nearest(s, x, node.pos) && node.key < x
    ensures if node.next == null then forall i :: 0 <= i < |s| ==> s[i].key < x
            else Has(s, all, node.next) && x <= node.next.key && forall i :: 0 <= i < node.next.pos ==> s[i].key < x
  {
    NearestHolds(s, x, node.pos);
    assert node.next == Ptr(s, node.pos + 1);
    forall i | 0 <= i < node.pos ensures s[i].key < x { assert Keys(s)[i] < Keys(s)[node.pos]; }
  }

  lemma PrevOf(s: seq<Node>, all: set<Node>, g: Tree, root: Node, node: Node, x: int)
    requires InTree(s, all, g, root) && Threaded(s, all) && Sorted(Keys(s))
    requires Has(s, all, node) && Nearest(s, x, node.pos) && x < node.key
    ensures if node.prev == null then forall i :: 0 <= i < |s| ==> x < s[i].key
            else Has(s, all, node.prev) && node.prev.key <= x && forall i :: node.prev.pos < i < |s| ==> x < s[i].key
  {
    NearestHolds(s, x, node.pos);
    assert node.prev == Ptr(s, node.pos - 1);
    forall i | node.pos < i < |s| ensures x < s[i].key { assert Keys(s)[node.pos] < Keys(s)[i]; }
  }

  lemma GoalNearest(g: Tree, s: seq<Node>, root: int, x: int)
    requires TreeOk(g, |s|, Whole(root)) && Sorted(Keys(s))
    ensures Nearest(s, x, Goal(g, s, root, x))
  {
    assert Target(g, Keys(s), x, Goal(g, s, root, x));
  }

  /** The loop of the search without splaying. */
  method Walk(ghost s: seq<Node>, ghost all: set<Node>, ghost g: Tree, root: Node, x: int)
      returns (n: Node, result: int)
    requires InTree(s, all, g, root) && Sorted(Keys(s))
    ensures n == s[Goal(g, s, root.pos, x)] && result == Compare(x, n.key)
  {
    n := root;
    result := Compare(x, n.key);
    EntersRoot(g, Keys(s), root.pos, x);
    while (result < 0 && n.left != null) || (result > 0 && n.right != null)
      invariant Has(s, all, n) && result == Compare(x, n.key) && Enters(g, Keys(s), root.pos, x, n.pos)
      invariant Closest(g, Keys(s), root.pos, x, n.pos) == Goal(g, s, root.pos, x)
      decreases g.hi[n.pos] - g.lo[n.pos]
    {
      ghost var i := n.pos;
      if result < 0 {
        EntersLeft(g, Keys(s), root.pos, x, i);
        n := n.left;
        assert n == s[g.l[i]];
      } else {
        EntersRight(g, Keys(s), root.pos, x, i);
        n := n.right;
        assert n == s[g.r[i]];
      }
      result := Compare(x, n.key);
    }
  }

  class SplayTree {
    var head: Node?
    var tail: Node?
    var root: Node?
    var count: nat
    ghost var s: seq<Node>
    ghost var all: set<Node>
    ghost var g: Tree

    ghost predicate Valid()
      reads this, all`left, all`right, all`parent, all`prev, all`next, all`pos
    {
      Sound(head, tail, root, count, s, all, g)
    }

    constructor ()
      ensures Valid() && s == [] && all == {}
    {
      head, tail, root, count := null, null, null, 0;
      s, all := [], {};
      g := Tree([], [], [], [], []);
    }

    /** Store the outcome of an operation on the nodes. */
    method Install(first: Node?, last: Node?, top: Node?, n: nat, ghost s': seq<Node>, ghost all': set<Node>,
        ghost g': Tree)
      requires Sound(first, last, top, n, s', all', g')
      modifies this
      ensures Valid() && root == top && s == s' && all == all' && g == g'
    {
      head, tail, root, count := first, last, top, n;
      s, all, g := s', all', g';
    }

    /** Splaying search: the node where the search ends becomes the root. */
    method SearchClosest(x: int) returns (node: Node?, result: int)
      requires Valid()
      modifies this, all`left, all`right, all`parent
      ensures Valid() && root == node && s == old(s) && all == old(all)
      ensures if old(root) == null then node == null && result == 0
              else && node == s[Goal(old(g), s, old(root.pos), x)] && result == Compare(x, node.key)
                   && Has(s, all, node) && Nearest(s, x, node.pos)
    {
      if root == null { return null, 0; }
      GoalNearest(g, s, root.pos, x);
      ghost var g';
      node, result, g' := TopDown(s, all, g, root, x);
      Install(head, tail, node, count, s, all, g');
    }

    method InsertTop(node: Node)
      requires Valid() && root == null && node !in all
      modifies this, node
      ensures Valid() && root == node && s == [node] && node.pos == 0 && all == old(all) + {node}
    {
      node.prev, node.next, node.left, node.right, node.parent := null, null, null, null, null;
      node.pos := 0;
      Install(node, node, node, count + 1, [node], all + {node}, Tree([NIL], [NIL], [NIL], [0], [1]));
    }

    /** Next to a neighbour that is there. */
    method LinkBefore(before: Node, node: Node)
      requires Valid() && Has(s, all, before) && node !in all
      requires node.key < before.key && (before.pos == 0 || s[before.pos - 1].key < node.key)
      modifies this, all, node
      ensures Valid() && root == node && node.pos == old(before.pos) && s == Inserted(old(s), node.pos, node)
              && all == old(all) + {node}
    {
      ghost var k, g' := before.pos, g;
      assert count == |s| && 0 <= k < |s| && s[k] == before;
      var first;
      first, g' := AddBefore(head, tail, root, s, all, g, before.pos, before, node);
      Install(first, tail, node, count + 1, Inserted(s, k, node), all + {node}, g');
    }

    method LinkAfter(after: Node, node: Node)
      requires Valid() && Has(s, all, after) && node !in all
      requires after.key < node.key && (after.pos == |s| - 1 || node.key < s[after.pos + 1].key)
      modifies this, all, node
      ensures Valid() && root == node && node.pos == old(after.pos) + 1 && s == Inserted(old(s), node.pos, node)
              && all == old(all) + {node}
    {
      ghost var k, g' := after.pos + 1, g;
      assert count == |s| && 0 < k <= |s| && s[k - 1] == after;
      var last;
      last, g' := AddAfter(head, tail, root, s, all, g, after.pos, after, node);
      Install(head, last, node, count + 1, Inserted(s, k, node), all + {node}, g');
    }

    /** splay_insert_before: without a neighbour the node goes to the end of the list. */
    method InsertBefore(before: Node?, node: Node)
      requires Valid() && node !in all
      requires if before == null then s == [] || s[|s| - 1].key < node.key
               else && Has(s, all, before) && node.key < before.key
                    && (before.pos == 0 || s[before.pos - 1].key < node.key)
      modifies this, all, node
      ensures Valid() && root == node && all == old(all) + {node}
      ensures node.pos == (if before == null then |old(s)| else old(before.pos))
              && s == Inserted(old(s), node.pos, node)
    {
      if before != null {
        LinkBefore(before, node);
      } else if tail != null {
        LinkAfter(tail, node);
      } else {
        InsertTop(node);
      }
    }

    /** splay_insert_after: without a neighbour the node goes to the beginning of the list. */
    method InsertAfter(after: Node?, node: Node)
      requires Valid() && node !in all
      requires if after == null then s == [] || node.key < s[0].key
               else && Has(s, all, after) && after.key < node.key
                    && (after.pos == |s| - 1 || node.key < s[after.pos + 1].key)
      modifies this, all, node
      ensures Valid() && root == node && all == old(all) + {node}
      ensures node.pos == (if after == null then 0 else old(after.pos) + 1) && s == Inserted(old(s), node.pos, node)
    {
      if after != null {
        LinkAfter(after, node);
      } else if head != null {
        LinkBefore(head, node);
      } else {
        InsertTop(node);
      }
    }

    method UnlinkNode(node: Node)
      requires Valid() && Has(s, all, node)
      modifies this, all
      ensures Valid() && s == Off(old(s), old(node.pos)) && all == old(all) - {node}
    {
      ghost var k, g' := node.pos, g;
      var first, last, top;
      first, last, top, g' := Drop(head, tail, root, s, all, g, k, node);
      Install(first, last, top, count - 1, Off(s, k), all - {node}, g');
    }

    /** The search without splaying: the tree stays as it is. */
    method SearchClosestNoSplay(x: int) returns (node: Node?, result: int)
      requires Valid()
      ensures if root == null then node == null && result == 0
              else node == s[Goal(g, s, root.pos, x)] && result == Compare(x, node.key)
    {
      if root == null { return null, 0; }
      node, result := Walk(s, all, g, root, x);
    }

    method SearchNode(x: int) returns (node: Node?)
      requires Valid()
      modifies this, all`left, all`right, all`parent
      ensures Valid() && s == old(s) && all == old(all)
      ensures if x in KeySet(s) then node != null && Has(s, all, node) && node.key == x else node == null
    {
      var result;
      node, result := SearchClosest(x);
      if node != null { NearestHolds(s, x, node.pos); }
      if result != 0 { node := null; }
    }

    /** The last node whose key is at most x. */
    method SearchClosestSmaller(x: int) returns (node: Node?)
      requires Valid()
      modifies this, all`left, all`right, all`parent
      ensures Valid() && s == old(s) && all == old(all)
      ensures if node == null then forall i :: 0 <= i < |s| ==> x < s[i].key
              else Has(s, all, node) && node.key <= x && forall i :: node.pos < i < |s| ==> x < s[i].key
    {
      var result;
      node, result := SearchClosest(x);
      if node != null { NearestHolds(s, x, node.pos); }
      if result < 0 {
        PrevOf(s, all, g, root, node, x);
        node := node.prev;
      }
    }

    /** The first node whose key is at least x. */
    method SearchClosestGreater(x: int) returns (node: Node?)
      requires Valid()
      modifies this, all`left, all`right, all`parent
      ensures Valid() && s == old(s) && all == old(all)
      ensures if node == null then forall i :: 0 <= i < |s| ==> s[i].key < x
              else Has(s, all, node) && x <= node.key && forall i :: 0 <= i < node.pos ==> s[i].key < x
    {
      var result;
      node, result := SearchClosest(x);
      if node != null { NearestHolds(s, x, node.pos); }
      if result > 0 {
        NextOf(s, all, g, root, node, x);
        node := node.next;
      }
    }

    /** A new node next to the closest one, if its key is not there yet. */
    method Place(closest: Node, result: int, node: Node)
      requires Valid() && Has(s, all, closest) && node !in all && result == Compare(node.key, closest.key)
               && result != 0
      requires Nearest(s, node.key, closest.pos)
      modifies this, all, node
      ensures Valid() && root == node && all == old(all) + {node}
      ensures 0 <= node.pos <= |old(s)| && s == Inserted(old(s), node.pos, node)
    {
      if result < 0 {
        InsertBefore(closest, node);
      } else {
        InsertAfter(closest, node);
      }
    }

    /** The splaying search before an insertion. */
    method Locate(x: int) returns (closest: Node, result: int)
      requires Valid() && root != null
      modifies this, all`left, all`right, all`parent
      ensures Valid() && s == old(s) && all == old(all)
      ensures Has(s, all, closest) && Nearest(s, x, closest.pos) && result == Compare(x, closest.key)
      ensures result == 0 <==> x in KeySet(s)
    {
      closest, result := SearchClosest(x);
      NearestHolds(s, x, closest.pos);
    }

    method Insert(x: int) returns (node: Node?)
      requires Valid()
      modifies this, all
      ensures Valid()
      ensures if x in KeySet(old(s)) then node == null && s == old(s) && all == old(all)
              else && node != null && fresh(node) && node.key == x && all == old(all) + {node}
                   && 0 <= node.pos <= |old(s)| && s == Inserted(old(s), node.pos, node)
    {
      if root == null {
        var n := new Node(x);
        InsertTop(n);
        return n;
      }
      var closest, result := Locate(x);
      if result == 0 { return null; }
      var n := new Node(x);
      Place(closest, result, n);
      return n;
    }

    method InsertNode(node: Node) returns (placed: Node?)
      requires Valid() && node !in all
      modifies this, all, node
      ensures Valid()
      ensures if node.key in KeySet(old(s)) then placed == null && s == old(s) && all == old(all)
              else && placed == node && all == old(all) + {node}
                   && 0 <= node.pos <= |old(s)| && s == Inserted(old(s), node.pos, node)
    {
      node.left, node.right, node.parent, node.next, node.prev := null, null, null, null, null;
      if root == null {
        InsertTop(node);
        return node;
      }
      var closest, result := Locate(node.key);
      if result == 0 { return null; }
      Place(closest, result, node);
      return node;
    }

    method Unlink(x: int) returns (node: Node?, ghost k: int)
      requires Valid()
      modifies this, all
      ensures Valid()
      ensures all <= old(all)
      ensures if x in KeySet(old(s)) then 0 <= k < |old(s)| && node == old(s)[k] && node.key == x && s == Off(old(s), k)
              else node == null && s == old(s)
    {
      k := -1;
      node := SearchNode(x);
      if node != null {
        k := node.pos;
        UnlinkNode(node);
      }
    }
  }

  // ----- whole runs: the tree is a set

  datatype Op = Insert(x: int) | Unlink(x: int) | Search(x: int)

  /** The set after an operation; the operation succeeds when the set changes, a search when it hits. */
  function After(m: set<int>, op: Op): set<int> {
    match op
    case Insert(x) => m + {x}
    case Unlink(x) => m - {x}
    case Search(_) => m
  }

  function Answer(m: set<int>, op: Op): bool {
    match op
    case Insert(x) => x !in m
    case Unlink(x) => x in m
    case Search(x) => x in m
  }

  function AfterAll(m: set<int>, ops: seq<Op>): set<int>
    decreases |ops|
  {
    if ops == [] then m else AfterAll(After(m, ops[0]), ops[1..])
  }

  lemma InsertedKeys(s: seq<Node>, k: int, node: Node)
    requires 0 <= k <= |s|
    ensures KeySet(Inserted(s, k, node)) == KeySet(s) + {node.key}
  {
    var s' := Inserted(s, k, node);
    assert s'[k] == node;
    forall i | 0 <= i < |s| ensures s[i].key in KeySet(s') { InsertedAt(s, k, node, i); }
    assert KeySet(s) + {node.key} <= KeySet(s');
  }

  lemma OffKeys(s: seq<Node>, k: int)
    requires 0 <= k < |s| && Sorted(Keys(s))
    ensures KeySet(Off(s, k)) == KeySet(s) - {s[k].key}
  {
    var s' := Off(s, k);
    forall i | 0 <= i < |s| && i != k ensures s[i].key in KeySet(s') && s[i].key != s[k].key {
      OffAt(s, k, i);
      assert Keys(s)[i] != Keys(s)[k];
    }
    forall i | 0 <= i < |s'| ensures s'[i].key in KeySet(s) - {s[k].key} {
      assert s'[i] == s[if i < k then i else i + 1];
    }
  }

  method ApplyInsert(t: SplayTree, x: int) returns (answer: bool)
    requires t.Valid()
    modifies t, t.all
    ensures t.Valid() && fresh(t.all - old(t.all))
    ensures KeySet(t.s) == old(KeySet(t.s)) + {x} && answer == (x !in old(KeySet(t.s)))
  {
    ghost var s := t.s;
    var node := t.Insert(x);
    if node != null { InsertedKeys(s, node.pos, node); }
    answer := node != null;
  }

  method ApplyUnlink(t: SplayTree, x: int) returns (answer: bool)
    requires t.Valid()
    modifies t, t.all
    ensures t.Valid() && fresh(t.all - old(t.all))
    ensures KeySet(t.s) == old(KeySet(t.s)) - {x} && answer == (x in old(KeySet(t.s)))
  {
    ghost var s, k := t.s, 0;
    var node;
    node, k := t.Unlink(x);
    if node != null { OffKeys(s, k); }
    answer := node != null;
  }

  method Apply(t: SplayTree, op: Op) returns (answer: bool)
    requires t.Valid()
    modifies t, t.all
    ensures t.Valid() && fresh(t.all - old(t.all))
    ensures KeySet(t.s) == After(old(KeySet(t.s)), op) && answer == Answer(old(KeySet(t.s)), op)
  {
    match op
    case Insert(x) => answer := ApplyInsert(t, x);
    case Unlink(x) => answer := ApplyUnlink(t, x);
    case Search(x) =>
      var node := t.SearchNode(x);
      answer := node != null;
  }

  /** The answers of a set to a run of operations. */
  function Answers(m: set<int>, ops: seq<Op>): seq<bool>
    decreases |ops|
  {
    if ops == [] then [] else [Answer(m, ops[0])] + Answers(After(m, ops[0]), ops[1..])
  }

  /** Any run of operations answers as a set does. */
  method Run(t: SplayTree, ops: seq<Op>) returns (answers: seq<bool>)
    requires t.Valid()
    modifies t, t.all
    ensures t.Valid() && fresh(t.all - old(t.all))
    ensures KeySet(t.s) == AfterAll(old(KeySet(t.s)), ops) && answers == Answers(old(KeySet(t.s)), ops)
    decreases |ops|
  {
    if ops == [] { return []; }
    var first := Apply(t, ops[0]);
    var rest := Run(t, ops[1..]);
    answers := [first] + rest;
  }
}
