/** A list of nodes with one more or one less: the positions move, and the pointers agree with the edited shape. */
module SplayRelink {
  import opened SplayShape
  import opened SplayEdit
  import opened SplayNodes

  ghost function Inserted(s: seq<Node>, k: int, node: Node): seq<Node>
    requires 0 <= k <= |s|
  {
    s[..k] + [node] + s[k..]
  }

  ghost function Off(s: seq<Node>, k: int): seq<Node>
    requires 0 <= k < |s|
  {
    s[..k] + s[k + 1..]
  }

  lemma PtrInserted(s: seq<Node>, k: int, node: Node, x: int)
    requires 0 <= k <= |s| && NIL <= x < |s|
    ensures Ptr(Inserted(s, k, node), Up(k, x)) == Ptr(s, x)
  {
  }

  lemma InsertedAt(s: seq<Node>, k: int, node: Node, j: int)
    requires 0 <= k <= |s| && 0 <= j < |s|
    ensures Inserted(s, k, node)[k] == node && Inserted(s, k, node)[Up(k, j)] == s[j]
  {
  }

  ghost predicate Numbered(s: seq<Node>)
    reads s`pos
  {
    forall i :: 0 <= i < |s| ==> s[i].pos == i
  }

  /** Give the nodes of a list their positions. */
  ghost method Number(s: seq<Node>)
    requires forall i, j :: 0 <= i < j < |s| ==> s[i] != s[j]
    modifies s`pos
    ensures Numbered(s)
  {
    var k := 0;
    while k < |s|
      invariant 0 <= k <= |s|
      invariant forall i :: 0 <= i < k ==> s[i].pos == i
    {
      s[k].pos := k;
      k := k + 1;
    }
  }

  /** The pointers right after `node` was put above the root s[k], as its predecessor. */
  ghost predicate GraftedBefore(s: seq<Node>, all: set<Node>, g: Tree, k: int, node: Node)
    requires Sized(g, |s|) && 0 <= k < |s|
    reads all`left, all`right, all`parent, node`left, node`right, node`parent
  {
    && node !in all
    && (forall i :: 0 <= i < |s| ==> s[i] in all)
    && (forall i {:trigger s[i].left} :: 0 <= i < |s| ==> s[i].left == if i == k then null else Ptr(s, g.l[i]))
    && (forall i {:trigger s[i].right} :: 0 <= i < |s| ==> s[i].right == Ptr(s, g.r[i]))
    && (forall i {:trigger s[i].parent} :: 0 <= i < |s| ==>
          s[i].parent == if i == k || i == g.l[k] then node else Ptr(s, g.p[i]))
    && node.left == Ptr(s, g.l[k]) && node.right == s[k] && node.parent == null
  }

  ghost predicate Ranged(g: Tree, n: nat)
    requires Sized(g, n)
  {
    forall i :: 0 <= i < n ==> NIL <= g.l[i] < n && NIL <= g.r[i] < n && NIL <= g.p[i] < n
  }

  lemma InRange(g: Tree, n: nat, k: int)
    requires TreeOk(g, n, Whole(k))
    ensures Ranged(g, n)
  {
    forall i | 0 <= i < n ensures NIL <= g.l[i] < n && NIL <= g.r[i] < n && NIL <= g.p[i] < n {
      assert NodeOk(g, n, Spot(i), Whole(k));
    }
  }

  lemma BeforeNew(s: seq<Node>, all: set<Node>, g: Tree, k: int, node: Node)
    requires TreeOk(g, |s|, Whole(k)) && GraftedBefore(s, all, g, k, node)
    ensures var s' := Inserted(s, k, node); var g' := InsBefore(g, |s|, k);
            && s'[k] == node && NIL <= g'.l[k] < |s'| && node.left == Ptr(s', g'.l[k])
            && NIL <= g'.r[k] < |s'| && node.right == Ptr(s', g'.r[k]) && g'.p[k] == NIL
  {
    var g' := InsBefore(g, |s|, k);
    assert NodeOk(g, |s|, Spot(k), Whole(k));
    assert g'.l[k] == g.l[k] && g'.r[k] == k + 1 && g'.p[k] == NIL;
  }

  lemma BeforeOld(s: seq<Node>, all: set<Node>, g: Tree, k: int, node: Node, j: int)
    requires TreeOk(g, |s|, Whole(k)) && Sided(g, |s|, k) && Ranged(g, |s|) && GraftedBefore(s, all, g, k, node)
             && 0 <= j < |s|
    ensures var s' := Inserted(s, k, node); var g' := InsBefore(g, |s|, k); var i := Up(k, j);
            && NIL <= g'.l[i] < |s'| && s[j].left == Ptr(s', g'.l[i])
            && NIL <= g'.r[i] < |s'| && s[j].right == Ptr(s', g'.r[i])
  {
    assert Spot(j) == j && Spot(k) == k;
    InsBeforeOld(g, |s|, k, j);
    PtrInserted(s, k, node, g.l[j]);
    PtrInserted(s, k, node, g.r[j]);
  }

  lemma BeforeOldUp(s: seq<Node>, all: set<Node>, g: Tree, k: int, node: Node, j: int)
    requires TreeOk(g, |s|, Whole(k)) && Sided(g, |s|, k) && Ranged(g, |s|) && GraftedBefore(s, all, g, k, node)
             && 0 <= j < |s|
    ensures var s' := Inserted(s, k, node); var g' := InsBefore(g, |s|, k); var i := Up(k, j);
            NIL <= g'.p[i] < |s'| && s[j].parent == Ptr(s', g'.p[i])
  {
    assert Spot(j) == j && Spot(k) == k;
    InsBeforeOld(g, |s|, k, j);
    PtrInserted(s, k, node, g.p[j]);
  }

  ghost predicate WiredAt(s: seq<Node>, all: set<Node>, g: Tree, i: int, n: Node)
    requires Sized(g, |s|) && 0 <= i < |s|
    reads n`left, n`right, n`parent
  {
    && n in all
    && NIL <= g.l[i] < |s| && n.left == Ptr(s, g.l[i])
    && NIL <= g.r[i] < |s| && n.right == Ptr(s, g.r[i])
    && NIL <= g.p[i] < |s| && n.parent == Ptr(s, g.p[i])
  }

  lemma WiredAll(s: seq<Node>, all: set<Node>, g: Tree)
    requires Sized(g, |s|) && forall i {:trigger Spot(i)} :: 0 <= i < |s| ==>
               s[Spot(i)].pos == i && WiredAt(s, all, g, i, s[i])
    ensures Wired(s, all, g)
  {
    forall i | 0 <= i < |s|
      ensures s[i] in all && s[i].pos == i
      ensures NIL <= g.l[i] < |s| && s[i].left == Ptr(s, g.l[i])
      ensures NIL <= g.r[i] < |s| && s[i].right == Ptr(s, g.r[i])
      ensures NIL <= g.p[i] < |s| && s[i].parent == Ptr(s, g.p[i])
    {
      assert Spot(i) == i;
    }
  }

  lemma WiredBeforeOld(s: seq<Node>, all: set<Node>, g: Tree, k: int, node: Node, j: int)
    requires TreeOk(g, |s|, Whole(k)) && GraftedBefore(s, all, g, k, node) && 0 <= j < |s|
    ensures WiredAt(Inserted(s, k, node), all + {node}, InsBefore(g, |s|, k), Up(k, j), s[j])
  {
    Sides(g, |s|, k);
    InRange(g, |s|, k);
    BeforeOld(s, all, g, k, node, j);
    BeforeOldUp(s, all, g, k, node, j);
  }

  lemma WiredBefore(s: seq<Node>, all: set<Node>, g: Tree, k: int, node: Node)
    requires TreeOk(g, |s|, Whole(k)) && GraftedBefore(s, all, g, k, node)
    requires Numbered(Inserted(s, k, node))
    ensures Wired(Inserted(s, k, node), all + {node}, InsBefore(g, |s|, k))
  {
    var s' := Inserted(s, k, node);
    forall i | 0 <= i < |s'| ensures s'[Spot(i)].pos == i && WiredAt(s', all + {node}, InsBefore(g, |s|, k), i, s'[i]) {
      if i == k {
        BeforeNew(s, all, g, k, node);
      } else {
        var j := if i < k then i else i - 1;
        WiredBeforeOld(s, all, g, k, node, j);
        InsertedAt(s, k, node, j);
      }
    }
    WiredAll(s', all + {node}, InsBefore(g, |s|, k));
  }

  /** The pointers right after `node` was put above the root s[k], as its successor. */
  ghost predicate GraftedAfter(s: seq<Node>, all: set<Node>, g: Tree, k: int, node: Node)
    requires Sized(g, |s|) && 0 <= k < |s|
    reads all`left, all`right, all`parent, node`left, node`right, node`parent
  {
    && node !in all
    && (forall i :: 0 <= i < |s| ==> s[i] in all)
    && (forall i {:trigger s[i].left} :: 0 <= i < |s| ==> s[i].left == Ptr(s, g.l[i]))
    && (forall i {:trigger s[i].right} :: 0 <= i < |s| ==> s[i].right == if i == k then null else Ptr(s, g.r[i]))
    && (forall i {:trigger s[i].parent} :: 0 <= i < |s| ==>
          s[i].parent == if i == k || i == g.r[k] then node else Ptr(s, g.p[i]))
    && node.left == s[k] && node.right == Ptr(s, g.r[k]) && node.parent == null
  }

  lemma AfterNew(s: seq<Node>, all: set<Node>, g: Tree, k: int, node: Node)
    requires TreeOk(g, |s|, Whole(k)) && GraftedAfter(s, all, g, k, node)
    ensures var s' := Inserted(s, k + 1, node); var g' := InsAfter(g, |s|, k);
            && s'[k + 1] == node && NIL <= g'.l[k + 1] < |s'| && node.left == Ptr(s', g'.l[k + 1])
            && NIL <= g'.r[k + 1] < |s'| && node.right == Ptr(s', g'.r[k + 1]) && g'.p[k + 1] == NIL
  {
    var g' := InsAfter(g, |s|, k);
    assert NodeOk(g, |s|, Spot(k), Whole(k));
    assert g'.l[k + 1] == k && g'.r[k + 1] == Up(k + 1, g.r[k]) && g'.p[k + 1] == NIL;
    PtrInserted(s, k + 1, node, g.r[k]);
    PtrInserted(s, k + 1, node, k);
  }

  lemma AfterOld(s: seq<Node>, all: set<Node>, g: Tree, k: int, node: Node, j: int)
    requires TreeOk(g, |s|, Whole(k)) && Sided(g, |s|, k) && Ranged(g, |s|) && GraftedAfter(s, all, g, k, node)
             && 0 <= j < |s|
    ensures var s' := Inserted(s, k + 1, node); var g' := InsAfter(g, |s|, k); var i := Up(k + 1, j);
            && NIL <= g'.l[i] < |s'| && s[j].left == Ptr(s', g'.l[i])
            && NIL <= g'.r[i] < |s'| && s[j].right == Ptr(s', g'.r[i])
  {
    assert Spot(j) == j && Spot(k) == k;
    InsAfterOld(g, |s|, k, j);
    PtrInserted(s, k + 1, node, g.l[j]);
    PtrInserted(s, k + 1, node, g.r[j]);
  }

  lemma AfterOldUp(s: seq<Node>, all: set<Node>, g: Tree, k: int, node: Node, j: int)
    requires TreeOk(g, |s|, Whole(k)) && Sided(g, |s|, k) && Ranged(g, |s|) && GraftedAfter(s, all, g, k, node)
             && 0 <= j < |s|
    ensures var s' := Inserted(s, k + 1, node); var g' := InsAfter(g, |s|, k); var i := Up(k + 1, j);
            NIL <= g'.p[i] < |s'| && s[j].parent == Ptr(s', g'.p[i])
  {
    assert Spot(j) == j && Spot(k) == k;
    InsAfterOld(g, |s|, k, j);
    PtrInserted(s, k + 1, node, g.p[j]);
  }

  lemma WiredAfterOld(s: seq<Node>, all: set<Node>, g: Tree, k: int, node: Node, j: int)
    requires TreeOk(g, |s|, Whole(k)) && GraftedAfter(s, all, g, k, node) && 0 <= j < |s|
    ensures WiredAt(Inserted(s, k + 1, node), all + {node}, InsAfter(g, |s|, k), Up(k + 1, j), s[j])
  {
    Sides(g, |s|, k);
    InRange(g, |s|, k);
    AfterOld(s, all, g, k, node, j);
    AfterOldUp(s, all, g, k, node, j);
  }

  lemma WiredAfter(s: seq<Node>, all: set<Node>, g: Tree, k: int, node: Node)
    requires TreeOk(g, |s|, Whole(k)) && GraftedAfter(s, all, g, k, node)
    requires Numbered(Inserted(s, k + 1, node))
    ensures Wired(Inserted(s, k + 1, node), all + {node}, InsAfter(g, |s|, k))
  {
    var s' := Inserted(s, k + 1, node);
    forall i | 0 <= i < |s'| ensures s'[Spot(i)].pos == i && WiredAt(s', all + {node}, InsAfter(g, |s|, k), i, s'[i]) {
      if i == k + 1 {
        AfterNew(s, all, g, k, node);
      } else {
        var j := if i <= k then i else i - 1;
        WiredAfterOld(s, all, g, k, node, j);
        InsertedAt(s, k + 1, node, j);
      }
    }
    WiredAll(s', all + {node}, InsAfter(g, |s|, k));
  }

  /** The pointers right after the root s[k] was cut out of the tree. */
  ghost predicate Severed(s: seq<Node>, all: set<Node>, g: Tree, k: int)
    requires Sized(g, |s|) && 0 <= k < |s|
    reads all`left, all`right, all`parent
  {
    && (forall i :: 0 <= i < |s| ==> s[i] in all)
    && (forall i {:trigger s[i].left} :: 0 <= i < |s| && i != k ==> s[i].left == Ptr(s, g.l[i]))
    && (forall i {:trigger s[i].right} :: 0 <= i < |s| && i != k ==>
          s[i].right == Ptr(s, if i == k - 1 then g.r[k] else g.r[i]))
    && (forall i {:trigger s[i].parent} :: 0 <= i < |s| && i != k ==>
          s[i].parent == Ptr(s, if i == g.l[k] then NIL else if i == g.r[k] then k - 1 else g.p[i]))
  }

  lemma OffAt(s: seq<Node>, k: int, j: int)
    requires 0 <= k < |s| && 0 <= j < |s| && j != k
    ensures Off(s, k)[Down(k, j)] == s[j]
  {
  }

  lemma PtrOff(s: seq<Node>, k: int, x: int)
    requires 0 <= k < |s| && NIL <= x < |s| && x != k
    ensures Ptr(Off(s, k), Down(k, x)) == Ptr(s, x)
  {
  }

  lemma OffOld(s: seq<Node>, all: set<Node>, g: Tree, k: int, j: int)
    requires TreeOk(g, |s|, Whole(k)) && Sided(g, |s|, k) && Ranged(g, |s|) && Severed(s, all, g, k) && 0 <= j < |s|
             && j != k
    ensures var s' := Off(s, k); var g' := Removed(g, |s|, k); var i := Down(k, j);
            && NIL <= g'.l[i] < |s'| && s[j].left == Ptr(s', g'.l[i])
            && NIL <= g'.r[i] < |s'| && s[j].right == Ptr(s', g'.r[i])
  {
    assert Spot(j) == j && Spot(k) == k;
    RemovedOld(g, |s|, k, j);
    PtrOff(s, k, g.l[j]);
    PtrOff(s, k, if j == k - 1 then g.r[k] else g.r[j]);
  }

  lemma OffOldUp(s: seq<Node>, all: set<Node>, g: Tree, k: int, j: int)
    requires TreeOk(g, |s|, Whole(k)) && Sided(g, |s|, k) && Ranged(g, |s|) && Severed(s, all, g, k) && 0 <= j < |s|
             && j != k
    ensures var s' := Off(s, k); var g' := Removed(g, |s|, k); var i := Down(k, j);
            NIL <= g'.p[i] < |s'| && s[j].parent == Ptr(s', g'.p[i])
  {
    assert Spot(j) == j && Spot(k) == k;
    RemovedOld(g, |s|, k, j);
    if g.p[j] != k { PtrOff(s, k, g.p[j]); }
    if k > 0 { PtrOff(s, k, k - 1); }
  }

  lemma WiredOffOld(s: seq<Node>, all: set<Node>, g: Tree, k: int, j: int)
    requires TreeOk(g, |s|, Whole(k)) && Severed(s, all, g, k) && 0 <= j < |s| && j != k && s[j] != s[k]
    ensures WiredAt(Off(s, k), all - {s[k]}, Removed(g, |s|, k), Down(k, j), s[j])
  {
    Sides(g, |s|, k);
    InRange(g, |s|, k);
    OffOld(s, all, g, k, j);
    OffOldUp(s, all, g, k, j);
  }

  lemma WiredOff(s: seq<Node>, all: set<Node>, g: Tree, k: int)
    requires TreeOk(g, |s|, Whole(k)) && Severed(s, all, g, k)
    requires forall i, j :: 0 <= i < j < |s| ==> s[i] != s[j]
    requires Numbered(Off(s, k))
    ensures Wired(Off(s, k), all - {s[k]}, Removed(g, |s|, k))
  {
    var s' := Off(s, k);
    forall i | 0 <= i < |s'| ensures s'[Spot(i)].pos == i && WiredAt(s', all - {s[k]}, Removed(g, |s|, k), i, s'[i]) {
      var j := if i < k then i else i + 1;
      WiredOffOld(s, all, g, k, j);
      OffAt(s, k, j);
    }
    WiredAll(s', all - {s[k]}, Removed(g, |s|, k));
  }
}
