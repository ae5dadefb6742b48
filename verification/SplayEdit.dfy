/** The shape of a splay tree with a node put above its root, or with its root removed. */
module SplayEdit {
  import opened SplayShape

  /** Every other node lies entirely on one side of the root. */
  lemma {:induction false} Side(g: Tree, n: nat, root: int, i: int)
    requires TreeOk(g, n, Whole(root)) && 0 <= i < n && i != root
    ensures g.hi[i] <= root || g.lo[i] > root
    decreases n - (g.hi[i] - g.lo[i])
  {
    assert Spot(i) == i && Spot(root) == root;
    var q := g.p[i];
    assert Spot(q) == q;
    if q != root { Side(g, n, root, q); }
  }

  lemma Sides(g: Tree, n: nat, root: int)
    requires TreeOk(g, n, Whole(root))
    ensures Sided(g, n, root)
  {
    forall i | 0 <= i < n && i != root ensures if Spot(i) < root then g.hi[i] <= root else g.lo[i] > root {
      Side(g, n, root, i);
    }
  }

  function Up(k: int, x: int): int { if x >= k then x + 1 else x }

  /** The root k gets a new node above it that precedes it: the new node is at k, the old root at k+1. */
  ghost function InsBefore(g: Tree, n: nat, k: int): Tree
    requires Sized(g, n) && 0 <= k < n
  {
    Tree(seq(n + 1, i requires 0 <= i <= n => if i <= k then g.l[i] else if i == k + 1 then NIL else Up(k, g.l[i - 1])),
         seq(n + 1, i requires 0 <= i <= n => if i < k then g.r[i] else if i == k then k + 1 else Up(k, g.r[i - 1])),
         seq(n + 1, i requires 0 <= i <= n => if i < k then g.p[i]
                                              else if i == k then NIL else if i == k + 1 then k else Up(k, g.p[i - 1])),
         seq(n + 1, i requires 0 <= i <= n => if i < k then g.lo[i]
                                              else if i == k then 0 else if i == k + 1 then k + 1 else g.lo[i - 1] + 1),
         seq(n + 1, i requires 0 <= i <= n => if i < k then g.hi[i] else if i <= k + 1 then n + 1 else g.hi[i - 1] + 1))
  }

  ghost predicate Sided(g: Tree, n: nat, root: int)
    requires Sized(g, n)
  {
    forall i {:trigger Spot(i)} :: 0 <= i < n && i != root ==>
          if Spot(i) < root then g.hi[i] <= root else g.lo[i] > root
  }

  /** Old node j is at Up(k, j) now. */
  lemma InsBeforeOld(g: Tree, n: nat, k: int, j: int)
    requires TreeOk(g, n, Whole(k)) && Sided(g, n, k) && 0 <= j < n
    ensures var g' := InsBefore(g, n, k); var i := Up(k, j);
            && g'.l[i] == (if j == k then NIL else Up(k, g.l[j]))
            && g'.r[i] == Up(k, g.r[j])
            && g'.p[i] == (if j == k then k else if j < k then g.p[j] else Up(k, g.p[j]))
            && g'.lo[i] == (if j < k then g.lo[j] else if j == k then k + 1 else g.lo[j] + 1)
            && g'.hi[i] == (if j < k then g.hi[j] else g.hi[j] + 1)
    ensures j < k ==> g.hi[j] <= k && g.r[j] < k && g.l[j] < k && g.p[j] <= k
    ensures j > k ==> g.lo[j] > k && (g.l[j] == NIL || g.l[j] > k) && (g.p[j] >= k)
  {
    assert Spot(j) == j && Spot(k) == k;
    if g.l[j] >= 0 { assert Spot(g.l[j]) == g.l[j]; }
    if g.r[j] >= 0 { assert Spot(g.r[j]) == g.r[j]; }
    if g.p[j] >= 0 { assert Spot(g.p[j]) == g.p[j]; }
    var i := Up(k, j);
    assert i > k ==> i - 1 == j;
  }

  lemma InsBeforeAt(g: Tree, n: nat, k: int, j: int)
    requires TreeOk(g, n, Whole(k)) && Sided(g, n, k) && 0 <= j < n
    ensures var g' := InsBefore(g, n, k); LeftOk(g', n + 1, Up(k, j), n + 1, k) && RightOk(g', n + 1, Up(k, j), -1, k)
  {
    assert Spot(j) == j;
    InsBeforeOld(g, n, k, j);
    if g.l[j] != NIL { InsBeforeOld(g, n, k, g.l[j]); }
    if g.r[j] != NIL { InsBeforeOld(g, n, k, g.r[j]); }
  }

  lemma InsBeforeUp(g: Tree, n: nat, k: int, j: int)
    requires TreeOk(g, n, Whole(k)) && Sided(g, n, k) && 0 <= j < n
    ensures UpOk(InsBefore(g, n, k), n + 1, Up(k, j), Whole(k))
  {
    assert Spot(j) == j && Spot(k) == k;
    InsBeforeOld(g, n, k, j);
    var q := g.p[j];
    if q != NIL { assert Spot(q) == q; InsBeforeOld(g, n, k, q); }
    var g' := InsBefore(g, n, k);
    assert g'.l[k] == g.l[k] && g'.r[k] == k + 1;
  }

  ghost predicate NodeOk'(g: Tree, n: nat, i: int, root: int)
    requires Sized(g, n) && 0 <= i < n
  {
    LeftOk(g, n, i, n, root) && RightOk(g, n, i, -1, root) && UpOk(g, n, i, Whole(root))
  }

  /** The new node itself. */
  lemma InsBeforeNew(g: Tree, n: nat, k: int)
    requires TreeOk(g, n, Whole(k)) && Sided(g, n, k)
    ensures var g' := InsBefore(g, n, k); TopsOk(g', n + 1, Whole(k)) && NodeOk'(g', n + 1, k, k)
  {
    assert Spot(k) == k;
    InsBeforeOld(g, n, k, k);
    if g.l[k] != NIL { InsBeforeOld(g, n, k, g.l[k]); }
    var g' := InsBefore(g, n, k);
    assert g'.l[k] == g.l[k] && g'.r[k] == k + 1 && g'.p[k] == NIL && g'.lo[k] == 0 && g'.hi[k] == n + 1;
  }

  lemma InsBeforeOk(g: Tree, n: nat, k: int)
    requires TreeOk(g, n, Whole(k))
    ensures TreeOk(InsBefore(g, n, k), n + 1, Whole(k))
  {
    Sides(g, n, k);
    InsBeforeNew(g, n, k);
    forall i | 0 <= i < n + 1 ensures NodeOk(InsBefore(g, n, k), n + 1, Spot(i), Whole(k)) {
      if i != k {
        var j := if i < k then i else i - 1;
        InsBeforeAt(g, n, k, j);
        InsBeforeUp(g, n, k, j);
      }
    }
  }

  /** The root k gets a new node above it that follows it: the new node is at k+1. */
  ghost function InsAfter(g: Tree, n: nat, k: int): Tree
    requires Sized(g, n) && 0 <= k < n
  {
    Tree(seq(n + 1, i requires 0 <= i <= n => if i <= k then g.l[i]
                                              else if i == k + 1 then k else Up(k + 1, g.l[i - 1])),
         seq(n + 1, i requires 0 <= i <= n => if i < k then g.r[i] else if i == k then NIL else Up(k + 1, g.r[i - 1])),
         seq(n + 1, i requires 0 <= i <= n => if i < k then g.p[i] else if i == k then k + 1
                                              else if i == k + 1 then NIL else g.p[i - 1] + 1),
         seq(n + 1, i requires 0 <= i <= n => if i <= k then g.lo[i] else if i == k + 1 then 0 else g.lo[i - 1] + 1),
         seq(n + 1, i requires 0 <= i <= n => if i < k then g.hi[i] else if i == k then k + 1
                                              else if i == k + 1 then n + 1 else g.hi[i - 1] + 1))
  }

  lemma InsAfterOld(g: Tree, n: nat, k: int, j: int)
    requires TreeOk(g, n, Whole(k)) && Sided(g, n, k) && 0 <= j < n
    ensures var g' := InsAfter(g, n, k); var i := Up(k + 1, j);
            && g'.l[i] == Up(k + 1, g.l[j])
            && g'.r[i] == (if j == k then NIL else Up(k + 1, g.r[j]))
            && g'.p[i] == (if j == k then k + 1 else if j < k then g.p[j] else g.p[j] + 1)
            && g'.lo[i] == (if j <= k then g.lo[j] else g.lo[j] + 1)
            && g'.hi[i] == (if j < k then g.hi[j] else if j == k then k + 1 else g.hi[j] + 1)
    ensures j < k ==> g.hi[j] <= k && g.r[j] < k && g.l[j] < k && g.p[j] <= k
    ensures j > k ==> g.lo[j] > k && (g.l[j] == NIL || g.l[j] > k) && (g.p[j] >= k)
  {
    assert Spot(j) == j && Spot(k) == k;
    if g.l[j] >= 0 { assert Spot(g.l[j]) == g.l[j]; }
    if g.r[j] >= 0 { assert Spot(g.r[j]) == g.r[j]; }
    if g.p[j] >= 0 { assert Spot(g.p[j]) == g.p[j]; }
    var i := Up(k + 1, j);
    assert i > k ==> i - 1 == j;
  }

  lemma InsAfterAt(g: Tree, n: nat, k: int, j: int)
    requires TreeOk(g, n, Whole(k)) && Sided(g, n, k) && 0 <= j < n
    ensures var g' := InsAfter(g, n, k);
            LeftOk(g', n + 1, Up(k + 1, j), n + 1, k + 1) && RightOk(g', n + 1, Up(k + 1, j), -1, k + 1)
  {
    assert Spot(j) == j;
    InsAfterOld(g, n, k, j);
    if g.l[j] != NIL { InsAfterOld(g, n, k, g.l[j]); }
    if g.r[j] != NIL { InsAfterOld(g, n, k, g.r[j]); }
  }

  lemma InsAfterUp(g: Tree, n: nat, k: int, j: int)
    requires TreeOk(g, n, Whole(k)) && Sided(g, n, k) && 0 <= j < n
    ensures UpOk(InsAfter(g, n, k), n + 1, Up(k + 1, j), Whole(k + 1))
  {
    assert Spot(j) == j && Spot(k) == k;
    InsAfterOld(g, n, k, j);
    var q := g.p[j];
    if q != NIL { assert Spot(q) == q; InsAfterOld(g, n, k, q); }
    var g' := InsAfter(g, n, k);
    assert g'.l[k + 1] == k && g'.r[k + 1] == Up(k + 1, g.r[k]);
  }

  lemma InsAfterNew(g: Tree, n: nat, k: int)
    requires TreeOk(g, n, Whole(k)) && Sided(g, n, k)
    ensures var g' := InsAfter(g, n, k); TopsOk(g', n + 1, Whole(k + 1)) && NodeOk'(g', n + 1, k + 1, k + 1)
  {
    assert Spot(k) == k;
    InsAfterOld(g, n, k, k);
    if g.r[k] != NIL { InsAfterOld(g, n, k, g.r[k]); }
    var g' := InsAfter(g, n, k);
    assert g'.l[k + 1] == k && g'.r[k + 1] == Up(k + 1, g.r[k]) && g'.p[k + 1] == NIL && g'.lo[k + 1] == 0
           && g'.hi[k + 1] == n + 1;
  }

  lemma InsAfterOk(g: Tree, n: nat, k: int)
    requires TreeOk(g, n, Whole(k))
    ensures TreeOk(InsAfter(g, n, k), n + 1, Whole(k + 1))
  {
    Sides(g, n, k);
    InsAfterNew(g, n, k);
    forall i | 0 <= i < n + 1 ensures NodeOk(InsAfter(g, n, k), n + 1, Spot(i), Whole(k + 1)) {
      if i != k + 1 {
        var j := if i <= k then i else i - 1;
        InsAfterAt(g, n, k, j);
        InsAfterUp(g, n, k, j);
      }
    }
  }

  // ----- removing the root

  function Down(k: int, x: int): int { if x > k then x - 1 else x }

  ghost function Removed(g: Tree, n: nat, k: int): Tree
    requires Sized(g, n) && 0 <= k < n
  {
    Tree(seq(n - 1, i requires 0 <= i < n - 1 => Down(k, g.l[if i < k then i else i + 1])),
         seq(n - 1, i requires 0 <= i < n - 1 => if i == k - 1 then Down(k, g.r[k])
                                                 else Down(k, g.r[if i < k then i else i + 1])),
         seq(n - 1, i requires 0 <= i < n - 1 =>
           var j := if i < k then i else i + 1;
           if g.p[j] == k then (if j < k || k == 0 then NIL else k - 1) else Down(k, g.p[j])),
         seq(n - 1, i requires 0 <= i < n - 1 => if i < k then g.lo[i] else g.lo[i + 1] - 1),
         seq(n - 1, i requires 0 <= i < n - 1 => if i < k then (if g.hi[i] == k then n - 1 else g.hi[i])
                                                 else g.hi[i + 1] - 1))
  }

  ghost function NewRoot(g: Tree, n: nat, k: int): int
    requires Sized(g, n) && 0 <= k < n
  {
    if k > 0 then g.l[k] else Down(k, g.r[k])
  }

  /** The node before the root has nothing to its right. */
  lemma Before(g: Tree, n: nat, k: int)
    requires TreeOk(g, n, Whole(k)) && Sided(g, n, k) && k > 0
    ensures g.r[k - 1] == NIL && g.hi[k - 1] == k && g.l[k] != NIL
  {
    assert Spot(k) == k && Spot(k - 1) == k - 1 && Spot(g.r[k - 1]) == g.r[k - 1];
  }

  lemma RemovedOld(g: Tree, n: nat, k: int, j: int)
    requires TreeOk(g, n, Whole(k)) && Sided(g, n, k) && 0 <= j < n && j != k
    ensures var g' := Removed(g, n, k); var i := Down(k, j);
            && g'.l[i] == Down(k, g.l[j])
            && g'.r[i] == (if j == k - 1 then Down(k, g.r[k]) else Down(k, g.r[j]))
            && g'.p[i] == (if g.p[j] == k then (if j < k || k == 0 then NIL else k - 1) else Down(k, g.p[j]))
            && g'.lo[i] == (if j < k then g.lo[j] else g.lo[j] - 1)
            && g'.hi[i] == (if j < k then (if g.hi[j] == k then n - 1 else g.hi[j]) else g.hi[j] - 1)
    ensures j < k ==> g.hi[j] <= k && g.r[j] < k && g.l[j] < k && g.p[j] <= k
    ensures j > k ==> g.lo[j] > k && (g.l[j] == NIL || g.l[j] > k) && (g.p[j] >= k)
  {
    assert Spot(j) == j && Spot(k) == k;
    if g.l[j] >= 0 { assert Spot(g.l[j]) == g.l[j]; }
    if g.r[j] >= 0 { assert Spot(g.r[j]) == g.r[j]; }
    if g.p[j] >= 0 { assert Spot(g.p[j]) == g.p[j]; }
    var i := Down(k, j);
    assert i >= k ==> i + 1 == j;
  }

  lemma RemovedAt(g: Tree, n: nat, k: int, j: int)
    requires TreeOk(g, n, Whole(k)) && Sided(g, n, k) && 0 <= j < n && j != k
    ensures var g' := Removed(g, n, k); var t := NewRoot(g, n, k);
            LeftOk(g', n - 1, Down(k, j), n - 1, t) && RightOk(g', n - 1, Down(k, j), -1, t)
  {
    assert Spot(j) == j && Spot(k) == k;
    if k > 0 { Before(g, n, k); }
    RemovedOld(g, n, k, j);
    if g.l[j] != NIL { RemovedOld(g, n, k, g.l[j]); }
    if g.r[j] != NIL { RemovedOld(g, n, k, g.r[j]); }
    if j == k - 1 && g.r[k] != NIL { RemovedOld(g, n, k, g.r[k]); }
  }

  lemma RemovedUp(g: Tree, n: nat, k: int, j: int)
    requires TreeOk(g, n, Whole(k)) && Sided(g, n, k) && 0 <= j < n && j != k
    ensures UpOk(Removed(g, n, k), n - 1, Down(k, j), Whole(NewRoot(g, n, k)))
  {
    assert Spot(j) == j && Spot(k) == k;
    RemovedOld(g, n, k, j);
    if k > 0 { Before(g, n, k); RemovedOld(g, n, k, k - 1); }
    var q := g.p[j];
    if q != NIL && q != k { assert Spot(q) == q; RemovedOld(g, n, k, q); }
  }

  lemma RemovedTops(g: Tree, n: nat, k: int)
    requires TreeOk(g, n, Whole(k)) && Sided(g, n, k) && n > 1
    ensures TopsOk(Removed(g, n, k), n - 1, Whole(NewRoot(g, n, k)))
  {
    assert Spot(k) == k;
    if k > 0 { Before(g, n, k); RemovedOld(g, n, k, g.l[k]); } else { RemovedOld(g, n, k, g.r[k]); }
  }

  lemma RemovedOk(g: Tree, n: nat, k: int)
    requires TreeOk(g, n, Whole(k)) && n > 1
    ensures TreeOk(Removed(g, n, k), n - 1, Whole(NewRoot(g, n, k)))
  {
    Sides(g, n, k);
    RemovedTops(g, n, k);
    forall i | 0 <= i < n - 1 ensures NodeOk(Removed(g, n, k), n - 1, Spot(i), Whole(NewRoot(g, n, k))) {
      var j := if i < k then i else i + 1;
      RemovedAt(g, n, k, j);
      RemovedUp(g, n, k, j);
    }
  }
}
