/**
 * The shape of a splay tree, over the positions of its nodes in the sorted list: rotations, the links of
 * top-down splaying, and the search that ends where splaying ends.
 */
module SplayShape {
  const NIL := -1
  const HEADER := -2

  /** A binary tree over the positions 0 .. n-1 of a list.  `lo`/`hi` bound the positions below a node. */
  datatype Tree = Tree(l: seq<int>, r: seq<int>, p: seq<int>, lo: seq<int>, hi: seq<int>)

  /** The root, the tops of the two detached trees while splaying, and the position splayed to. */
  datatype View = View(root: int, lt: int, rt: int, t: int)

  ghost predicate Sized(g: Tree, n: nat) {
    |g.l| == n && |g.r| == n && |g.p| == n && |g.lo| == n && |g.hi| == n
  }

  ghost function Spot(i: int): int { i }

  ghost predicate LeftOk(g: Tree, n: nat, i: int, rb: int, t: int)
    requires Sized(g, n) && 0 <= i < n
  {
    var c := g.l[i];
    if i == rb then c == NIL && g.lo[i] == t + 1
    else if c == NIL then g.lo[i] == i
    else 0 <= c < i && g.p[c] == i && g.lo[c] == g.lo[i] && g.hi[c] == i
  }

  ghost predicate RightOk(g: Tree, n: nat, i: int, lb: int, t: int)
    requires Sized(g, n) && 0 <= i < n
  {
    var c := g.r[i];
    if i == lb then c == NIL && g.hi[i] == t
    else if c == NIL then g.hi[i] == i + 1
    else i < c < n && g.p[c] == i && g.lo[c] == i + 1 && g.hi[c] == g.hi[i]
  }

  ghost predicate UpOk(g: Tree, n: nat, i: int, v: View)
    requires Sized(g, n) && 0 <= i < n
  {
    var q := g.p[i];
    && 0 <= g.lo[i] <= i < g.hi[i] <= n
    && if q == NIL then i == v.root
       else if q == HEADER then i == v.lt || i == v.rt
       else 0 <= q < n && (g.l[q] == i || g.r[q] == i)
  }

  ghost predicate TopsOk(g: Tree, n: nat, v: View) {
    && Sized(g, n)
    && 0 <= v.root < n && g.p[v.root] == NIL && 0 <= g.lo[v.root] <= v.t < g.hi[v.root] <= n
    && var a := g.lo[v.root]; var b := g.hi[v.root];
    && (if a == 0 then v.lt == NIL else 0 <= v.lt < a && g.lo[v.lt] == 0 && g.hi[v.lt] == v.t && g.p[v.lt] == HEADER)
    && (if b == n then v.rt == NIL
        else b <= v.rt < n && g.lo[v.rt] == v.t + 1 && g.hi[v.rt] == n && g.p[v.rt] == HEADER)
  }

  ghost predicate NodeOk(g: Tree, n: nat, i: int, v: View)
    requires TopsOk(g, n, v) && 0 <= i < n
  {
    LeftOk(g, n, i, g.hi[v.root], v.t) && RightOk(g, n, i, g.lo[v.root] - 1, v.t) && UpOk(g, n, i, v)
  }

  ghost predicate TreeOk(g: Tree, n: nat, v: View) {
    TopsOk(g, n, v) && forall i {:trigger Spot(i)} :: 0 <= i < n ==> NodeOk(g, n, Spot(i), v)
  }

  // ----- rotating a left child above its parent

  ghost predicate CanRotR(g: Tree, n: nat, y: int) {
    Sized(g, n) && 0 <= y < n && 0 <= g.l[y] < n && g.r[g.l[y]] < n && g.p[y] < n
  }

  ghost function RotR(g: Tree, n: nat, y: int): Tree
    requires CanRotR(g, n, y)
  {
    var x := g.l[y];
    var m := g.r[x];
    var z := g.p[y];
    var l1 := g.l[y := m];
    var r1 := g.r[x := y];
    var p1 := g.p[y := x][x := z];
    Tree(if z >= 0 && g.l[z] == y then l1[z := x] else l1,
         if z >= 0 && g.l[z] != y then r1[z := x] else r1,
         if m >= 0 then p1[m := y] else p1,
         g.lo[y := x + 1],
         g.hi[x := g.hi[y]])
  }

  function RotView(v: View, y: int, x: int): View { if y == v.root then v.(root := x) else v }

  ghost predicate RotRPre(g: Tree, n: nat, v: View, y: int) {
    TreeOk(g, n, v) && CanRotR(g, n, y) && (y == v.root || (g.lo[v.root] == 0 && g.hi[v.root] == n))
  }

  /** The nodes around a rotation, and how they lie. */
  lemma RotRFacts(g: Tree, n: nat, v: View, y: int)
    requires RotRPre(g, n, v, y)
    ensures var x := g.l[y]; var m := g.r[x]; var z := g.p[y];
            && x < y && g.p[x] == y && g.lo[x] == g.lo[y] && g.hi[x] == y && x != v.root
            && (m != NIL ==> x < m < y && g.p[m] == x && g.lo[m] == x + 1 && g.hi[m] == y)
            && (m == NIL ==> y == x + 1)
            && z != HEADER && (z == NIL <==> y == v.root)
            && (z >= 0 ==> z != x && z != y && if g.l[z] == y then y < z && g.lo[y] == g.lo[z] && g.hi[y] == z
                                               else g.r[z] == y && z < y && g.lo[y] == z + 1 && g.hi[y] == g.hi[z])
            && 0 <= g.lo[y] <= x && y < g.hi[y] <= n && (z == NIL || 0 <= z < n)
  {
    var x := g.l[y]; var m := g.r[x]; var z := g.p[y];
    assert Spot(y) == y && Spot(x) == x && Spot(v.root) == v.root;
    if m >= 0 { assert Spot(m) == m; }
    if z >= 0 { assert Spot(z) == z; }
  }

  lemma RotRTops(g: Tree, n: nat, v: View, y: int)
    requires RotRPre(g, n, v, y)
    ensures var g' := RotR(g, n, y); var v' := RotView(v, y, g.l[y]);
            TopsOk(g', n, v') && g'.lo[v'.root] == g.lo[v.root] && g'.hi[v'.root] == g.hi[v.root]
  {
    RotRFacts(g, n, v, y);
    assert Spot(v.root) == v.root;
  }

  lemma RotRLeft(g: Tree, n: nat, v: View, y: int, i: int)
    requires RotRPre(g, n, v, y) && 0 <= i < n
    ensures LeftOk(RotR(g, n, y), n, i, g.hi[v.root], v.t)
  {
    RotRFacts(g, n, v, y);
    assert Spot(i) == i;
  }

  lemma RotRRight(g: Tree, n: nat, v: View, y: int, i: int)
    requires RotRPre(g, n, v, y) && 0 <= i < n
    ensures RightOk(RotR(g, n, y), n, i, g.lo[v.root] - 1, v.t)
  {
    RotRFacts(g, n, v, y);
    assert Spot(i) == i;
  }

  lemma RotRUp(g: Tree, n: nat, v: View, y: int, i: int)
    requires RotRPre(g, n, v, y) && 0 <= i < n
    ensures UpOk(RotR(g, n, y), n, i, RotView(v, y, g.l[y]))
  {
    RotRFacts(g, n, v, y);
    assert Spot(i) == i;
  }

  lemma RotROk(g: Tree, n: nat, v: View, y: int)
    requires RotRPre(g, n, v, y)
    ensures TreeOk(RotR(g, n, y), n, RotView(v, y, g.l[y]))
  {
    RotRTops(g, n, v, y);
    forall i | 0 <= i < n ensures NodeOk(RotR(g, n, y), n, Spot(i), RotView(v, y, g.l[y])) {
      RotRLeft(g, n, v, y, i);
      RotRRight(g, n, v, y, i);
      RotRUp(g, n, v, y, i);
    }
  }

  // ----- rotating a right child above its parent

  ghost predicate CanRotL(g: Tree, n: nat, y: int) {
    Sized(g, n) && 0 <= y < n && 0 <= g.r[y] < n && g.l[g.r[y]] < n && g.p[y] < n
  }

  ghost function RotL(g: Tree, n: nat, y: int): Tree
    requires CanRotL(g, n, y)
  {
    var x := g.r[y];
    var m := g.l[x];
    var z := g.p[y];
    var l1 := g.l[x := y];
    var r1 := g.r[y := m];
    var p1 := g.p[y := x][x := z];
    Tree(if z >= 0 && g.l[z] == y then l1[z := x] else l1,
         if z >= 0 && g.l[z] != y then r1[z := x] else r1,
         if m >= 0 then p1[m := y] else p1,
         g.lo[x := g.lo[y]],
         g.hi[y := x])
  }

  ghost predicate RotLPre(g: Tree, n: nat, v: View, y: int) {
    TreeOk(g, n, v) && CanRotL(g, n, y) && (y == v.root || (g.lo[v.root] == 0 && g.hi[v.root] == n))
  }

  lemma RotLFacts(g: Tree, n: nat, v: View, y: int)
    requires RotLPre(g, n, v, y)
    ensures var x := g.r[y]; var m := g.l[x]; var z := g.p[y];
            && y < x && g.p[x] == y && g.lo[x] == y + 1 && g.hi[x] == g.hi[y] && x != v.root
            && (m != NIL ==> y < m < x && g.p[m] == x && g.lo[m] == y + 1 && g.hi[m] == x)
            && (m == NIL ==> x == y + 1)
            && z != HEADER && (z == NIL <==> y == v.root)
            && (z >= 0 ==> z != x && z != y && if g.l[z] == y then y < z && g.lo[y] == g.lo[z] && g.hi[y] == z
                                               else g.r[z] == y && z < y && g.lo[y] == z + 1 && g.hi[y] == g.hi[z])
            && 0 <= g.lo[y] <= y && x < g.hi[y] <= n && (z == NIL || 0 <= z < n)
  {
    var x := g.r[y]; var m := g.l[x]; var z := g.p[y];
    assert Spot(y) == y && Spot(x) == x && Spot(v.root) == v.root;
    if m >= 0 { assert Spot(m) == m; }
    if z >= 0 { assert Spot(z) == z; }
  }

  lemma RotLTops(g: Tree, n: nat, v: View, y: int)
    requires RotLPre(g, n, v, y)
    ensures var g' := RotL(g, n, y); var v' := RotView(v, y, g.r[y]);
            TopsOk(g', n, v') && g'.lo[v'.root] == g.lo[v.root] && g'.hi[v'.root] == g.hi[v.root]
  {
    RotLFacts(g, n, v, y);
    assert Spot(v.root) == v.root;
  }

  lemma RotLLeft(g: Tree, n: nat, v: View, y: int, i: int)
    requires RotLPre(g, n, v, y) && 0 <= i < n
    ensures LeftOk(RotL(g, n, y), n, i, g.hi[v.root], v.t)
  {
    RotLFacts(g, n, v, y);
    assert Spot(i) == i;
  }

  lemma RotLRight(g: Tree, n: nat, v: View, y: int, i: int)
    requires RotLPre(g, n, v, y) && 0 <= i < n
    ensures RightOk(RotL(g, n, y), n, i, g.lo[v.root] - 1, v.t)
  {
    RotLFacts(g, n, v, y);
    assert Spot(i) == i;
  }

  lemma RotLUp(g: Tree, n: nat, v: View, y: int, i: int)
    requires RotLPre(g, n, v, y) && 0 <= i < n
    ensures UpOk(RotL(g, n, y), n, i, RotView(v, y, g.r[y]))
  {
    RotLFacts(g, n, v, y);
    assert Spot(i) == i;
  }

  lemma RotLOk(g: Tree, n: nat, v: View, y: int)
    requires RotLPre(g, n, v, y)
    ensures TreeOk(RotL(g, n, y), n, RotView(v, y, g.r[y]))
  {
    RotLTops(g, n, v, y);
    forall i | 0 <= i < n ensures NodeOk(RotL(g, n, y), n, Spot(i), RotView(v, y, g.r[y])) {
      RotLLeft(g, n, v, y, i);
      RotLRight(g, n, v, y, i);
      RotLUp(g, n, v, y, i);
    }
  }

  // ----- detaching the root to the right tree

  ghost predicate CanLinkR(g: Tree, n: nat, root: int) {
    Sized(g, n) && 0 <= root < n && 0 <= g.l[root] < n && 0 <= g.hi[root] <= n
  }

  ghost function LinkR(g: Tree, n: nat, root: int, t: int): Tree
    requires CanLinkR(g, n, root)
  {
    var x := g.l[root];
    var b := g.hi[root];
    Tree((if b < n then g.l[b := root] else g.l)[root := NIL],
         g.r,
         g.p[root := if b < n then b else HEADER][x := NIL],
         g.lo[root := t + 1],
         g.hi)
  }

  ghost function LinkRView(g: Tree, n: nat, v: View): View
    requires CanLinkR(g, n, v.root)
  {
    v.(root := g.l[v.root], rt := if g.hi[v.root] == n then v.root else v.rt)
  }

  ghost predicate LinkRPre(g: Tree, n: nat, v: View) {
    TreeOk(g, n, v) && CanLinkR(g, n, v.root) && v.t < v.root
  }

  lemma LinkRFacts(g: Tree, n: nat, v: View)
    requires LinkRPre(g, n, v)
    ensures var x := g.l[v.root]; var b := g.hi[v.root];
            && x < v.root && g.p[x] == v.root && g.lo[x] == g.lo[v.root] && g.hi[x] == v.root
            && 0 <= g.lo[x] <= x && v.root < b
            && (b < n ==> g.l[b] == NIL && g.lo[b] == v.t + 1)
  {
    var x := g.l[v.root]; var b := g.hi[v.root];
    assert Spot(v.root) == v.root && Spot(x) == x;
    if b < n { assert Spot(b) == b; }
  }

  lemma LinkRAt(g: Tree, n: nat, v: View, i: int)
    requires LinkRPre(g, n, v) && 0 <= i < n
    ensures var g' := LinkR(g, n, v.root, v.t); var v' := LinkRView(g, n, v);
            TopsOk(g', n, v') && LeftOk(g', n, i, g'.hi[v'.root], v'.t) && RightOk(g', n, i, g'.lo[v'.root] - 1, v.t)
  {
    LinkRFacts(g, n, v);
    assert Spot(i) == i;
  }

  lemma LinkRUp(g: Tree, n: nat, v: View, i: int)
    requires LinkRPre(g, n, v) && 0 <= i < n
    ensures UpOk(LinkR(g, n, v.root, v.t), n, i, LinkRView(g, n, v))
  {
    LinkRFacts(g, n, v);
    assert Spot(i) == i;
  }

  lemma LinkROk(g: Tree, n: nat, v: View)
    requires LinkRPre(g, n, v)
    ensures TreeOk(LinkR(g, n, v.root, v.t), n, LinkRView(g, n, v))
  {
    LinkRAt(g, n, v, v.root);
    forall i | 0 <= i < n ensures NodeOk(LinkR(g, n, v.root, v.t), n, Spot(i), LinkRView(g, n, v)) {
      LinkRAt(g, n, v, i);
      LinkRUp(g, n, v, i);
    }
  }

  // ----- detaching the root to the left tree

  ghost predicate CanLinkL(g: Tree, n: nat, root: int) {
    Sized(g, n) && 0 <= root < n && 0 <= g.r[root] < n && 0 <= g.lo[root] <= n
  }

  ghost function LinkL(g: Tree, n: nat, root: int, t: int): Tree
    requires CanLinkL(g, n, root)
  {
    var x := g.r[root];
    var a := g.lo[root];
    Tree(g.l,
         (if a > 0 then g.r[a - 1 := root] else g.r)[root := NIL],
         g.p[root := if a > 0 then a - 1 else HEADER][x := NIL],
         g.lo,
         g.hi[root := t])
  }

  ghost function LinkLView(g: Tree, n: nat, v: View): View
    requires CanLinkL(g, n, v.root)
  {
    v.(root := g.r[v.root], lt := if g.lo[v.root] == 0 then v.root else v.lt)
  }

  ghost predicate LinkLPre(g: Tree, n: nat, v: View) {
    TreeOk(g, n, v) && CanLinkL(g, n, v.root) && v.root < v.t
  }

  lemma LinkLFacts(g: Tree, n: nat, v: View)
    requires LinkLPre(g, n, v)
    ensures var x := g.r[v.root]; var a := g.lo[v.root];
            && v.root < x && g.p[x] == v.root && g.lo[x] == v.root + 1 && g.hi[x] == g.hi[v.root]
            && x < g.hi[x] <= n && a <= v.root
            && (a > 0 ==> g.r[a - 1] == NIL && g.hi[a - 1] == v.t)
  {
    var x := g.r[v.root]; var a := g.lo[v.root];
    assert Spot(v.root) == v.root && Spot(x) == x;
    if a > 0 { assert Spot(a - 1) == a - 1; }
  }

  lemma LinkLAt(g: Tree, n: nat, v: View, i: int)
    requires LinkLPre(g, n, v) && 0 <= i < n
    ensures var g' := LinkL(g, n, v.root, v.t); var v' := LinkLView(g, n, v);
            TopsOk(g', n, v') && LeftOk(g', n, i, g'.hi[v'.root], v'.t) && RightOk(g', n, i, g'.lo[v'.root] - 1, v.t)
  {
    LinkLFacts(g, n, v);
    assert Spot(i) == i;
  }

  lemma LinkLUp(g: Tree, n: nat, v: View, i: int)
    requires LinkLPre(g, n, v) && 0 <= i < n
    ensures UpOk(LinkL(g, n, v.root, v.t), n, i, LinkLView(g, n, v))
  {
    LinkLFacts(g, n, v);
    assert Spot(i) == i;
  }

  lemma LinkLOk(g: Tree, n: nat, v: View)
    requires LinkLPre(g, n, v)
    ensures TreeOk(LinkL(g, n, v.root, v.t), n, LinkLView(g, n, v))
  {
    LinkLAt(g, n, v, v.root);
    forall i | 0 <= i < n ensures NodeOk(LinkL(g, n, v.root, v.t), n, Spot(i), LinkLView(g, n, v)) {
      LinkLAt(g, n, v, i);
      LinkLUp(g, n, v, i);
    }
  }

  // ----- merging the detached trees back under the root

  ghost predicate CanMerge(g: Tree, n: nat, v: View) {
    && TopsOk(g, n, v) && v.root == v.t
    && (g.l[v.root] == NIL || 0 <= g.l[v.root] < n) && (g.r[v.root] == NIL || 0 <= g.r[v.root] < n)
  }

  ghost function MergeL(g: Tree, n: nat, v: View): Tree
    requires CanMerge(g, n, v)
  {
    if v.lt == NIL then g
    else
      var a := g.lo[v.root];
      var x := g.l[v.root];
      Tree(g.l[v.root := v.lt],
           if x != NIL then g.r[a - 1 := x] else g.r,
           (if x != NIL then g.p[x := a - 1] else g.p)[v.lt := v.root],
           g.lo[v.root := 0],
           g.hi)
  }

  lemma MergeLFacts(g: Tree, n: nat, v: View)
    requires TreeOk(g, n, v) && CanMerge(g, n, v) && v.lt != NIL
    ensures var a := g.lo[v.root]; var x := g.l[v.root];
            && a > 0 && g.r[a - 1] == NIL && g.hi[a - 1] == v.t
            && (if x == NIL then a == v.root
                else a <= x < v.root && g.p[x] == v.root && g.lo[x] == a && g.hi[x] == v.root)
            && v.lt < a && g.r[v.root] != v.lt
  {
    var a := g.lo[v.root]; var x := g.l[v.root];
    assert Spot(v.root) == v.root && Spot(a - 1) == a - 1;
    if x != NIL { assert Spot(x) == x; }
  }

  lemma MergeLAt(g: Tree, n: nat, v: View, i: int)
    requires TreeOk(g, n, v) && CanMerge(g, n, v) && 0 <= i < n
    ensures var g' := MergeL(g, n, v); var v' := v.(lt := NIL);
            CanMerge(g', n, v') && LeftOk(g', n, i, g'.hi[v'.root], v'.t) && RightOk(g', n, i, g'.lo[v'.root] - 1, v.t)
  {
    if v.lt != NIL { MergeLFacts(g, n, v); }
    assert Spot(i) == i && Spot(v.root) == v.root;
  }

  lemma MergeLUp(g: Tree, n: nat, v: View, i: int)
    requires TreeOk(g, n, v) && CanMerge(g, n, v) && 0 <= i < n
    ensures UpOk(MergeL(g, n, v), n, i, v.(lt := NIL))
  {
    if v.lt != NIL { MergeLFacts(g, n, v); }
    assert Spot(i) == i && Spot(v.root) == v.root;
  }

  lemma MergeLOk(g: Tree, n: nat, v: View)
    requires TreeOk(g, n, v) && CanMerge(g, n, v)
    ensures var g' := MergeL(g, n, v);
            && TreeOk(g', n, v.(lt := NIL)) && CanMerge(g', n, v.(lt := NIL))
            && g'.lo[v.root] == 0 && g'.hi[v.root] == g.hi[v.root]
  {
    MergeLAt(g, n, v, v.root);
    forall i | 0 <= i < n ensures NodeOk(MergeL(g, n, v), n, Spot(i), v.(lt := NIL)) {
      MergeLAt(g, n, v, i);
      MergeLUp(g, n, v, i);
    }
  }

  ghost function MergeR(g: Tree, n: nat, v: View): Tree
    requires CanMerge(g, n, v)
  {
    if v.rt == NIL then g
    else
      var b := g.hi[v.root];
      var x := g.r[v.root];
      Tree(if x != NIL then g.l[b := x] else g.l,
           g.r[v.root := v.rt],
           (if x != NIL then g.p[x := b] else g.p)[v.rt := v.root],
           g.lo,
           g.hi[v.root := n])
  }

  lemma MergeRFacts(g: Tree, n: nat, v: View)
    requires TreeOk(g, n, v) && CanMerge(g, n, v) && v.rt != NIL
    ensures var b := g.hi[v.root]; var x := g.r[v.root];
            && b < n && g.l[b] == NIL && g.lo[b] == v.t + 1
            && (if x == NIL then b == v.root + 1
                else v.root < x < b && g.p[x] == v.root && g.lo[x] == v.root + 1 && g.hi[x] == b)
            && v.rt >= b && g.l[v.root] != v.rt
  {
    var b := g.hi[v.root]; var x := g.r[v.root];
    assert Spot(v.root) == v.root && Spot(b) == b;
    if x != NIL { assert Spot(x) == x; }
  }

  lemma MergeRAt(g: Tree, n: nat, v: View, i: int)
    requires TreeOk(g, n, v) && CanMerge(g, n, v) && 0 <= i < n
    ensures var g' := MergeR(g, n, v); var v' := v.(rt := NIL);
            TopsOk(g', n, v') && LeftOk(g', n, i, g'.hi[v'.root], v'.t) && RightOk(g', n, i, g'.lo[v'.root] - 1, v.t)
  {
    if v.rt != NIL { MergeRFacts(g, n, v); }
    assert Spot(i) == i && Spot(v.root) == v.root;
  }

  lemma MergeRUp(g: Tree, n: nat, v: View, i: int)
    requires TreeOk(g, n, v) && CanMerge(g, n, v) && 0 <= i < n
    ensures UpOk(MergeR(g, n, v), n, i, v.(rt := NIL))
  {
    if v.rt != NIL { MergeRFacts(g, n, v); }
    assert Spot(i) == i && Spot(v.root) == v.root;
  }

  lemma MergeROk(g: Tree, n: nat, v: View)
    requires TreeOk(g, n, v) && CanMerge(g, n, v)
    ensures var g' := MergeR(g, n, v);
            TreeOk(g', n, v.(rt := NIL)) && g'.hi[v.root] == n && g'.lo[v.root] == g.lo[v.root]
  {
    MergeRAt(g, n, v, v.root);
    forall i | 0 <= i < n ensures NodeOk(MergeR(g, n, v), n, Spot(i), v.(rt := NIL)) {
      MergeRAt(g, n, v, i);
      MergeRUp(g, n, v, i);
    }
  }

  // ----- searching

  ghost predicate Sorted(keys: seq<int>) { forall i, j :: 0 <= i < j < |keys| ==> keys[i] < keys[j] }

  /** A whole tree: nothing detached. */
  function Whole(root: int): View { View(root, NIL, NIL, root) }

  /** Where a search for x ends: at x, or at the end of the path to its gap. */
  ghost predicate Target(g: Tree, keys: seq<int>, x: int, t: int) {
    && 0 <= t < |keys| && |g.l| == |keys| && |g.r| == |keys|
    && (|| keys[t] == x
        || (x < keys[t] && g.l[t] == NIL && (t == 0 || keys[t - 1] < x))
        || (keys[t] < x && g.r[t] == NIL && (t == |keys| - 1 || x < keys[t + 1])))
  }

  /** The search for x may enter the subtree of node i: x lies between the keys around it. */
  ghost predicate Enters(g: Tree, keys: seq<int>, root: int, x: int, i: int) {
    && TreeOk(g, |keys|, Whole(root)) && Sorted(keys) && 0 <= i < |keys| && 0 <= g.lo[i] <= i < g.hi[i] <= |keys|
    && (g.lo[i] == 0 || keys[g.lo[i] - 1] < x) && (g.hi[i] == |keys| || x < keys[g.hi[i]])
  }

  lemma EntersRoot(g: Tree, keys: seq<int>, root: int, x: int)
    requires TreeOk(g, |keys|, Whole(root)) && Sorted(keys)
    ensures Enters(g, keys, root, x, root)
  {
    assert Spot(root) == root;
  }

  lemma EntersLeft(g: Tree, keys: seq<int>, root: int, x: int, i: int)
    requires Enters(g, keys, root, x, i) && x < keys[i] && g.l[i] != NIL
    ensures Enters(g, keys, root, x, g.l[i]) && g.lo[i] <= g.lo[g.l[i]] && g.hi[g.l[i]] < g.hi[i]
  {
    assert Spot(i) == i && Spot(g.l[i]) == g.l[i];
  }

  lemma EntersRight(g: Tree, keys: seq<int>, root: int, x: int, i: int)
    requires Enters(g, keys, root, x, i) && keys[i] < x && g.r[i] != NIL
    ensures Enters(g, keys, root, x, g.r[i]) && g.lo[i] < g.lo[g.r[i]] && g.hi[g.r[i]] <= g.hi[i]
  {
    assert Spot(i) == i && Spot(g.r[i]) == g.r[i];
  }

  lemma EndsAt(g: Tree, keys: seq<int>, root: int, x: int, i: int)
    requires Enters(g, keys, root, x, i)
    requires (x < keys[i] ==> g.l[i] == NIL) && (keys[i] < x ==> g.r[i] == NIL)
    ensures Target(g, keys, x, i)
  {
    assert Spot(i) == i;
  }

  /** The search of splay_search_closest_node_nosplay, from node i down. */
  ghost function Closest(g: Tree, keys: seq<int>, root: int, x: int, i: int): (t: int)
    requires Enters(g, keys, root, x, i)
    ensures Target(g, keys, x, t) && g.lo[i] <= t < g.hi[i]
    decreases g.hi[i] - g.lo[i]
  {
    if x < keys[i] && g.l[i] != NIL then
      EntersLeft(g, keys, root, x, i);
      Closest(g, keys, root, x, g.l[i])
    else if x > keys[i] && g.r[i] != NIL then
      EntersRight(g, keys, root, x, i);
      Closest(g, keys, root, x, g.r[i])
    else
      EndsAt(g, keys, root, x, i);
      i
  }

  /** While splaying, the target lies on the side the comparison says, or the root is the target. */
  lemma AimLeft(g: Tree, n: nat, v: View, keys: seq<int>, x: int)
    requires TreeOk(g, n, v) && n == |keys| && Sorted(keys) && Target(g, keys, x, v.t) && x < keys[v.root]
    ensures if g.l[v.root] != NIL then v.t < v.root else v.t == v.root
  {
    assert Spot(v.root) == v.root;
  }

  lemma AimRight(g: Tree, n: nat, v: View, keys: seq<int>, x: int)
    requires TreeOk(g, n, v) && n == |keys| && Sorted(keys) && Target(g, keys, x, v.t) && x > keys[v.root]
    ensures if g.r[v.root] != NIL then v.t > v.root else v.t == v.root
  {
    assert Spot(v.root) == v.root;
  }

  lemma AimHere(g: Tree, n: nat, v: View, keys: seq<int>, x: int)
    requires TreeOk(g, n, v) && n == |keys| && Sorted(keys) && Target(g, keys, x, v.t) && x == keys[v.root]
    ensures v.t == v.root
  {
  }

  // ----- the in-order walk

  ghost function InOrder(g: Tree, n: nat, root: int, i: int): seq<int>
    requires TreeOk(g, n, Whole(root)) && NIL <= i < n
    decreases if i == NIL then 0 else g.hi[i] - g.lo[i] + 1
  {
    if i == NIL then []
    else
      assert NodeOk(g, n, Spot(i), Whole(root));
      assert g.l[i] != NIL ==> NodeOk(g, n, Spot(g.l[i]), Whole(root));
      assert g.r[i] != NIL ==> NodeOk(g, n, Spot(g.r[i]), Whole(root));
      InOrder(g, n, root, g.l[i]) + [i] + InOrder(g, n, root, g.r[i])
  }

  ghost function Range(a: int, b: int): seq<int>
    requires a <= b
  {
    seq(b - a, k => a + k)
  }

  /** Walking the tree in order visits the list from head to tail. */
  lemma {:induction false} InOrderIsRange(g: Tree, n: nat, root: int, i: int)
    requires TreeOk(g, n, Whole(root)) && 0 <= i < n
    ensures g.lo[i] <= g.hi[i] && InOrder(g, n, root, i) == Range(g.lo[i], g.hi[i])
    decreases g.hi[i] - g.lo[i]
  {
    assert NodeOk(g, n, Spot(i), Whole(root));
    if g.l[i] != NIL { assert Spot(g.l[i]) == g.l[i]; InOrderIsRange(g, n, root, g.l[i]); }
    if g.r[i] != NIL { assert Spot(g.r[i]) == g.r[i]; InOrderIsRange(g, n, root, g.r[i]); }
    assert Range(g.lo[i], i) + [i] + Range(i + 1, g.hi[i]) == Range(g.lo[i], g.hi[i]);
  }
}
