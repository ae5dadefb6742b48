/**
 * The nodes of a splay tree: pointer surgery that mirrors what happens to the shape, and splaying a node to the
 * root from the top down and from the bottom up.
 */
module SplayNodes {
  import opened SplayShape

  class Node {
    const key: int
    var left: Node?
    var right: Node?
    var parent: Node?
    var prev: Node?
    var next: Node?
    ghost var pos: int

    constructor (key: int)
      ensures this.key == key && left == null && right == null && parent == null && prev == null && next == null
    {
      this.key := key;
      left, right, parent, prev, next := null, null, null, null, null;
    }
  }

  ghost function Ptr(s: seq<Node>, k: int): Node? { if 0 <= k < |s| then s[k] else null }

  ghost function Ix(n: Node?): int
    reads n
  {
    if n == null then NIL else n.pos
  }

  ghost predicate Has(s: seq<Node>, all: set<Node>, n: Node?)
    reads n
  {
    n != null && n in all && 0 <= n.pos < |s| && s[n.pos] == n
  }

  /** The nodes' pointers are what the three index sequences say. */
  ghost predicate Pointers(s: seq<Node>, all: set<Node>, l: seq<int>, r: seq<int>, p: seq<int>)
    requires |l| == |s| && |r| == |s| && |p| == |s|
    reads all`left, all`right, all`parent, all`pos
  {
    && (forall i :: 0 <= i < |s| ==> s[i] in all && s[i].pos == i)
    && (forall i :: 0 <= i < |s| ==> NIL <= l[i] < |s|)
    && (forall i :: 0 <= i < |s| ==> NIL <= r[i] < |s|)
    && (forall i :: 0 <= i < |s| ==> HEADER <= p[i] < |s|)
    && (forall i {:trigger s[i].left} :: 0 <= i < |s| ==> s[i].left == Ptr(s, l[i]))
    && (forall i {:trigger s[i].right} :: 0 <= i < |s| ==> s[i].right == Ptr(s, r[i]))
    && (forall i {:trigger s[i].parent} :: 0 <= i < |s| && p[i] != HEADER ==> s[i].parent == Ptr(s, p[i]))
  }

  ghost predicate Wired(s: seq<Node>, all: set<Node>, g: Tree)
    reads all`left, all`right, all`parent, all`pos
  {
    Sized(g, |s|) && Pointers(s, all, g.l, g.r, g.p)
  }

  ghost function PutL(g: Tree, i: int, c: int): Tree
    requires 0 <= i < |g.l| && c < |g.p|
  {
    g.(l := g.l[i := c], p := if c >= 0 then g.p[c := i] else g.p)
  }

  ghost function PutR(g: Tree, i: int, c: int): Tree
    requires 0 <= i < |g.r| && c < |g.p|
  {
    g.(r := g.r[i := c], p := if c >= 0 then g.p[c := i] else g.p)
  }

  ghost function Reseat(g: Tree, n: nat, z: int, y: int, x: int): Tree
    requires Sized(g, n) && -1 <= z < n && 0 <= y < n && 0 <= x < n
  {
    if z < 0 then g.(p := g.p[x := NIL]) else if g.l[z] == y then PutL(g, z, x) else PutR(g, z, x)
  }

  method SetLeft(ghost s: seq<Node>, ghost all: set<Node>, ghost g: Tree, u: Node, w: Node?) returns (ghost g': Tree)
    requires Wired(s, all, g) && Has(s, all, u) && (w == null || (Has(s, all, w) && w != u))
    modifies all`left, all`parent
    ensures Wired(s, all, g') && g' == PutL(g, u.pos, Ix(w))
  {
    u.left := w;
    if w != null { w.parent := u; }
    g' := PutL(g, u.pos, Ix(w));
  }

  method SetRight(ghost s: seq<Node>, ghost all: set<Node>, ghost g: Tree, u: Node, w: Node?) returns (ghost g': Tree)
    requires Wired(s, all, g) && Has(s, all, u) && (w == null || (Has(s, all, w) && w != u))
    modifies all`right, all`parent
    ensures Wired(s, all, g') && g' == PutR(g, u.pos, Ix(w))
  {
    u.right := w;
    if w != null { w.parent := u; }
    g' := PutR(g, u.pos, Ix(w));
  }

  method ClearParent(ghost s: seq<Node>, ghost all: set<Node>, ghost g: Tree, u: Node) returns (ghost g': Tree)
    requires Wired(s, all, g) && Has(s, all, u)
    modifies all`parent
    ensures Wired(s, all, g') && g' == g.(p := g.p[u.pos := NIL])
  {
    u.parent := null;
    g' := g.(p := g.p[u.pos := NIL]);
  }

  method HangLeft(ghost s: seq<Node>, ghost all: set<Node>, ghost g: Tree, u: Node, w: Node) returns (ghost g': Tree)
    requires Wired(s, all, g) && Has(s, all, w) && w != u && (Has(s, all, u) || u !in all)
    modifies all`left, all`parent, u`left
    ensures Wired(s, all, g') && u.left == w
    ensures g' == if u in all then PutL(g, u.pos, w.pos) else g.(p := g.p[w.pos := HEADER])
  {
    u.left := w;
    w.parent := u;
    g' := if u in all then PutL(g, u.pos, w.pos) else g.(p := g.p[w.pos := HEADER]);
  }

  method Replace(ghost s: seq<Node>, ghost all: set<Node>, ghost g: Tree, z: Node?, y: Node, x: Node)
      returns (ghost g': Tree)
    requires Wired(s, all, g) && Has(s, all, y) && Has(s, all, x) && (z == null || (Has(s, all, z) && z != x))
    modifies all`left, all`right, all`parent
    ensures Wired(s, all, g') && g' == Reseat(g, |s|, Ix(z), y.pos, x.pos)
  {
    if z == null {
      g' := ClearParent(s, all, g, x);
    } else if z.left == y {
      g' := SetLeft(s, all, g, z, x);
    } else {
      g' := SetRight(s, all, g, z, x);
    }
  }

  method SwingRight(ghost s: seq<Node>, ghost all: set<Node>, ghost g: Tree, y: Node, x: Node) returns (ghost g': Tree)
    requires Wired(s, all, g) && Has(s, all, y) && Has(s, all, x) && x != y && x.right != y && x.right != x
    modifies all`left, all`right, all`parent
    ensures Wired(s, all, g') && g' == PutR(PutL(g, y.pos, g.r[x.pos]), x.pos, y.pos)
  {
    g' := SetLeft(s, all, g, y, x.right);
    g' := SetRight(s, all, g', x, y);
  }

  ghost predicate RotRReady(g: Tree, n: nat, k: int) {
    && Sized(g, n) && 0 <= k < n && 0 <= g.l[k] < k
    && var x := g.l[k]; var m := g.r[x]; var z := g.p[k];
    && (m == NIL || x < m < k) && -1 <= z < n && z != x && z != k && (z >= 0 ==> z != m)
  }

  lemma RotRSteps(g: Tree, n: nat, k: int)
    requires RotRReady(g, n, k)
    ensures var x := g.l[k]; var g1 := PutR(PutL(g, k, g.r[x]), x, k); var g2 := Reseat(g1, n, g.p[k], k, x);
            g2.(lo := g.lo[k := x + 1], hi := g.hi[x := g.hi[k]]) == RotR(g, n, k)
  {
    var x := g.l[k]; var g1 := PutR(PutL(g, k, g.r[x]), x, k); var g2 := Reseat(g1, n, g.p[k], k, x);
    var h := RotR(g, n, k);
    assert g2.l == h.l;
    assert g2.r == h.r;
    assert g2.p == h.p;
  }

  /** Lift the left child of `y` above `y`. */
  method RotateRight(ghost s: seq<Node>, ghost all: set<Node>, ghost g: Tree, y: Node) returns (ghost g': Tree)
    requires Wired(s, all, g) && Has(s, all, y) && RotRReady(g, |s|, y.pos)
    modifies all`left, all`right, all`parent
    ensures g' == RotR(g, |s|, y.pos) && Wired(s, all, g')
  {
    ghost var k := y.pos;
    ghost var i := g.l[k];
    RotRSteps(g, |s|, k);
    var x := y.left;
    var z := y.parent;
    assert x == s[i] && Ix(z) == g.p[k];
    assert z == null || (z == s[g.p[k]] && Has(s, all, z));
    assert x.right == Ptr(s, g.r[i]);
    ghost var g1 := SwingRight(s, all, g, y, x);
    assert g1 == PutR(PutL(g, k, g.r[i]), i, k);
    ghost var g2 := Replace(s, all, g1, z, y, x);
    assert g2 == Reseat(g1, |s|, g.p[k], k, i);
    g' := g2.(lo := g.lo[k := i + 1], hi := g.hi[i := g.hi[k]]);
  }

  method LinkRight(ghost s: seq<Node>, ghost all: set<Node>, ghost g: Tree, r: Node, ghost rh: Node, rb: Node,
      ghost t: int) returns (r': Node, ghost g': Tree)
    requires Wired(s, all, g) && Has(s, all, r) && CanLinkR(g, |s|, r.pos) && g.l[r.pos] < r.pos < g.hi[r.pos]
    requires Bottom(s, all, rh, rb, g.hi[r.pos]) && rh !in all
    modifies all`left, all`parent, rb`left
    ensures Wired(s, all, g') && g' == LinkR(g, |s|, r.pos, t) && r' == s[g.l[r.pos]]
    ensures rh.left == if g.hi[r.pos] < |s| then old(rh.left) else r
  {
    r' := r.left;
    g' := HangLeft(s, all, g, rb, r);
    g' := SetLeft(s, all, g', r, null);
    g' := ClearParent(s, all, g', r');
    g' := g'.(lo := g.lo[r.pos := t + 1]);
  }

  // ----- the mirror images

  method HangRight(ghost s: seq<Node>, ghost all: set<Node>, ghost g: Tree, u: Node, w: Node) returns (ghost g': Tree)
    requires Wired(s, all, g) && Has(s, all, w) && w != u && (Has(s, all, u) || u !in all)
    modifies all`right, all`parent, u`right
    ensures Wired(s, all, g') && u.right == w
    ensures g' == if u in all then PutR(g, u.pos, w.pos) else g.(p := g.p[w.pos := HEADER])
  {
    u.right := w;
    w.parent := u;
    g' := if u in all then PutR(g, u.pos, w.pos) else g.(p := g.p[w.pos := HEADER]);
  }

  method SwingLeft(ghost s: seq<Node>, ghost all: set<Node>, ghost g: Tree, y: Node, x: Node) returns (ghost g': Tree)
    requires Wired(s, all, g) && Has(s, all, y) && Has(s, all, x) && x != y && x.left != y && x.left != x
    modifies all`left, all`right, all`parent
    ensures Wired(s, all, g') && g' == PutL(PutR(g, y.pos, g.l[x.pos]), x.pos, y.pos)
  {
    g' := SetRight(s, all, g, y, x.left);
    g' := SetLeft(s, all, g', x, y);
  }

  ghost predicate RotLReady(g: Tree, n: nat, k: int) {
    && Sized(g, n) && 0 <= k < n && k < g.r[k] < n
    && var x := g.r[k]; var m := g.l[x]; var z := g.p[k];
    && (m == NIL || k < m < x) && -1 <= z < n && z != x && z != k && (z >= 0 ==> z != m)
  }

  lemma RotLSteps(g: Tree, n: nat, k: int)
    requires RotLReady(g, n, k)
    ensures var x := g.r[k]; var g1 := PutL(PutR(g, k, g.l[x]), x, k); var g2 := Reseat(g1, n, g.p[k], k, x);
            g2.(lo := g.lo[x := g.lo[k]], hi := g.hi[k := x]) == RotL(g, n, k)
  {
    var x := g.r[k]; var g1 := PutL(PutR(g, k, g.l[x]), x, k); var g2 := Reseat(g1, n, g.p[k], k, x);
    var h := RotL(g, n, k);
    assert g2.l == h.l;
    assert g2.r == h.r;
    assert g2.p == h.p;
  }

  method RotateLeft(ghost s: seq<Node>, ghost all: set<Node>, ghost g: Tree, y: Node) returns (ghost g': Tree)
    requires Wired(s, all, g) && Has(s, all, y) && RotLReady(g, |s|, y.pos)
    modifies all`left, all`right, all`parent
    ensures g' == RotL(g, |s|, y.pos) && Wired(s, all, g')
  {
    ghost var k := y.pos;
    ghost var i := g.r[k];
    RotLSteps(g, |s|, k);
    var x := y.right;
    var z := y.parent;
    assert x == s[i] && Ix(z) == g.p[k];
    assert z == null || (z == s[g.p[k]] && Has(s, all, z));
    assert x.left == Ptr(s, g.l[i]);
    ghost var g1 := SwingLeft(s, all, g, y, x);
    assert g1 == PutL(PutR(g, k, g.l[i]), i, k);
    ghost var g2 := Replace(s, all, g1, z, y, x);
    assert g2 == Reseat(g1, |s|, g.p[k], k, i);
    g' := g2.(lo := g.lo[i := g.lo[k]], hi := g.hi[k := i]);
  }

  method LinkLeft(ghost s: seq<Node>, ghost all: set<Node>, ghost g: Tree, r: Node, ghost lh: Node, lb: Node,
      ghost t: int) returns (r': Node, ghost g': Tree)
    requires Wired(s, all, g) && Has(s, all, r) && CanLinkL(g, |s|, r.pos) && g.lo[r.pos] <= r.pos < g.r[r.pos]
    requires Bottom(s, all, lh, lb, g.lo[r.pos] - 1) && lh !in all
    modifies all`right, all`parent, lb`right
    ensures Wired(s, all, g') && g' == LinkL(g, |s|, r.pos, t) && r' == s[g.r[r.pos]]
    ensures lh.right == if g.lo[r.pos] > 0 then old(lh.right) else r
  {
    r' := r.right;
    assert r' == s[g.r[r.pos]];
    g' := HangRight(s, all, g, lb, r);
    g' := SetRight(s, all, g', r, null);
    g' := ClearParent(s, all, g', r');
    g' := g'.(hi := g.hi[r.pos := t]);
  }

  /** Node t keeps its children. */
  ghost predicate Keeps(g: Tree, g': Tree, t: int) {
    && 0 <= t < |g.l| && t < |g.r| && t < |g'.l| && t < |g'.r|
    && g'.l[t] == g.l[t] && g'.r[t] == g.r[t]
  }

  // ----- one step of splaying down, as the rotations and links it consists of

  /** The bottom of a detached tree: the node at position i, or the header while there is none. */
  ghost predicate Bottom(s: seq<Node>, all: set<Node>, header: Node, b: Node, i: int)
    reads b
  {
    if 0 <= i < |s| then Has(s, all, b) && b.pos == i else b == header
  }

  ghost predicate Stage(s: seq<Node>, all: set<Node>, g: Tree, v: View, r: Node, lh: Node, rh: Node, lb: Node, rb: Node)
    reads all, lh, rh, lb, rb
  {
    && Wired(s, all, g) && TreeOk(g, |s|, v) && r == s[v.root]
    && lh !in all && rh !in all && lh != rh
    && Bottom(s, all, lh, lb, g.lo[v.root] - 1) && Bottom(s, all, rh, rb, g.hi[v.root])
    && lh.right == Ptr(s, v.lt) && rh.left == Ptr(s, v.rt)
  }

  lemma RotRStage(g: Tree, n: nat, v: View)
    requires TreeOk(g, n, v) && g.l[v.root] != NIL
    ensures RotRReady(g, n, v.root)
    ensures var h := RotR(g, n, v.root); var x := g.l[v.root]; var v' := v.(root := x);
            && TreeOk(h, n, v') && h.lo[x] == g.lo[v.root] && h.hi[x] == g.hi[v.root]
            && h.l[x] == g.l[x] && (v.t < x ==> Keeps(g, h, v.t))
  {
    assert Spot(v.root) == v.root;
    assert Spot(g.l[v.root]) == g.l[v.root];
    RotRFacts(g, n, v, v.root);
    RotROk(g, n, v, v.root);
    RotRTops(g, n, v, v.root);
  }

  method RootRight(ghost s: seq<Node>, ghost all: set<Node>, ghost g: Tree, ghost v: View, r: Node, ghost lh: Node,
      ghost rh: Node, ghost lb: Node, ghost rb: Node)
    returns (r': Node, ghost g': Tree, ghost v': View)
    requires Stage(s, all, g, v, r, lh, rh, lb, rb) && g.l[v.root] != NIL
    modifies all`left, all`right, all`parent
    ensures Stage(s, all, g', v', r', lh, rh, lb, rb) && v' == v.(root := g.l[v.root])
    ensures v.t < g.l[v.root] ==> Keeps(g, g', v.t)
    ensures 0 <= v'.root < |s| && g'.l[v'.root] == g.l[v'.root]
    ensures g'.hi[v'.root] - g'.lo[v'.root] == g.hi[v.root] - g.lo[v.root]
  {
    RotRStage(g, |s|, v);
    r' := r.left;
    g' := RotateRight(s, all, g, r);
    v' := v.(root := g.l[v.root]);
  }

  lemma LinkRStage(g: Tree, n: nat, v: View)
    requires TreeOk(g, n, v) && g.l[v.root] != NIL && v.t < v.root
    ensures CanLinkR(g, n, v.root) && g.l[v.root] < v.root < g.hi[v.root]
    ensures var h := LinkR(g, n, v.root, v.t); var v' := LinkRView(g, n, v);
            && TreeOk(h, n, v') && h.lo[v'.root] == g.lo[v.root] && h.hi[v'.root] == v.root
            && Keeps(g, h, v.t) && Keeps(g, h, v'.root)
  {
    assert Spot(v.root) == v.root;
    LinkROk(g, n, v);
    LinkRFacts(g, n, v);
  }

  method RootToRight(ghost s: seq<Node>, ghost all: set<Node>, ghost g: Tree, ghost v: View, r: Node, ghost lh: Node,
      rh: Node, ghost lb: Node, rb: Node)
    returns (r': Node, rb': Node, ghost g': Tree, ghost v': View)
    requires Stage(s, all, g, v, r, lh, rh, lb, rb) && g.l[v.root] != NIL && v.t < v.root
    modifies all`left, all`parent, rb`left
    ensures Stage(s, all, g', v', r', lh, rh, lb, rb') && v'.t == v.t && v'.root == g.l[v.root]
    ensures Keeps(g, g', v.t) && Keeps(g, g', v'.root)
    ensures g'.hi[v'.root] - g'.lo[v'.root] < g.hi[v.root] - g.lo[v.root]
  {
    LinkRStage(g, |s|, v);
    v' := LinkRView(g, |s|, v);
    rb' := r;
    r', g' := LinkRight(s, all, g, r, rh, rb, v.t);
    assert TreeOk(g', |s|, v');
  }

  lemma RotLStage(g: Tree, n: nat, v: View)
    requires TreeOk(g, n, v) && g.r[v.root] != NIL
    ensures RotLReady(g, n, v.root)
    ensures var h := RotL(g, n, v.root); var x := g.r[v.root]; var v' := v.(root := x);
            && TreeOk(h, n, v') && h.lo[x] == g.lo[v.root] && h.hi[x] == g.hi[v.root]
            && h.r[x] == g.r[x] && (v.t > x ==> Keeps(g, h, v.t))
  {
    assert Spot(v.root) == v.root;
    assert Spot(g.r[v.root]) == g.r[v.root];
    RotLFacts(g, n, v, v.root);
    RotLOk(g, n, v, v.root);
    RotLTops(g, n, v, v.root);
  }

  method RootLeft(ghost s: seq<Node>, ghost all: set<Node>, ghost g: Tree, ghost v: View, r: Node, ghost lh: Node,
      ghost rh: Node, ghost lb: Node, ghost rb: Node)
    returns (r': Node, ghost g': Tree, ghost v': View)
    requires Stage(s, all, g, v, r, lh, rh, lb, rb) && g.r[v.root] != NIL
    modifies all`left, all`right, all`parent
    ensures Stage(s, all, g', v', r', lh, rh, lb, rb) && v' == v.(root := g.r[v.root])
    ensures v.t > g.r[v.root] ==> Keeps(g, g', v.t)
    ensures 0 <= v'.root < |s| && g'.r[v'.root] == g.r[v'.root]
    ensures g'.hi[v'.root] - g'.lo[v'.root] == g.hi[v.root] - g.lo[v.root]
  {
    RotLStage(g, |s|, v);
    r' := r.right;
    g' := RotateLeft(s, all, g, r);
    v' := v.(root := g.r[v.root]);
  }

  lemma LinkLStage(g: Tree, n: nat, v: View)
    requires TreeOk(g, n, v) && g.r[v.root] != NIL && v.t > v.root
    ensures CanLinkL(g, n, v.root) && g.lo[v.root] <= v.root < g.r[v.root]
    ensures var h := LinkL(g, n, v.root, v.t); var v' := LinkLView(g, n, v);
            && TreeOk(h, n, v') && h.lo[v'.root] == v.root + 1 && h.hi[v'.root] == g.hi[v.root]
            && Keeps(g, h, v.t) && Keeps(g, h, v'.root)
  {
    assert Spot(v.root) == v.root;
    LinkLOk(g, n, v);
    LinkLFacts(g, n, v);
  }

  method RootToLeft(ghost s: seq<Node>, ghost all: set<Node>, ghost g: Tree, ghost v: View, r: Node, lh: Node,
      ghost rh: Node, lb: Node, ghost rb: Node)
    returns (r': Node, lb': Node, ghost g': Tree, ghost v': View)
    requires Stage(s, all, g, v, r, lh, rh, lb, rb) && g.r[v.root] != NIL && v.t > v.root
    modifies all`right, all`parent, lb`right
    ensures Stage(s, all, g', v', r', lh, rh, lb', rb) && v'.t == v.t && v'.root == g.r[v.root]
    ensures Keeps(g, g', v.t) && Keeps(g, g', v'.root)
    ensures g'.hi[v'.root] - g'.lo[v'.root] < g.hi[v.root] - g.lo[v.root]
  {
    LinkLStage(g, |s|, v);
    v' := LinkLView(g, |s|, v);
    lb' := r;
    r', g' := LinkLeft(s, all, g, r, lh, lb, v.t);
    assert TreeOk(g', |s|, v');
  }

  // ----- putting the detached trees back

  lemma MergeReady(g: Tree, n: nat, v: View)
    requires TreeOk(g, n, v) && v.root == v.t
    ensures CanMerge(g, n, v) && TreeOk(MergeL(g, n, v), n, v.(lt := NIL))
    ensures MergeL(g, n, v).hi[v.root] == g.hi[v.root] && MergeL(g, n, v).lo[v.root] == 0
    ensures v.lt != NIL ==> g.lo[v.root] > 0 && g.l[v.root] != g.lo[v.root] - 1 && v.lt != v.root
  {
    assert Spot(v.root) == v.root;
    MergeLOk(g, n, v);
    if v.lt != NIL { MergeLFacts(g, n, v); }
  }

  /** The left tree of r moves under lb, and `top` takes its place. */
  method SpliceLeft(ghost s: seq<Node>, ghost all: set<Node>, ghost g: Tree, r: Node, lb: Node, top: Node)
      returns (ghost g': Tree)
    requires Wired(s, all, g) && Has(s, all, r) && Has(s, all, lb) && Has(s, all, top)
    requires g.l[r.pos] != lb.pos && top != r
    modifies all`left, all`right, all`parent
    ensures Wired(s, all, g')
    ensures g' == PutL(if g.l[r.pos] >= 0 then PutR(g, lb.pos, g.l[r.pos]) else g, r.pos, top.pos)
  {
    g' := g;
    if r.left != null {
      g' := SetRight(s, all, g', lb, r.left);
    }
    g' := SetLeft(s, all, g', r, top);
  }

  lemma MergedLeft(g: Tree, n: nat, v: View)
    requires CanMerge(g, n, v) && v.lt != NIL && 0 <= v.lt < n && g.lo[v.root] > 0 && g.l[v.root] < n
    ensures var g' := if g.l[v.root] >= 0 then PutR(g, g.lo[v.root] - 1, g.l[v.root]) else g;
            PutL(g', v.root, v.lt).(lo := g.lo[v.root := 0]) == MergeL(g, n, v)
  {
  }

  method MergeLeft(ghost s: seq<Node>, ghost all: set<Node>, ghost g: Tree, ghost v: View, r: Node, lh: Node, lb: Node)
      returns (ghost g': Tree)
    requires Wired(s, all, g) && TreeOk(g, |s|, v) && v.root == v.t && r == s[v.root] && lh !in all
    requires Bottom(s, all, lh, lb, g.lo[v.root] - 1) && lh.right == Ptr(s, v.lt)
    modifies all`left, all`right, all`parent
    ensures Wired(s, all, g') && CanMerge(g, |s|, v) && g' == MergeL(g, |s|, v)
  {
    MergeReady(g, |s|, v);
    g' := g;
    if lh.right != null {
      var top := lh.right;
      assert top == s[v.lt];
      assert r.pos == v.root && lb.pos == g.lo[v.root] - 1 && top.pos == v.lt;
      MergedLeft(g, |s|, v);
      g' := SpliceLeft(s, all, g, r, lb, top);
      g' := g'.(lo := g.lo[v.root := 0]);
    }
  }

  lemma MergeRReady(g: Tree, n: nat, v: View)
    requires TreeOk(g, n, v) && v.root == v.t && v.lt == NIL
    ensures CanMerge(g, n, v) && TreeOk(MergeR(g, n, v), n, Whole(v.root))
    ensures v.rt != NIL ==> g.hi[v.root] < n && g.r[v.root] != g.hi[v.root] && v.rt != v.root
  {
    assert Spot(v.root) == v.root;
    MergeROk(g, n, v);
    if v.rt != NIL { MergeRFacts(g, n, v); }
  }

  method MergeRight(ghost s: seq<Node>, ghost all: set<Node>, ghost g: Tree, ghost v: View, r: Node, rh: Node,
      rb: Node) returns (ghost g': Tree)
    requires Wired(s, all, g) && TreeOk(g, |s|, v) && v.root == v.t && v.lt == NIL && r == s[v.root] && rh !in all
    requires Bottom(s, all, rh, rb, g.hi[v.root]) && rh.left == Ptr(s, v.rt)
    modifies all`left, all`right, all`parent
    ensures Wired(s, all, g') && TreeOk(g', |s|, Whole(v.root))
  {
    MergeRReady(g, |s|, v);
    g' := g;
    if rh.left != null {
      if r.right != null {
        g' := SetLeft(s, all, g', rb, r.right);
      }
      g' := SetRight(s, all, g', r, rh.left);
      g' := g'.(hi := g.hi[v.root := |s|]);
    }
    assert g' == MergeR(g, |s|, v);
  }

  // ----- splaying from the top down

  /** The search goes left twice. */
  method ZigZigLeft(ghost s: seq<Node>, ghost all: set<Node>, ghost g: Tree, ghost v: View, r: Node, ghost lh: Node,
      rh: Node, ghost lb: Node, rb: Node)
    returns (r': Node, rb': Node, ghost g': Tree, ghost v': View)
    requires Stage(s, all, g, v, r, lh, rh, lb, rb)
    requires 0 <= g.l[v.root] < |s| && g.l[g.l[v.root]] != NIL && v.t < g.l[v.root]
    modifies all`left, all`right, all`parent, rb`left
    ensures Stage(s, all, g', v', r', lh, rh, lb, rb') && v'.t == v.t && Keeps(g, g', v.t)
    ensures g'.hi[v'.root] - g'.lo[v'.root] < g.hi[v.root] - g.lo[v.root]
  {
    var r1;
    ghost var g1, v1;
    r1, g1, v1 := RootRight(s, all, g, v, r, lh, rh, lb, rb);
    r', rb', g', v' := RootToRight(s, all, g1, v1, r1, lh, rh, lb, rb);
  }

  /** The search goes left, then right. */
  method ZigZagLeft(ghost s: seq<Node>, ghost all: set<Node>, ghost g: Tree, ghost v: View, r: Node, lh: Node,
      rh: Node, lb: Node, rb: Node)
    returns (r': Node, lb': Node, rb': Node, ghost g': Tree, ghost v': View)
    requires Stage(s, all, g, v, r, lh, rh, lb, rb)
    requires 0 <= g.l[v.root] < |s| && g.r[g.l[v.root]] != NIL && g.l[v.root] < v.t < v.root
    modifies all`left, all`right, all`parent, lb`right, rb`left
    ensures Stage(s, all, g', v', r', lh, rh, lb', rb') && v'.t == v.t && Keeps(g, g', v.t)
    ensures g'.hi[v'.root] - g'.lo[v'.root] < g.hi[v.root] - g.lo[v.root]
  {
    var r1;
    ghost var g1, v1;
    r1, rb', g1, v1 := RootToRight(s, all, g, v, r, lh, rh, lb, rb);
    r', lb', g', v' := RootToLeft(s, all, g1, v1, r1, lh, rh, lb, rb');
  }

  method ZigZigRight(ghost s: seq<Node>, ghost all: set<Node>, ghost g: Tree, ghost v: View, r: Node, lh: Node,
      ghost rh: Node, lb: Node, ghost rb: Node)
    returns (r': Node, lb': Node, ghost g': Tree, ghost v': View)
    requires Stage(s, all, g, v, r, lh, rh, lb, rb)
    requires 0 <= g.r[v.root] < |s| && g.r[g.r[v.root]] != NIL && v.t > g.r[v.root]
    modifies all`left, all`right, all`parent, lb`right
    ensures Stage(s, all, g', v', r', lh, rh, lb', rb) && v'.t == v.t && Keeps(g, g', v.t)
    ensures g'.hi[v'.root] - g'.lo[v'.root] < g.hi[v.root] - g.lo[v.root]
  {
    var r1;
    ghost var g1, v1;
    r1, g1, v1 := RootLeft(s, all, g, v, r, lh, rh, lb, rb);
    r', lb', g', v' := RootToLeft(s, all, g1, v1, r1, lh, rh, lb, rb);
  }

  method ZigZagRight(ghost s: seq<Node>, ghost all: set<Node>, ghost g: Tree, ghost v: View, r: Node, lh: Node,
      rh: Node, lb: Node, rb: Node)
    returns (r': Node, lb': Node, rb': Node, ghost g': Tree, ghost v': View)
    requires Stage(s, all, g, v, r, lh, rh, lb, rb)
    requires 0 <= g.r[v.root] < |s| && g.l[g.r[v.root]] != NIL && v.root < v.t < g.r[v.root]
    modifies all`left, all`right, all`parent, lb`right, rb`left
    ensures Stage(s, all, g', v', r', lh, rh, lb', rb') && v'.t == v.t && Keeps(g, g', v.t)
    ensures g'.hi[v'.root] - g'.lo[v'.root] < g.hi[v.root] - g.lo[v.root]
  {
    var r1;
    ghost var g1, v1;
    r1, lb', g1, v1 := RootToLeft(s, all, g, v, r, lh, rh, lb, rb);
    r', rb', g', v' := RootToRight(s, all, g1, v1, r1, lh, rh, lb', rb);
  }

  function Compare(a: int, b: int): int { if a < b then -1 else if a == b then 0 else 1 }

  ghost function Keys(s: seq<Node>): (keys: seq<int>)
    ensures |keys| == |s| && forall i :: 0 <= i < |s| ==> keys[i] == s[i].key
  {
    seq(|s|, i requires 0 <= i < |s| => s[i].key)
  }

  /** Where the target lies, seen from the root and, on that side, from its child. */
  lemma AimFromLeft(g: Tree, n: nat, v: View, keys: seq<int>, x: int)
    requires TreeOk(g, n, v) && n == |keys| && Sorted(keys) && Target(g, keys, x, v.t) && x < keys[v.root]
             && g.l[v.root] != NIL
    ensures 0 <= g.l[v.root] < v.root && v.t < v.root
    ensures var c := g.l[v.root];
            && (x < keys[c] ==> if g.l[c] != NIL then v.t < c else v.t == c)
            && (x > keys[c] ==> if g.r[c] != NIL then c < v.t else v.t == c)
            && (x == keys[c] ==> v.t == c)
  {
    AimLeft(g, n, v, keys, x);
    assert Spot(v.root) == v.root;
    assert Spot(g.l[v.root]) == g.l[v.root];
  }

  lemma AimFromRight(g: Tree, n: nat, v: View, keys: seq<int>, x: int)
    requires TreeOk(g, n, v) && n == |keys| && Sorted(keys) && Target(g, keys, x, v.t) && x > keys[v.root]
             && g.r[v.root] != NIL
    ensures v.root < g.r[v.root] < n && v.root < v.t
    ensures var c := g.r[v.root];
            && (x < keys[c] ==> if g.l[c] != NIL then v.t < c else v.t == c)
            && (x > keys[c] ==> if g.r[c] != NIL then c < v.t else v.t == c)
            && (x == keys[c] ==> v.t == c)
  {
    AimRight(g, n, v, keys, x);
    assert Spot(v.root) == v.root;
    assert Spot(g.r[v.root]) == g.r[v.root];
  }

  /** The search goes left at `r`, which has a left child. */
  method StepLeft(ghost s: seq<Node>, ghost all: set<Node>, ghost g: Tree, ghost v: View, r: Node, lh: Node, rh: Node,
      lb: Node, rb: Node, x: int)
    returns (r': Node, lb': Node, rb': Node, c: int, done: bool, ghost g': Tree, ghost v': View)
    requires Stage(s, all, g, v, r, lh, rh, lb, rb) && g.l[v.root] != NIL
    requires Sorted(Keys(s)) && Target(g, Keys(s), x, v.t) && x < r.key
    modifies all`left, all`right, all`parent, lb`right, rb`left
    ensures Stage(s, all, g', v', r', lh, rh, lb', rb') && v'.t == v.t && Keeps(g, g', v.t)
    ensures if done then v'.root == v.t && c == Compare(x, r'.key)
            else g'.hi[v'.root] - g'.lo[v'.root] < g.hi[v.root] - g.lo[v.root]
  {
    AimFromLeft(g, |s|, v, Keys(s), x);
    var child := r.left;
    c := Compare(x, child.key);
    lb', done := lb, false;
    if c < 0 && child.left != null {
      r', rb', g', v' := ZigZigLeft(s, all, g, v, r, lh, rh, lb, rb);
    } else if c > 0 && child.right != null {
      r', lb', rb', g', v' := ZigZagLeft(s, all, g, v, r, lh, rh, lb, rb);
    } else {
      r', rb', g', v' := RootToRight(s, all, g, v, r, lh, rh, lb, rb);
      done := true;
    }
  }

  method StepRight(ghost s: seq<Node>, ghost all: set<Node>, ghost g: Tree, ghost v: View, r: Node, lh: Node, rh: Node,
      lb: Node, rb: Node, x: int)
    returns (r': Node, lb': Node, rb': Node, c: int, done: bool, ghost g': Tree, ghost v': View)
    requires Stage(s, all, g, v, r, lh, rh, lb, rb) && g.r[v.root] != NIL
    requires Sorted(Keys(s)) && Target(g, Keys(s), x, v.t) && x > r.key
    modifies all`left, all`right, all`parent, lb`right, rb`left
    ensures Stage(s, all, g', v', r', lh, rh, lb', rb') && v'.t == v.t && Keeps(g, g', v.t)
    ensures if done then v'.root == v.t && c == Compare(x, r'.key)
            else g'.hi[v'.root] - g'.lo[v'.root] < g.hi[v.root] - g.lo[v.root]
  {
    AimFromRight(g, |s|, v, Keys(s), x);
    var child := r.right;
    c := Compare(x, child.key);
    rb', done := rb, false;
    if c > 0 && child.right != null {
      r', lb', g', v' := ZigZigRight(s, all, g, v, r, lh, rh, lb, rb);
    } else if c < 0 && child.left != null {
      r', lb', rb', g', v' := ZigZagRight(s, all, g, v, r, lh, rh, lb, rb);
    } else {
      r', lb', g', v' := RootToLeft(s, all, g, v, r, lh, rh, lb, rb);
      done := true;
    }
  }

  ghost predicate InTree(s: seq<Node>, all: set<Node>, g: Tree, root: Node)
    reads all`left, all`right, all`parent, all`pos, root`pos
  {
    Wired(s, all, g) && root in all && 0 <= root.pos < |s| && s[root.pos] == root && TreeOk(g, |s|, Whole(root.pos))
  }

  /** Where the non-splaying search for x ends. */
  ghost function Goal(g: Tree, s: seq<Node>, root: int, x: int): (t: int)
    requires TreeOk(g, |s|, Whole(root)) && Sorted(Keys(s))
    ensures 0 <= t < |s| && Target(g, Keys(s), x, t)
  {
    EntersRoot(g, Keys(s), root, x);
    Closest(g, Keys(s), root, x, root)
  }

  /** Compare with the root and take one step; `done` when the search ends at the root. */
  method Step(ghost s: seq<Node>, ghost all: set<Node>, ghost g: Tree, ghost v: View, r: Node, lh: Node, rh: Node,
      lb: Node, rb: Node, x: int)
    returns (r': Node, lb': Node, rb': Node, c: int, done: bool, ghost g': Tree, ghost v': View)
    requires Stage(s, all, g, v, r, lh, rh, lb, rb) && Sorted(Keys(s)) && Target(g, Keys(s), x, v.t)
    modifies all`left, all`right, all`parent, lb`right, rb`left
    ensures Stage(s, all, g', v', r', lh, rh, lb', rb') && v'.t == v.t && Target(g', Keys(s), x, v.t)
    ensures if done then v'.root == v.t && c == Compare(x, r'.key)
            else g'.hi[v'.root] - g'.lo[v'.root] < g.hi[v.root] - g.lo[v.root]
  {
    c := Compare(x, r.key);
    if c < 0 && r.left != null {
      r', lb', rb', c, done, g', v' := StepLeft(s, all, g, v, r, lh, rh, lb, rb, x);
    } else if c > 0 && r.right != null {
      r', lb', rb', c, done, g', v' := StepRight(s, all, g, v, r, lh, rh, lb, rb, x);
    } else {
      r', lb', rb', done, g', v' := r, lb, rb, true, g, v;
      EndsHere(g, |s|, v, Keys(s), x);
    }
  }

  lemma EndsHere(g: Tree, n: nat, v: View, keys: seq<int>, x: int)
    requires TreeOk(g, n, v) && n == |keys| && Sorted(keys) && Target(g, keys, x, v.t)
    requires x < keys[v.root] ==> g.l[v.root] == NIL
    requires x > keys[v.root] ==> g.r[v.root] == NIL
    ensures v.t == v.root
  {
    if x < keys[v.root] { AimLeft(g, n, v, keys, x); }
    else if x > keys[v.root] { AimRight(g, n, v, keys, x); }
    else { AimHere(g, n, v, keys, x); }
  }

  /** Put both detached trees back under the root. */
  method Merge(ghost s: seq<Node>, ghost all: set<Node>, ghost g: Tree, ghost v: View, r: Node, lh: Node, rh: Node,
      lb: Node, rb: Node)
    returns (ghost g': Tree)
    requires Stage(s, all, g, v, r, lh, rh, lb, rb) && v.root == v.t
    modifies all`left, all`right, all`parent
    ensures InTree(s, all, g', r)
  {
    MergeReady(g, |s|, v);
    ghost var g1 := MergeLeft(s, all, g, v, r, lh, lb);
    g' := MergeRight(s, all, g1, v.(lt := NIL), r, rh, rb);
  }

  /** Search for x, moving the node where the search ends to the root. */
  method TopDown(ghost s: seq<Node>, ghost all: set<Node>, ghost g: Tree, root: Node, x: int)
    returns (r: Node, c: int, ghost g': Tree)
    requires InTree(s, all, g, root) && Sorted(Keys(s))
    modifies all`left, all`right, all`parent
    ensures InTree(s, all, g', r)
    ensures r == s[Goal(g, s, root.pos, x)] && c == Compare(x, r.key)
  {
    ghost var t := Goal(g, s, root.pos, x);
    var lh := new Node(0);
    var rh := new Node(0);
    var lb, rb := lh, rh;
    ghost var v := View(root.pos, NIL, NIL, t);
    r, g' := root, g;
    WholeStage(g, |s|, root.pos, t);
    var done := false;
    c := 0;
    while !done
      invariant Stage(s, all, g', v, r, lh, rh, lb, rb) && v.t == t && Target(g', Keys(s), x, t)
      invariant done ==> v.root == t && c == Compare(x, r.key)
      decreases if done then 0 else 1, g'.hi[v.root] - g'.lo[v.root]
    {
      r, lb, rb, c, done, g', v := Step(s, all, g', v, r, lh, rh, lb, rb, x);
    }
    g' := Merge(s, all, g', v, r, lh, rh, lb, rb);
  }

  lemma WholeStage(g: Tree, n: nat, root: int, t: int)
    requires TreeOk(g, n, Whole(root)) && 0 <= t < n
    ensures TreeOk(g, n, View(root, NIL, NIL, t)) && g.lo[root] == 0 && g.hi[root] == n
  {
    forall i | 0 <= i < n ensures NodeOk(g, n, Spot(i), View(root, NIL, NIL, t)) {
      assert NodeOk(g, n, Spot(i), Whole(root));
    }
  }

  // ----- splaying from the bottom up

  ghost predicate CanLift(g: Tree, n: nat, root: int, k: int) {
    TreeOk(g, n, Whole(root)) && 0 <= k < n && 0 <= g.p[k] < n
  }

  /** The child k and its parent change places. */
  ghost function Lifted(g: Tree, n: nat, root: int, k: int): Tree
    requires CanLift(g, n, root, k)
  {
    var q := g.p[k];
    assert NodeOk(g, n, Spot(k), Whole(root)) && NodeOk(g, n, Spot(q), Whole(root));
    if g.l[q] == k then RotR(g, n, q) else RotL(g, n, q)
  }

  ghost function LiftedRoot(g: Tree, root: int, k: int): int
    requires 0 <= k < |g.p|
  {
    if g.p[k] == root then k else root
  }

  lemma LiftRight(g: Tree, n: nat, root: int, k: int)
    requires CanLift(g, n, root, k) && g.l[g.p[k]] == k
    ensures RotRReady(g, n, g.p[k])
    ensures var q := g.p[k]; var g' := RotR(g, n, q);
            && TreeOk(g', n, Whole(LiftedRoot(g, root, k)))
            && g'.hi[k] - g'.lo[k] > g.hi[k] - g.lo[k] && g'.p[k] == g.p[q]
  {
    var q := g.p[k];
    assert Spot(q) == q && Spot(k) == k;
    RotRFacts(g, n, Whole(root), q);
    RotROk(g, n, Whole(root), q);
    if q == root { WholeView(RotR(g, n, q), n, k, root); }
  }

  lemma LiftLeft(g: Tree, n: nat, root: int, k: int)
    requires CanLift(g, n, root, k) && g.l[g.p[k]] != k
    ensures RotLReady(g, n, g.p[k])
    ensures var q := g.p[k]; var g' := RotL(g, n, q);
            && TreeOk(g', n, Whole(LiftedRoot(g, root, k)))
            && g'.hi[k] - g'.lo[k] > g.hi[k] - g.lo[k] && g'.p[k] == g.p[q]
  {
    var q := g.p[k];
    assert Spot(q) == q && Spot(k) == k;
    RotLFacts(g, n, Whole(root), q);
    RotLOk(g, n, Whole(root), q);
    if q == root { WholeView(RotL(g, n, q), n, k, root); }
  }

  lemma LiftOk(g: Tree, n: nat, root: int, k: int)
    requires CanLift(g, n, root, k)
    ensures var g' := Lifted(g, n, root, k);
            && TreeOk(g', n, Whole(LiftedRoot(g, root, k)))
            && g'.hi[k] - g'.lo[k] > g.hi[k] - g.lo[k] && g'.p[k] == g.p[g.p[k]]
  {
    if g.l[g.p[k]] == k { LiftRight(g, n, root, k); } else { LiftLeft(g, n, root, k); }
  }

  /** Lifting the parent of a node on the outer side leaves the node where it was. */
  lemma LiftParent(g: Tree, n: nat, root: int, k: int)
    requires CanLift(g, n, root, k) && CanLift(g, n, root, g.p[k])
    requires (g.l[g.p[k]] == k) == (g.l[g.p[g.p[k]]] == g.p[k])
    ensures var g' := Lifted(g, n, root, g.p[k]);
            && TreeOk(g', n, Whole(LiftedRoot(g, root, g.p[k])))
            && CanLift(g', n, LiftedRoot(g, root, g.p[k]), k) && g'.hi[k] == g.hi[k] && g'.lo[k] == g.lo[k]
  {
    var q := g.p[k];
    var z := g.p[q];
    assert Spot(k) == k && Spot(q) == q && Spot(z) == z;
    LiftOk(g, n, root, q);
    if g.l[z] == q { RotRFacts(g, n, Whole(root), z); } else { RotLFacts(g, n, Whole(root), z); }
  }

  lemma WholeView(g: Tree, n: nat, root: int, t: int)
    requires TreeOk(g, n, View(root, NIL, NIL, t))
    ensures TreeOk(g, n, Whole(root))
  {
    assert Spot(root) == root;
    forall i | 0 <= i < n ensures NodeOk(g, n, Spot(i), Whole(root)) {
      assert NodeOk(g, n, Spot(i), View(root, NIL, NIL, t));
    }
  }

  /** Rotate `node` above its parent. */
  method Lift(ghost s: seq<Node>, ghost all: set<Node>, ghost g: Tree, ghost root: int, node: Node)
    returns (ghost g': Tree, ghost root': int)
    requires Wired(s, all, g) && Has(s, all, node) && CanLift(g, |s|, root, node.pos)
    modifies all`left, all`right, all`parent
    ensures Wired(s, all, g')
    ensures g' == Lifted(g, |s|, root, node.pos) && root' == LiftedRoot(g, root, node.pos)
  {
    root' := LiftedRoot(g, root, node.pos);
    var parent := node.parent;
    assert parent == s[g.p[node.pos]];
    if node == parent.left {
      LiftRight(g, |s|, root, node.pos);
      g' := RotateRight(s, all, g, parent);
    } else {
      LiftLeft(g, |s|, root, node.pos);
      g' := RotateLeft(s, all, g, parent);
    }
  }

  /** Zig: the parent is the root. */
  method LiftOnce(ghost s: seq<Node>, ghost all: set<Node>, ghost g: Tree, ghost root: int, node: Node)
    returns (ghost g': Tree, ghost root': int)
    requires Wired(s, all, g) && Has(s, all, node) && CanLift(g, |s|, root, node.pos)
    modifies all`left, all`right, all`parent
    ensures Wired(s, all, g') && TreeOk(g', |s|, Whole(root'))
    ensures g'.hi[node.pos] - g'.lo[node.pos] > g.hi[node.pos] - g.lo[node.pos]
    ensures g'.p[node.pos] == g.p[g.p[node.pos]]
  {
    LiftOk(g, |s|, root, node.pos);
    g', root' := Lift(s, all, g, root, node);
  }

  /** Zig-zig: first the parent, then the node. */
  method LiftOuter(ghost s: seq<Node>, ghost all: set<Node>, ghost g: Tree, ghost root: int, node: Node, parent: Node)
    returns (ghost g': Tree, ghost root': int)
    requires Wired(s, all, g) && Has(s, all, node) && Has(s, all, parent)
    requires CanLift(g, |s|, root, node.pos) && parent.pos == g.p[node.pos] && CanLift(g, |s|, root, parent.pos)
    requires (g.l[parent.pos] == node.pos) == (g.l[g.p[parent.pos]] == parent.pos)
    modifies all`left, all`right, all`parent
    ensures Wired(s, all, g') && TreeOk(g', |s|, Whole(root'))
    ensures g'.hi[node.pos] - g'.lo[node.pos] > g.hi[node.pos] - g.lo[node.pos]
  {
    LiftParent(g, |s|, root, node.pos);
    g', root' := Lift(s, all, g, root, parent);
    g', root' := LiftOnce(s, all, g', root', node);
  }

  /** One round: zig at the top, zig-zig or zig-zag further down. */
  method LiftRound(ghost s: seq<Node>, ghost all: set<Node>, ghost g: Tree, ghost root: int, node: Node)
    returns (ghost g': Tree, ghost root': int)
    requires Wired(s, all, g) && Has(s, all, node) && CanLift(g, |s|, root, node.pos)
    modifies all`left, all`right, all`parent
    ensures Wired(s, all, g') && TreeOk(g', |s|, Whole(root'))
    ensures g'.hi[node.pos] - g'.lo[node.pos] > g.hi[node.pos] - g.lo[node.pos]
  {
    ghost var k := node.pos;
    assert NodeOk(g, |s|, Spot(k), Whole(root)) && NodeOk(g, |s|, Spot(g.p[k]), Whole(root));
    var parent := node.parent;
    assert parent == s[g.p[k]];
    var grandparent := parent.parent;
    assert grandparent == Ptr(s, g.p[g.p[k]]);
    if grandparent == null {
      g', root' := LiftOnce(s, all, g, root, node);
    } else if (node == parent.left) == (parent == grandparent.left) {
      g', root' := LiftOuter(s, all, g, root, node, parent);
    } else {
      g', root' := LiftOnce(s, all, g, root, node);
      g', root' := LiftOnce(s, all, g', root', node);
    }
  }

  /** Move `node` to the root. */
  method BottomUp(ghost s: seq<Node>, ghost all: set<Node>, ghost g: Tree, ghost root: int, node: Node)
      returns (ghost g': Tree)
    requires Wired(s, all, g) && Has(s, all, node) && TreeOk(g, |s|, Whole(root))
    modifies all`left, all`right, all`parent
    ensures InTree(s, all, g', node)
  {
    g' := g;
    ghost var rt, k := root, node.pos;
    assert NodeOk(g', |s|, Spot(k), Whole(rt));
    while node.parent != null
      invariant Wired(s, all, g') && TreeOk(g', |s|, Whole(rt)) && NodeOk(g', |s|, k, Whole(rt))
      decreases |s| - (g'.hi[k] - g'.lo[k])
    {
      g', rt := LiftRound(s, all, g', rt, node);
      assert NodeOk(g', |s|, Spot(k), Whole(rt));
    }
  }
}
