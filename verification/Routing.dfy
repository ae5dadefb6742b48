/**
 * The routing graph: the breadth-first search of sssp_bfs, which queues a node again whenever it finds a
 * better edge to it, the reachability check after it, and relaying a request from node to node.
 */
module Routing {
  import opened Wrappers

  datatype Edge = Edge(from: int, to: int, weight: int)

  /** The edge tree of every node. */
  type Topology = seq<seq<Edge>>

  /** The fields of a node that the search sets. */
  datatype Mark = Mark(visited: bool, distance: int, nexthop: int, prevedge: Option<Edge>)

  ghost predicate WellFormed(g: Topology) {
    forall u, j {:trigger g[u][j]} :: 0 <= u < |g| && 0 <= j < |g[u]| ==> g[u][j].from == u && 0 <= g[u][j].to < |g|
  }

  predicate HasEdge(g: Topology, u: int, v: int) {
    0 <= u < |g| && exists j :: 0 <= j < |g[u]| && g[u][j].to == v
  }

  /** The edge has a reverse. */
  predicate Usable(g: Topology, e: Edge) { HasEdge(g, e.to, e.from) }

  // ----- the reference: paths over edges with a reverse

  ghost predicate Link(g: Topology, u: int, v: int) { HasEdge(g, u, v) && HasEdge(g, v, u) }

  ghost predicate Hops(g: Topology, s: int, v: int, k: nat)
    decreases k
  {
    if k == 0 then s == v && 0 <= s < |g|
    else exists u :: Hops(g, s, u, k - 1) && Link(g, u, v)
  }

  ghost predicate Reachable(g: Topology, s: int, v: int) { exists k :: Hops(g, s, v, k) }

  // ----- what the search keeps

  ghost predicate SelfMark(m: seq<Mark>, s: int) { 0 <= s < |m| && m[s] == Mark(true, 0, s, None) }

  /** The marks of v agree with those of the node before it. */
  ghost predicate Settled(g: Topology, s: int, m: seq<Mark>, done: set<int>, v: int)
    requires 0 <= v < |m| == |g|
  {
    v != s && m[v].visited ==>
      && m[v].prevedge.Some?
      && var e := m[v].prevedge.value;
      && 0 <= e.from < |g| && e in g[e.from] && Usable(g, e) && e.to == v
      && e.from in done && m[e.from].visited && m[v].distance == m[e.from].distance + 1
      && m[v].nexthop == (if e.from == s then v else m[e.from].nexthop) && m[v].nexthop != s
  }

  ghost predicate AllSettled(g: Topology, s: int, m: seq<Mark>, done: set<int>) {
    && |m| == |g| && SelfMark(m, s)
    && (forall v :: 0 <= v < |m| ==> Settled(g, s, m, done, v))
    && (forall v :: v in done ==> 0 <= v < |m| && m[v].visited)
    && (forall v :: 0 <= v < |m| ==> if m[v].visited then m[v].distance >= 0 else m[v].distance == -1)
  }

  /** Edge e has nothing more to offer. */
  ghost predicate Relaxed(g: Topology, m: seq<Mark>, e: Edge)
    requires |m| == |g|
  {
    Usable(g, e) && 0 <= e.from < |g| && 0 <= e.to < |g| ==>
      && m[e.to].visited && m[e.to].distance <= m[e.from].distance + 1
      && (m[e.to].distance == m[e.from].distance + 1 ==>
            m[e.to].prevedge.Some? && m[e.to].prevedge.value.weight <= e.weight)
  }

  /** The first j edges of u are relaxed. */
  ghost predicate RelaxedUpTo(g: Topology, m: seq<Mark>, u: int, j: int)
    requires |m| == |g| && 0 <= u < |g|
  {
    forall i :: 0 <= i < j && i < |g[u]| ==> Relaxed(g, m, g[u][i])
  }

  ghost predicate DoneRelaxed(g: Topology, m: seq<Mark>, done: set<int>)
    requires |m| == |g|
  {
    forall u :: u in done && 0 <= u < |g| ==> RelaxedUpTo(g, m, u, |g[u]|)
  }

  /**
   * The queue holds nodes at distance d, then nodes at distance d + 1, and every visited node that was not examined
   * yet.
   */
  ghost predicate Queued(m: seq<Mark>, done: set<int>, todo: seq<int>, d: int) {
    && (forall i :: 0 <= i < |todo| ==> 0 <= todo[i] < |m| && m[todo[i]].visited && d <= m[todo[i]].distance <= d + 1)
    && (forall i, j :: 0 <= i < j < |todo| ==>
          0 <= todo[i] < |m| && 0 <= todo[j] < |m| && m[todo[i]].distance <= m[todo[j]].distance)
    && (forall v :: 0 <= v < |m| && m[v].visited && v !in done ==> v in todo)
    && (forall v :: v in done && 0 <= v < |m| ==> m[v].distance <= d)
  }

  /** The search is over. */
  ghost predicate Solved(g: Topology, s: int, m: seq<Mark>) { exists done :: SolvedBy(g, s, m, done) }

  ghost predicate SolvedBy(g: Topology, s: int, m: seq<Mark>, done: set<int>) {
    AllSettled(g, s, m, done) && DoneRelaxed(g, m, done) && forall v :: 0 <= v < |m| && m[v].visited ==> v in done
  }

  ghost function Improved(m: seq<Mark>, s: int, n: int, e: Edge): seq<Mark>
    requires 0 <= n < |m| && 0 <= e.to < |m|
  {
    m[e.to := Mark(true, m[n].distance + 1, if m[n].nexthop == s then e.to else m[n].nexthop, Some(e))]
  }

  /**
   * Edge e of node n, which is examined, leads to a node not visited yet, or at the same distance with a worse edge.
   */
  ghost predicate Improves(g: Topology, s: int, m: seq<Mark>, done: set<int>, n: int, e: Edge) {
    && AllSettled(g, s, m, done) && n in done && e.from == n && e in g[n] && 0 <= e.to < |g| && Usable(g, e)
    && (m[e.to].visited ==>
          m[e.to].distance == m[n].distance + 1 && m[e.to].prevedge.Some? && e.weight < m[e.to].prevedge.value.weight)
    && (forall v :: v in done ==> m[v].distance <= m[n].distance)
  }

  lemma ImproveSettles(g: Topology, s: int, m: seq<Mark>, done: set<int>, n: int, e: Edge)
    requires Improves(g, s, m, done, n, e)
    ensures AllSettled(g, s, Improved(m, s, n, e), done) && e.to !in done
  {
    var m' := Improved(m, s, n, e);
    assert e.to !in done && e.to != s;
    assert Settled(g, s, m, done, n);
    forall v | 0 <= v < |m'| ensures Settled(g, s, m', done, v) {
      assert Settled(g, s, m, done, v);
    }
  }

  lemma ImproveRelaxes(g: Topology, s: int, m: seq<Mark>, done: set<int>, n: int, e: Edge)
    requires Improves(g, s, m, done, n, e) && WellFormed(g)
    ensures e.to !in done && Relaxed(g, Improved(m, s, n, e), e)
    ensures forall u, j :: u in done && 0 <= j <= |g[u]| && RelaxedUpTo(g, m, u, j) ==>
              RelaxedUpTo(g, Improved(m, s, n, e), u, j)
  {
    var m' := Improved(m, s, n, e);
    assert e.to !in done;
    forall u, j | u in done && 0 <= j <= |g[u]| && RelaxedUpTo(g, m, u, j) ensures RelaxedUpTo(g, m', u, j) {
      forall i | 0 <= i < j ensures Relaxed(g, m', g[u][i]) {
        assert Relaxed(g, m, g[u][i]);
      }
    }
  }

  lemma ImproveQueues(g: Topology, s: int, m: seq<Mark>, done: set<int>, todo: seq<int>, n: int, e: Edge)
    requires Improves(g, s, m, done, n, e) && Queued(m, done, todo, m[n].distance)
    ensures Queued(Improved(m, s, n, e), done, todo + [e.to], m[n].distance)
  {
    var m' := Improved(m, s, n, e);
    assert e.to !in done;
    forall v | 0 <= v < |m'| && m'[v].visited && v !in done ensures v in todo + [e.to] {
      if v != e.to { assert v in todo; }
    }
  }

  /** Nothing to gain from edge e of node n. */
  predicate Skips(g: Topology, m: seq<Mark>, n: int, e: Edge)
    requires 0 <= n < |m| && 0 <= e.to < |m|
  {
    || !Usable(g, e)
    || (m[e.to].visited && (m[e.to].distance != m[n].distance + 1
        || (m[e.to].prevedge.Some? && e.weight >= m[e.to].prevedge.value.weight)))
  }

  /** In the middle of examining node n: its first j edges are done. */
  ghost predicate Examining(g: Topology, s: int, m: seq<Mark>, todo: seq<int>, done: set<int>, n: int, j: int) {
    && AllSettled(g, s, m, done) && n in done && Queued(m, done, todo, m[n].distance)
    && DoneRelaxed(g, m, done - {n}) && 0 <= j <= |g[n]| && RelaxedUpTo(g, m, n, j)
  }

  lemma SkipOk(g: Topology, s: int, m: seq<Mark>, todo: seq<int>, done: set<int>, n: int, j: int)
    requires WellFormed(g) && Examining(g, s, m, todo, done, n, j) && j < |g[n]| && Skips(g, m, n, g[n][j])
    ensures Examining(g, s, m, todo, done, n, j + 1)
  {
    var e := g[n][j];
    assert Settled(g, s, m, done, e.to);
    if Usable(g, e) && m[e.to].distance > m[n].distance {
      FarInQueue(m, done, todo, m[n].distance, e.to);
    }
    assert Relaxed(g, m, e);
  }

  /** No visited node is further away than the queue reaches. */
  lemma FarInQueue(m: seq<Mark>, done: set<int>, todo: seq<int>, d: int, v: int)
    requires Queued(m, done, todo, d) && 0 <= v < |m| && m[v].visited
    ensures m[v].distance <= d + 1
  {
  }

  lemma ImproveOk(g: Topology, s: int, m: seq<Mark>, todo: seq<int>, done: set<int>, n: int, j: int)
    requires WellFormed(g) && Examining(g, s, m, todo, done, n, j) && j < |g[n]| && !Skips(g, m, n, g[n][j])
    ensures Examining(g, s, Improved(m, s, n, g[n][j]), todo + [g[n][j].to], done, n, j + 1) && g[n][j].to != n
  {
    var e := g[n][j];
    assert Settled(g, s, m, done, e.to);
    ImproveSettles(g, s, m, done, n, e);
    ImproveRelaxes(g, s, m, done, n, e);
    ImproveQueues(g, s, m, done, todo, n, e);
    assert RelaxedUpTo(g, Improved(m, s, n, e), n, j);
  }

  /** Once all edges of an examined node are relaxed, none of them improves anything. */
  lemma RelaxedSkips(g: Topology, m: seq<Mark>, n: int, j: int)
    requires |m| == |g| && 0 <= n < |g| && WellFormed(g) && RelaxedUpTo(g, m, n, |g[n]|) && 0 <= j < |g[n]|
    ensures Skips(g, m, n, g[n][j])
  {
    assert Relaxed(g, m, g[n][j]);
  }

  /** The next hops and previous edges of an earlier search stay until they are overwritten. */
  function Cleared(m: seq<Mark>): seq<Mark> {
    seq(|m|, i requires 0 <= i < |m| => m[i].(visited := false, distance := -1))
  }

  class Router {
    var marks: seq<Mark>
    var todo: seq<int>
    var reachable: seq<bool>
    var count: int

    constructor (n: nat)
      ensures |marks| == n && |reachable| == n
    {
      marks := seq(n, _ => Mark(false, -1, 0, None));
      reachable := seq(n, _ => false);
      todo, count := [], 0;
    }

    /** One edge of the node that is examined. */
    method Examine(g: Topology, s: int, n: int, j: int)
      requires 0 <= n < |marks| == |g| && 0 <= j < |g[n]| && 0 <= g[n][j].to < |marks|
      requires var to := marks[g[n][j].to]; to.visited && to.distance == marks[n].distance + 1 ==> to.prevedge.Some?
      modifies this`marks, this`todo
      ensures if Skips(g, old(marks), n, g[n][j]) then marks == old(marks) && todo == old(todo)
              else marks == Improved(old(marks), s, n, g[n][j]) && todo == old(todo) + [g[n][j].to]
    {
      var e := g[n][j];
      if !Usable(g, e) { return; }
      var to := marks[e.to];
      if to.visited && (to.distance != marks[n].distance + 1 || e.weight >= to.prevedge.value.weight) { return; }
      var nexthop := if marks[n].nexthop == s then e.to else marks[n].nexthop;
      marks := marks[e.to := Mark(true, marks[n].distance + 1, nexthop, Some(e))];
      todo := todo + [e.to];
    }

    /** All edges of node n. */
    method ExamineAll(g: Topology, s: int, n: int, ghost done: set<int>)
      requires WellFormed(g) && Examining(g, s, marks, todo, done, n, 0)
      modifies this`marks, this`todo
      ensures AllSettled(g, s, marks, done) && DoneRelaxed(g, marks, done) && n in done
      ensures 0 <= n < |marks| && marks[n] == old(marks[n]) && Queued(marks, done, todo, marks[n].distance)
      ensures old(DoneRelaxed(g, marks, {n})) ==> todo == old(todo)
    {
      var j := 0;
      while j < |g[n]|
        invariant 0 <= j <= |g[n]| && Examining(g, s, marks, todo, done, n, j) && marks[n] == old(marks[n])
        invariant old(DoneRelaxed(g, marks, {n})) ==> marks == old(marks) && todo == old(todo)
      {
        assert Settled(g, s, marks, done, g[n][j].to);
        if Skips(g, marks, n, g[n][j]) {
          SkipOk(g, s, marks, todo, done, n, j);
        } else {
          ImproveOk(g, s, marks, todo, done, n, j);
        }
        ghost var m := marks;
        Examine(g, s, n, j);
        if RelaxedUpTo(g, m, n, |g[n]|) { RelaxedSkips(g, m, n, j); }
        j := j + 1;
      }
    }

    /** sssp_bfs on a started mesh. */
    method Search(g: Topology, s: int)
      requires WellFormed(g) && 0 <= s < |g| == |marks|
      modifies this`marks, this`todo
      ensures Solved(g, s, marks)
    {
      marks := Cleared(marks)[s := Mark(true, 0, s, None)];
      todo := [s];
      ghost var done: set<int>, d := {}, 0;
      BeginOk(g, s, marks);
      while todo != []
        invariant AllSettled(g, s, marks, done) && DoneRelaxed(g, marks, done) && Queued(marks, done, todo, d)
                  && done <= Nodes(g)
        decreases Nodes(g) - done, |todo|
      {
        var n := todo[0];
        PopOk(g, s, marks, todo, done, d);
        assert n in Nodes(g);
        ghost var was := done;
        done := done + {n};
        todo := todo[1..];
        ExamineAll(g, s, n, done);
        d := marks[n].distance;
        assert n in was ==> done == was;
      }
      assert SolvedBy(g, s, marks, done);
    }

    /** check_reachability: flags follow the search; the nodes whose flag changed are reported in order. */
    method CheckReachability(blacklisted: seq<bool>) returns (changed: seq<int>)
      requires |marks| == |reachable| == |blacklisted|
      modifies this`reachable, this`count
      ensures |reachable| == |marks| && forall v :: 0 <= v < |marks| ==> reachable[v] == marks[v].visited
      ensures count == Visited(marks, |marks|) - 1
      ensures changed == Changes(marks, old(reachable), blacklisted, |marks|)
    {
      var n, found := 0, -1;
      changed := [];
      while n < |marks|
        invariant 0 <= n <= |marks| && |reachable| == |marks| && found == Visited(marks, n) - 1
        invariant forall v :: 0 <= v < |marks| ==> reachable[v] == if v < n then marks[v].visited else old(reachable)[v]
        invariant changed == Changes(marks, old(reachable), blacklisted, n)
      {
        if marks[n].visited { found := found + 1; }
        if marks[n].visited != reachable[n] {
          reachable := reachable[n := !reachable[n]];
          if !blacklisted[n] { changed := changed + [n]; }
        }
        n := n + 1;
      }
      if count != found { count := found; }
    }

    /** graph(): search, then check. */
    method Graph(g: Topology, s: int, blacklisted: seq<bool>) returns (changed: seq<int>)
      requires WellFormed(g) && 0 <= s < |g| && |marks| == |reachable| == |blacklisted| == |g|
      modifies this
      ensures Solved(g, s, marks) && |marks| == |reachable| == |g|
      ensures forall v :: 0 <= v < |g| ==> (reachable[v] <==> Reachable(g, s, v))
      ensures count == |ReachableNodes(g, s)| - 1
    {
      Search(g, s);
      changed := CheckReachability(blacklisted);
      forall v | 0 <= v < |g| ensures marks[v].visited <==> Reachable(g, s, v) { Shortest(g, s, marks, v); }
      VisitedCount(g, s, marks, |g|);
      assert ReachableNodes(g, s) == set v | v in Nodes(g) && v < |g| && Reachable(g, s, v);
    }
  }

  /** How many of the first n nodes are visited. */
  ghost function Visited(m: seq<Mark>, n: int): int
    requires n <= |m|
  {
    if n <= 0 then 0 else Visited(m, n - 1) + if m[n - 1].visited then 1 else 0
  }

  /** The nodes among the first n whose reachability changed, without blacklisted ones. */
  ghost function Changes(m: seq<Mark>, reachable: seq<bool>, blacklisted: seq<bool>, n: int): seq<int>
    requires n <= |m| == |reachable| == |blacklisted|
  {
    if n <= 0 then []
    else
      Changes(m, reachable, blacklisted, n - 1)
      + if m[n - 1].visited != reachable[n - 1] && !blacklisted[n - 1] then [n - 1] else []
  }

  ghost function ReachableNodes(g: Topology, s: int): set<int> { set v | v in Nodes(g) && Reachable(g, s, v) }

  lemma {:induction false} VisitedCount(g: Topology, s: int, m: seq<Mark>, n: nat)
    requires |m| == |g| && n <= |g| && forall v :: 0 <= v < |g| ==> (m[v].visited <==> Reachable(g, s, v))
    ensures Visited(m, n) == |set v | v in Nodes(g) && v < n && Reachable(g, s, v)|
  {
    var r := set v | v in Nodes(g) && v < n && Reachable(g, s, v);
    if n == 0 {
      assert r == {};
    } else {
      VisitedCount(g, s, m, n - 1);
      var q := set v | v in Nodes(g) && v < n - 1 && Reachable(g, s, v);
      assert n - 1 in Nodes(g);
      assert r == if m[n - 1].visited then q + {n - 1} else q;
    }
  }

  ghost predicate IsNode(g: Topology, v: int) { 0 <= v < |g| }

  ghost function Nodes(g: Topology): set<int> { set v | 0 <= v < |g| && IsNode(g, v) }

  /** The queue after the search has just begun. */
  lemma BeginOk(g: Topology, s: int, m: seq<Mark>)
    requires 0 <= s < |g| == |m| && SelfMark(m, s)
    requires forall v :: 0 <= v < |m| && v != s ==> !m[v].visited && m[v].distance == -1
    ensures AllSettled(g, s, m, {}) && DoneRelaxed(g, m, {}) && Queued(m, {}, [s], 0)
  {
    assert [s][0] == s;
  }

  /** The head of the queue may be examined. */
  lemma PopOk(g: Topology, s: int, m: seq<Mark>, todo: seq<int>, done: set<int>, d: int)
    requires AllSettled(g, s, m, done) && DoneRelaxed(g, m, done) && Queued(m, done, todo, d) && todo != []
    ensures Examining(g, s, m, todo[1..], done + {todo[0]}, todo[0], 0) && todo[0] in done + {todo[0]}
  {
    var n := todo[0];
    forall v | 0 <= v < |m| ensures Settled(g, s, m, done + {n}, v) { assert Settled(g, s, m, done, v); }
    forall v | 0 <= v < |m| && m[v].visited && v !in done + {n} ensures v in todo[1..] {
      assert v in todo;
      var i :| 0 <= i < |todo| && todo[i] == v;
      assert todo[1..][i - 1] == v;
    }
    assert (done + {n}) - {n} <= done;
  }

  // ----- what the marks mean

  lemma {:induction false} VisitedHops(g: Topology, s: int, m: seq<Mark>, v: int)
    requires WellFormed(g) && Solved(g, s, m) && 0 <= v < |m| && m[v].visited
    ensures m[v].distance >= 0 && Hops(g, s, v, m[v].distance)
    decreases m[v].distance
  {
    var done :| SolvedBy(g, s, m, done);
    assert Settled(g, s, m, done, v);
    if v != s {
      var e := m[v].prevedge.value;
      EdgeLinks(g, e);
      VisitedHops(g, s, m, e.from);
    }
  }

  lemma EdgeLinks(g: Topology, e: Edge)
    requires WellFormed(g) && 0 <= e.from < |g| && e in g[e.from] && Usable(g, e)
    ensures Link(g, e.from, e.to)
  {
    var j :| 0 <= j < |g[e.from]| && g[e.from][j] == e;
  }

  lemma {:induction false} HopsVisited(g: Topology, s: int, m: seq<Mark>, v: int, k: nat)
    requires WellFormed(g) && Solved(g, s, m) && Hops(g, s, v, k)
    ensures 0 <= v < |m| && m[v].visited && m[v].distance <= k
    decreases k
  {
    var done :| SolvedBy(g, s, m, done);
    if k > 0 {
      var u :| Hops(g, s, u, k - 1) && Link(g, u, v);
      HopsVisited(g, s, m, u, k - 1);
      var j :| 0 <= j < |g[u]| && g[u][j].to == v;
      assert RelaxedUpTo(g, m, u, |g[u]|);
      assert Relaxed(g, m, g[u][j]);
    }
  }

  /** The visited nodes are exactly the reachable ones, at their least number of hops. */
  lemma Shortest(g: Topology, s: int, m: seq<Mark>, v: int)
    requires WellFormed(g) && Solved(g, s, m) && 0 <= v < |m|
    ensures m[v].visited <==> Reachable(g, s, v)
    ensures m[v].visited ==>
              m[v].distance >= 0 && Hops(g, s, v, m[v].distance) && forall k :: Hops(g, s, v, k) ==> m[v].distance <= k
  {
    if m[v].visited { VisitedHops(g, s, m, v); }
    forall k | Hops(g, s, v, k) ensures m[v].visited && m[v].distance <= k { HopsVisited(g, s, m, v, k); }
  }

  /** Edge e leads to v from a node one layer before it. */
  ghost predicate FromLayerBefore(g: Topology, m: seq<Mark>, e: Edge, v: int)
    requires |m| == |g| && 0 <= v < |g|
  {
    e.to == v && Usable(g, e) && 0 <= e.from < |g| && e in g[e.from] && m[e.from].visited
        && m[e.from].distance == m[v].distance - 1
  }

  /** The previous edge is a least-weight edge from the layer before. */
  lemma LeastWeight(g: Topology, s: int, m: seq<Mark>, v: int)
    requires WellFormed(g) && Solved(g, s, m) && 0 <= v < |m| && m[v].visited && v != s
    ensures m[v].prevedge.Some? && FromLayerBefore(g, m, m[v].prevedge.value, v)
    ensures forall e :: FromLayerBefore(g, m, e, v) ==> m[v].prevedge.value.weight <= e.weight
  {
    var done :| SolvedBy(g, s, m, done);
    assert Settled(g, s, m, done, v);
    forall e | FromLayerBefore(g, m, e, v) ensures m[v].prevedge.value.weight <= e.weight {
      assert RelaxedUpTo(g, m, e.from, |g[e.from]|);
      var j :| 0 <= j < |g[e.from]| && g[e.from][j] == e;
      assert Relaxed(g, m, g[e.from][j]);
    }
  }

  /** The first node on the path to v that the previous edges make. */
  ghost function FirstHop(g: Topology, s: int, m: seq<Mark>, v: int): int
    requires WellFormed(g) && Solved(g, s, m) && 0 <= v < |m| && m[v].visited
    decreases m[v].distance
  {
    if v == s then s
    else
      LeastWeight(g, s, m, v);
      VisitedHops(g, s, m, v);
      var u := m[v].prevedge.value.from;
      if u == s then v else FirstHop(g, s, m, u)
  }

  lemma {:induction false} NexthopIsFirst(g: Topology, s: int, m: seq<Mark>, v: int)
    requires WellFormed(g) && Solved(g, s, m) && 0 <= v < |m| && m[v].visited
    ensures m[v].nexthop == FirstHop(g, s, m, v)
    decreases m[v].distance
  {
    var done :| SolvedBy(g, s, m, done);
    assert Settled(g, s, m, done, v);
    VisitedHops(g, s, m, v);
    if v != s && m[v].prevedge.value.from != s { NexthopIsFirst(g, s, m, m[v].prevedge.value.from); }
  }

  // ----- relaying

  /** The next hop is a neighbour that lies one hop closer to v. */
  lemma {:induction false} NexthopCloser(g: Topology, s: int, m: seq<Mark>, v: int)
    requires WellFormed(g) && Solved(g, s, m) && 0 <= v < |m| && m[v].visited && v != s
    ensures m[v].distance > 0 && Link(g, s, m[v].nexthop) && Hops(g, m[v].nexthop, v, m[v].distance - 1)
    decreases m[v].distance
  {
    var done :| SolvedBy(g, s, m, done);
    assert Settled(g, s, m, done, v);
    VisitedHops(g, s, m, v);
    var e := m[v].prevedge.value;
    EdgeLinks(g, e);
    if e.from != s {
      NexthopCloser(g, s, m, e.from);
    } else {
      assert Hops(g, v, v, 0);
    }
  }

  lemma {:induction false} HopsPrepend(g: Topology, s: int, h: int, v: int, k: nat)
    requires 0 <= s < |g| && Link(g, s, h) && Hops(g, h, v, k)
    ensures Hops(g, s, v, k + 1)
    decreases k
  {
    if k == 0 {
      assert Hops(g, s, s, 0);
    } else {
      var u :| Hops(g, h, u, k - 1) && Link(g, u, v);
      HopsPrepend(g, s, h, u, k - 1);
    }
  }

  /** Every node has searched the same edges. */
  ghost predicate AllSolved(g: Topology, tables: seq<seq<Mark>>) {
    WellFormed(g) && |tables| == |g| && forall x :: 0 <= x < |g| ==> Solved(g, x, tables[x]) && |tables[x]| == |g|
  }

  /** One relaying step brings the request exactly one hop closer. */
  lemma RelayCloser(g: Topology, tables: seq<seq<Mark>>, x: int, t: int)
    requires AllSolved(g, tables) && 0 <= x < |g| && 0 <= t < |g| && x != t && tables[x][t].visited
    ensures var h := tables[x][t].nexthop;
            0 <= h < |g| && tables[h][t].visited && tables[h][t].distance == tables[x][t].distance - 1
  {
    var m, h, k := tables[x], tables[x][t].nexthop, tables[x][t].distance;
    NexthopCloser(g, x, m, t);
    HopsVisited(g, h, tables[h], t, k - 1);
    VisitedHops(g, h, tables[h], t);
    HopsPrepend(g, x, h, t, tables[h][t].distance);
    HopsVisited(g, x, m, t, tables[h][t].distance + 1);
  }

  /** The nodes that relay a request from x to t, each using its own table. */
  ghost function Route(g: Topology, tables: seq<seq<Mark>>, x: int, t: int): (route: seq<int>)
    requires AllSolved(g, tables) && 0 <= x < |g| && 0 <= t < |g| && tables[x][t].visited
    ensures |route| == tables[x][t].distance && (route != [] ==> route[|route| - 1] == t)
    ensures x == t <==> route == []
    decreases tables[x][t].distance
  {
    VisitedHops(g, x, tables[x], t);
    if x == t then
      HopsVisited(g, x, tables[x], t, 0);
      []
    else
      RelayCloser(g, tables, x, t);
      NexthopCloser(g, x, tables[x], t);
      var h := tables[x][t].nexthop;
      [h] + Route(g, tables, h, t)
  }
}
