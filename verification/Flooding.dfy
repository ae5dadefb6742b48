/**
 * Flooding of requests: every node remembers the requests it has seen for a minute and forwards only new ones;
 * a timer removes old ones.
 */
module Flooding {
  import opened Wrappers

  type Request = nat

  const RETENTION := 60
  const INTERVAL := 10

  /** Seconds and nanoseconds, compared in this order. */
  datatype Time = Time(sec: nat, nsec: nat)

  predicate Before(a: Time, b: Time) { if a.sec == b.sec then a.nsec < b.nsec else a.sec < b.sec }

  function Sum(a: Time, b: Time): Time {
    if a.nsec + b.nsec > 1_000_000_000 then Time(a.sec + b.sec + 1, a.nsec + b.nsec - 1_000_000_000)
    else Time(a.sec + b.sec, a.nsec + b.nsec)
  }

  const SECOND: nat := 1_000_000_000

  function Nanoseconds(t: Time): nat { t.sec * SECOND + t.nsec }

  /** Adding up loses nothing; the sum is normal again exactly if the fractions do not add up to a whole second. */
  lemma SumAdds(a: Time, b: Time)
    requires a.nsec < SECOND && b.nsec < SECOND
    ensures Nanoseconds(Sum(a, b)) == Nanoseconds(a) + Nanoseconds(b)
    ensures Sum(a, b).nsec < SECOND <==> a.nsec + b.nsec != SECOND
  {
  }

  lemma BeforeIsLess(a: Time, b: Time)
    requires a.nsec < SECOND && b.nsec < SECOND
    ensures Before(a, b) <==> Nanoseconds(a) < Nanoseconds(b)
  {
  }

  /** The aging timer among the timers of the event loop. */
  const AGING: nat := 0

  /** The answer "new" for a request, and when it was given. */
  datatype New = New(request: Request, at: nat)

  /** The last time each request was new, and that two such times are a minute apart. */
  ghost predicate Spaced(log: seq<New>, news: map<Request, nat>) {
    && (forall i :: 0 <= i < |log| ==> log[i].request in news && log[i].at <= news[log[i].request])
    && (forall i, j :: 0 <= i < j < |log| && log[i].request == log[j].request ==> log[i].at + RETENTION <= log[j].at)
  }

  class Seen {
    var now: Time
    var past: map<Request, nat>
    var timeouts: map<nat, Time>
    ghost var news: map<Request, nat>
    ghost var log: seq<New>

    /** A request that is remembered was new when it was first seen; one that is not was new long ago. */
    ghost predicate Remembers()
      reads this
    {
      && (forall r :: r in past ==> r in news && news[r] == past[r] && past[r] <= now.sec)
      && (forall r :: r in news && r !in past ==> news[r] + RETENTION <= now.sec)
      && Spaced(log, news)
    }

    ghost predicate Valid()
      reads this
    {
      Remembers() && (past != map[] ==> AGING in timeouts)
    }

    /** init_requests: the timer is armed once. */
    constructor (now: Time)
      ensures Valid() && past == map[] && news == map[] && log == [] && this.now == now
    {
      this.now, past, news, log := now, map[], map[], [];
      timeouts := map[AGING := now];
    }

    /** timeout_set: also moves a timer that is armed already. */
    method SetTimeout(id: nat, delay: Time)
      modifies this`timeouts
      ensures timeouts == old(timeouts)[id := Sum(now, delay)]
    {
      timeouts := timeouts[id := Sum(now, delay)];
    }

    method DisableTimeout(id: nat)
      modifies this`timeouts
      ensures timeouts == old(timeouts) - {id}
    {
      timeouts := timeouts - {id};
    }

    /** seen_request: false for a new request, which is remembered from now on. */
    method SeenRequest(r: Request, fudge: nat) returns (seen: bool)
      requires Valid()
      modifies this`past, this`timeouts, this`news, this`log
      ensures Valid() && seen == (r in old(past))
      ensures past == if seen then old(past) else old(past)[r := now.sec]
      ensures news == if seen then old(news) else old(news)[r := now.sec]
      ensures log == if seen then old(log) else old(log) + [New(r, now.sec)]
      ensures !seen && r in old(news) ==> old(news)[r] + 60 <= now.sec
      ensures timeouts == if !seen && old(past) == map[] then old(timeouts)[AGING := Sum(now, Time(10, fudge))]
                          else old(timeouts)
    {
      if r in past { return true; }
      if past == map[] { SetTimeout(AGING, Time(INTERVAL, fudge)); }
      past := past[r := now.sec];
      news, log := news[r := now.sec], log + [New(r, now.sec)];
      seen := false;
    }

    /** The loop of age_past_requests: how many requests are left. */
    method Purge() returns (left: nat)
      modifies this`past
      ensures past == Young(old(past), now.sec) && (left == 0 <==> past == map[])
    {
      var todo := past.Keys;
      left := 0;
      while todo != {}
        invariant todo <= past.Keys && past == YoungOr(old(past), todo, now.sec) && (left == 0 <==> past.Keys <= todo)
        decreases |todo|
      {
        var r :| r in todo;
        if past[r] + RETENTION <= now.sec {
          ghost var keys := past.Keys;
          past := past - {r};
          assert past.Keys == keys - {r};
          assert past.Keys <= todo - {r} ==> keys <= (todo - {r}) + {r} == todo;
        } else {
          left := left + 1;
          assert r in past.Keys && r !in todo - {r};
        }
        todo := todo - {r};
      }
    }

    /** age_past_requests, after the event loop has disabled its timer: it is armed again if requests are left. */
    method Age(fudge: nat)
      requires Remembers()
      modifies this`past, this`timeouts
      ensures Valid() && past == Young(old(past), now.sec)
      ensures timeouts == if past == map[] then old(timeouts)
                          else old(timeouts)[AGING := Sum(now, Time(10, fudge))]
    {
      var left := Purge();
      if left != 0 { SetTimeout(AGING, Time(INTERVAL, fudge)); }
    }

    /** A timer that is due runs, disabled before: the aging timer, or another one, which may set itself again. */
    method Fire(id: nat, fudge: nat, again: Option<Time>)
      requires Remembers() && (id != AGING && past != map[] ==> AGING in timeouts)
      modifies this`past, this`timeouts
      ensures Valid() && past == if id == AGING then Young(old(past), now.sec) else old(past)
      ensures timeouts - {id} == old(timeouts) - {id} && (id in timeouts ==> !Before(timeouts[id], now))
    {
      DisableTimeout(id);
      if id == AGING {
        LaterIsNotDue(now, Time(INTERVAL, fudge));
        Age(fudge);
      } else if again.Some? {
        LaterIsNotDue(now, again.value);
        SetTimeout(id, again.value);
      }
    }

    /**
     * The event loop: it looks at the clock, then runs the timers that are due. `again` is after what time the other
     * timers set themselves again, if they do.
     */
    method Drain(time: Time, fudge: nat, again: nat -> Option<Time>)
      requires Valid() && !Before(time, now)
      modifies this
      ensures Valid() && now == time && news == old(news) && log == old(log)
      ensures forall id :: id in timeouts ==> !Before(timeouts[id], now)
      ensures past == old(past) || past == Young(old(past), now.sec)
    {
      now := time;
      var due := Due(timeouts, now);
      while due != {}
        invariant Valid() && now == time && news == old(news) && log == old(log) && due == Due(timeouts, now)
        invariant past == old(past) || past == Young(old(past), now.sec)
        decreases due
      {
        var id :| id in due;
        ghost var was := timeouts;
        Fire(id, fudge, again(id));
        DueLess(was, timeouts, now, id);
        due := Due(timeouts, now);
      }
      forall id | id in timeouts ensures !Before(timeouts[id], now) { assert id !in Due(timeouts, now); }
    }

    /**
     * A request arrives within the retention period; the event loop has looked at the clock and run its timers before.
     */
    method Hear(r: Request, start: nat, time: Time, fudge: nat, again: nat -> Option<Time>) returns (known: bool)
      requires Tracked(this, r, start, r in past)
      modifies this
      ensures Tracked(this, r, start, true) && known == (r in old(past))
    {
      var t := if Before(time, now) || time.sec >= start + RETENTION then now else time;
      StillYoung(past, t.sec, r);
      Drain(t, fudge, again);
      known := SeenRequest(r, fudge);
    }
  }

  lemma StillYoung(past: map<Request, nat>, now: nat, r: Request)
    requires r in past ==> past[r] + RETENTION > now
    ensures r in past <==> r in Young(past, now)
    ensures r in past ==> Young(past, now)[r] == past[r]
  {
  }

  lemma DueLess(was: map<nat, Time>, timeouts: map<nat, Time>, now: Time, id: nat)
    requires timeouts - {id} == was - {id} && id in Due(was, now) && (id in timeouts ==> !Before(timeouts[id], now))
    ensures Due(timeouts, now) < Due(was, now)
  {
    forall i | i in Due(timeouts, now) ensures i in Due(was, now) {
      assert i in timeouts - {id};
      assert was[i] == (was - {id})[i] == (timeouts - {id})[i];
    }
    assert id !in Due(timeouts, now);
  }

  /** A node within the retention period after `start` remembers the request or not. */
  ghost predicate Tracked(node: Seen, request: Request, start: nat, has: bool)
    reads node
  {
    && node.Valid() && start <= node.now.sec < start + RETENTION
    && (has <==> request in node.past) && (has ==> start <= node.past[request])
  }

  /** The nodes, each within a retention period by its own clock, remember the request exactly where it was seen. */
  ghost predicate Tracks(nodes: seq<Seen>, request: Request, starts: seq<nat>, seen: set<int>)
    reads nodes
  {
    && |starts| == |nodes|
    && (forall v :: 0 <= v < |nodes| ==> Tracked(nodes[v], request, starts[v], v in seen))
    && (forall v :: v in seen ==> 0 <= v < |nodes|) && (forall u, v :: 0 <= u < v < |nodes| ==> nodes[u] != nodes[v])
  }

  function Due(timeouts: map<nat, Time>, now: Time): set<nat> { set id | id in timeouts && Before(timeouts[id], now) }

  lemma LaterIsNotDue(now: Time, delay: Time)
    ensures !Before(Sum(now, delay), now)
  {
  }

  /** The requests that are young, or not looked at yet. */
  function YoungOr(past: map<Request, nat>, todo: set<Request>, now: nat): map<Request, nat> {
    map r | r in past && (r in todo || past[r] + RETENTION > now) :: past[r]
  }

  /** A request is remembered for less than a minute. */
  lemma YoungExactly(past: map<Request, nat>, now: nat, r: Request)
    requires r in past
    ensures r in Young(past, now) <==> now < past[r] + 60
  {
  }

  function Young(past: map<Request, nat>, now: nat): map<Request, nat> {
    map r | r in past && past[r] + RETENTION > now :: past[r]
  }

  // ----- the flood of one request

  /** The peers of every node. */
  type Network = seq<seq<int>>

  ghost predicate Connected(g: Network) {
    forall u, j {:trigger g[u][j]} :: 0 <= u < |g| && 0 <= j < |g[u]| ==> 0 <= g[u][j] < |g|
  }

  /** Connections go both ways, no node is its own peer, and there is one connection between two nodes. */
  ghost predicate TwoWay(g: Network) {
    && (forall u, v :: Peers(g, u, v) ==> u != v && Peers(g, v, u))
    && (forall u :: 0 <= u < |g| ==> Distinct(g[u]))
  }

  ghost predicate Distinct(s: seq<int>) { forall i, j :: 0 <= i < j < |s| ==> s[i] != s[j] }

  /** A copy of the request on its way. */
  datatype Copy = Copy(from: int, to: int)

  /** The copies a node sends: to all its peers but the one it came from. */
  function Copies(g: Network, v: int, except: int, n: nat): (c: seq<Copy>)
    requires 0 <= v < |g| && n <= |g[v]|
    ensures |c| <= n
  {
    if n == 0 then [] else Copies(g, v, except, n - 1) + if g[v][n - 1] == except then [] else [Copy(v, g[v][n - 1])]
  }

  /** How many peers the nodes in a set have together, up to node n. */
  ghost function Degrees(g: Network, nodes: set<int>, n: nat): nat
    requires n <= |g|
  {
    if n == 0 then 0 else Degrees(g, nodes, n - 1) + if n - 1 in nodes then |g[n - 1]| else 0
  }

  ghost predicate Reaches(g: Network, s: int, v: int, k: nat)
    decreases k
  {
    if k == 0 then s == v else exists u :: Reaches(g, s, u, k - 1) && Peers(g, u, v)
  }

  ghost predicate Peers(g: Network, u: int, v: int) { 0 <= u < |g| && exists j :: 0 <= j < |g[u]| && g[u][j] == v }

  ghost predicate IsNode(g: Network, v: int) { 0 <= v < |g| }

  ghost function All(g: Network): set<int> { set v | 0 <= v < |g| && IsNode(g, v) }

  lemma {:induction false} DegreesMore(g: Network, nodes: set<int>, v: int, n: nat)
    requires n <= |g| && v !in nodes && 0 <= v < |g|
    ensures Degrees(g, nodes + {v}, n) == Degrees(g, nodes, n) + if v < n then |g[v]| else 0
  {
    if n > 0 { DegreesMore(g, nodes, v, n - 1); }
  }

  lemma {:induction false} CopiesCover(g: Network, v: int, except: int, n: nat, j: nat)
    requires 0 <= v < |g| && j < n <= |g[v]| && g[v][j] != except
    ensures Copy(v, g[v][j]) in Copies(g, v, except, n)
  {
    if j < n - 1 {
      CopiesCover(g, v, except, n - 1, j);
    }
  }

  lemma {:induction false} CopiesValid(g: Network, v: int, except: int, n: nat)
    requires Connected(g) && 0 <= v < |g| && n <= |g[v]|
    ensures forall c :: c in Copies(g, v, except, n) ==> c.from == v && Peers(g, v, c.to)
  {
    if n > 0 { CopiesValid(g, v, except, n - 1); }
  }

  /** One copy less is sent when the request came from a peer. */
  lemma {:induction false} CopiesCount(g: Network, v: int, except: int, n: nat)
    requires 0 <= v < |g| && n <= |g[v]| && Distinct(g[v])
    ensures |Copies(g, v, except, n)| == n - if except in g[v][..n] then 1 else 0
  {
    if n > 0 { CopiesCount(g, v, except, n - 1); }
  }

  /** The peers of a node that sent the request have it, or a copy is on its way to them. */
  ghost predicate Spreading(g: Network, has: set<int>, senders: set<int>, flight: seq<Copy>) {
    && senders <= has <= All(g) && (forall c :: c in flight ==> c.from in senders && Peers(g, c.from, c.to))
    && (forall u, j {:trigger g[u][j]} :: u in senders && 0 <= u < |g| && 0 <= j < |g[u]| ==>
          g[u][j] in has || Copy(u, g[u][j]) in flight)
  }

  function Without(flight: seq<Copy>, i: nat): seq<Copy>
    requires i < |flight|
  {
    flight[..i] + flight[i + 1..]
  }

  lemma StillInFlight(flight: seq<Copy>, i: nat, c: Copy)
    requires i < |flight| && c in flight && c != flight[i]
    ensures c in Without(flight, i)
  {
    var j :| 0 <= j < |flight| && flight[j] == c;
    assert Without(flight, i)[if j < i then j else j - 1] == c;
  }

  /** A copy arrives, and is forwarded or not. */
  lemma ArrivalSpreads(g: Network, has: set<int>, senders: set<int>, flight: seq<Copy>, i: nat, forward: bool)
    requires Connected(g) && Spreading(g, has, senders, flight) && i < |flight|
    ensures 0 <= flight[i].to < |g|
    ensures var c := flight[i]; var copies := if forward then Copies(g, c.to, c.from, |g[c.to]|) else [];
            Spreading(g, has + {c.to}, senders + (if forward then {c.to} else {}), Without(flight, i) + copies)
  {
    var c := flight[i];
    var v := c.to;
    assert c in flight && Peers(g, c.from, v);
    assert IsNode(g, v);
    var copies := if forward then Copies(g, v, c.from, |g[v]|) else [];
    var senders', flight' := senders + (if forward then {v} else {}), Without(flight, i) + copies;
    CopiesValid(g, v, c.from, |g[v]|);
    forall d | d in flight' ensures d.from in senders' && Peers(g, d.from, d.to) {
      if d !in copies { assert d in flight; }
    }
    forall u, j {:trigger g[u][j]} | u in senders' && 0 <= u < |g| && 0 <= j < |g[u]|
      ensures g[u][j] in has + {v} || Copy(u, g[u][j]) in flight'
    {
      var w := g[u][j];
      if w !in has + {v} {
        if u == v && forward { CopiesCover(g, v, c.from, |g[v]|, j); } else { StillInFlight(flight, i, Copy(u, w)); }
      }
    }
  }

  // ----- where the request goes

  /** A path of k connections from the origin to v, along nodes that sent the request. */
  ghost predicate Relays(g: Network, origin: int, senders: set<int>, v: int, k: nat)
    decreases k
  {
    if k == 0 then v == origin
    else exists u :: Relays(g, origin, senders, u, k - 1) && u in senders && Peers(g, u, v)
  }

  ghost predicate Relayed(g: Network, origin: int, senders: set<int>, v: int) {
    exists k :: Relays(g, origin, senders, v, k)
  }

  lemma {:induction false} RelaysMore(g: Network, origin: int, senders: set<int>, more: set<int>, v: int, k: nat)
    requires Relays(g, origin, senders, v, k) && senders <= more
    ensures Relays(g, origin, more, v, k)
    decreases k
  {
    if k > 0 {
      var u :| Relays(g, origin, senders, u, k - 1) && u in senders && Peers(g, u, v);
      RelaysMore(g, origin, senders, more, u, k - 1);
    }
  }

  /** All that have the request got it along such a path. */
  ghost predicate Traced(g: Network, origin: int, senders: set<int>, has: set<int>) {
    forall v :: v in has ==> Relayed(g, origin, senders, v)
  }

  lemma TracedOn(g: Network, origin: int, senders: set<int>, has: set<int>, more: set<int>, c: Copy)
    requires Traced(g, origin, senders, has) && senders <= more && c.from in senders * has && Peers(g, c.from, c.to)
    ensures Traced(g, origin, more, has + {c.to})
  {
    forall v | v in has ensures Relayed(g, origin, more, v) {
      var k :| Relays(g, origin, senders, v, k);
      RelaysMore(g, origin, senders, more, v, k);
    }
    var k: nat :| Relays(g, origin, more, c.from, k);
    assert Relays(g, origin, more, c.to, k + 1);
  }

  /** The nodes that forwarded the request have seen it, and each did so once. */
  ghost predicate Once(forwards: seq<int>, seen: set<int>) {
    && (forall i :: 0 <= i < |forwards| ==> forwards[i] in seen)
    && (forall i, j :: 0 <= i < j < |forwards| ==> forwards[i] != forwards[j])
  }

  /**
   * How far a request has come: the nodes that have seen it, the copies on their way, and what was sent and forwarded.
   */
  datatype Flow = Flow(seen: set<int>, flight: seq<Copy>, sent: nat, forwards: seq<int>)

  /** The nodes that sent the request. */
  ghost function Senders(origin: int, x: Flow): set<int> { (set u | u in x.forwards) + {origin} }

  /** How many copies can have been sent: with connections both ways, none goes back to where it came from. */
  ghost predicate Affordable(g: Network, origin: int, x: Flow)
    requires 0 <= origin < |g|
  {
    && x.sent <= |g[origin]| + Degrees(g, x.seen, |g|)
    && (TwoWay(g) ==> x.sent + |x.seen| <= |g[origin]| + Degrees(g, x.seen, |g|))
  }

  /** A request sent by `origin` spreads along its senders, each of which forwarded it once. */
  ghost predicate Flows(g: Network, origin: int, x: Flow) {
    && Connected(g) && 0 <= origin < |g| && Spreading(g, x.seen + {origin}, Senders(origin, x), x.flight)
    && Traced(g, origin, Senders(origin, x), x.seen + {origin})
    && Affordable(g, origin, x) && Once(x.forwards, x.seen)
  }

  ghost function Flowing(g: Network, origin: int): iset<Flow> { iset x | Flows(g, origin, x) }

  /** The origin sends the request to all its peers. */
  function First(g: Network, origin: int): Flow
    requires 0 <= origin < |g|
  {
    var copies := Copies(g, origin, -1, |g[origin]|);
    Flow({}, copies, |copies|, [])
  }

  /** Copy i arrives, and is forwarded or not. */
  function Arrived(g: Network, x: Flow, i: nat, forward: bool): Flow
    requires i < |x.flight| && 0 <= x.flight[i].to < |g|
  {
    var c := x.flight[i];
    var copies := if forward then Copies(g, c.to, c.from, |g[c.to]|) else [];
    Flow(x.seen + {c.to}, Without(x.flight, i) + copies, x.sent + |copies|,
        if forward then x.forwards + [c.to] else x.forwards)
  }

  lemma FlowsTo(g: Network, origin: int, x: Flow, i: nat)
    requires x in Flowing(g, origin) && i < |x.flight|
    ensures 0 <= x.flight[i].to < |g| && IsNode(g, x.flight[i].to)
  {
    assert x.flight[i] in x.flight;
  }

  lemma AffordsOn(g: Network, origin: int, x: Flow, i: nat, forward: bool)
    requires x in Flowing(g, origin) && i < |x.flight| && 0 <= x.flight[i].to < |g|
    requires x.flight[i].to in x.seen ==> !forward
    ensures Affordable(g, origin, Arrived(g, x, i, forward))
  {
    var c := x.flight[i];
    assert c in x.flight && Peers(g, c.from, c.to);
    if c.to in x.seen {
      assert x.seen + {c.to} == x.seen;
    } else {
      DegreesMore(g, x.seen, c.to, |g|);
      if TwoWay(g) {
        assert Peers(g, c.to, c.from);
        CopiesCount(g, c.to, c.from, |g[c.to]|);
        assert g[c.to][..|g[c.to]|] == g[c.to];
      }
    }
  }

  lemma FlowsOn(g: Network, origin: int, x: Flow, i: nat, forward: bool)
    requires x in Flowing(g, origin) && i < |x.flight| && 0 <= x.flight[i].to < |g|
    requires x.flight[i].to in x.seen ==> !forward
    ensures Arrived(g, x, i, forward) in Flowing(g, origin)
  {
    var c, y := x.flight[i], Arrived(g, x, i, forward);
    var has, senders := x.seen + {origin}, Senders(origin, x);
    assert c in x.flight;
    assert y.seen + {origin} == has + {c.to};
    assert Senders(origin, y) == senders + if forward then {c.to} else {};
    ArrivalSpreads(g, has, senders, x.flight, i, forward);
    TracedOn(g, origin, senders, has, Senders(origin, y), c);
    AffordsOn(g, origin, x, i, forward);
  }

  lemma FlowsFirst(g: Network, origin: int)
    requires Connected(g) && 0 <= origin < |g|
    ensures First(g, origin) in Flowing(g, origin)
  {
    var x := First(g, origin);
    assert IsNode(g, origin) && x.seen + {origin} == {origin} == Senders(origin, x);
    CopiesValid(g, origin, -1, |g[origin]|);
    forall j | 0 <= j < |g[origin]| ensures Copy(origin, g[origin][j]) in x.flight {
      CopiesCover(g, origin, -1, |g[origin]|, j);
    }
    assert Relays(g, origin, {origin}, origin, 0);
  }

  lemma {:induction false} DistinctFit(s: seq<int>, t: set<int>)
    requires Distinct(s) && forall i :: 0 <= i < |s| ==> s[i] in t
    ensures |s| <= |t|
  {
    if s != [] {
      var n := |s| - 1;
      assert s[n] in t && |t - {s[n]}| == |t| - 1;
      DistinctFit(s[..n], t - {s[n]});
    }
  }

  /**
   * When nothing is on its way, the nodes that have seen the request are those that the senders connect to the origin;
   * and no more copies were sent than they have peers.
   */
  lemma FlowsEverywhere(g: Network, origin: int, x: Flow)
    requires x in Flowing(g, origin) && x.flight == []
    ensures forall v :: v != origin ==> (v in x.seen <==> Relayed(g, origin, Senders(origin, x), v))
    ensures TwoWay(g) ==> x.sent <= Degrees(g, x.seen, |g|)
  {
    var has, senders := x.seen + {origin}, Senders(origin, x);
    forall v | v != origin && Relayed(g, origin, senders, v) ensures v in x.seen {
      var k :| Relays(g, origin, senders, v, k);
      Covered(g, has, senders, origin, v, k);
    }
    if TwoWay(g) {
      forall j | 0 <= j < |g[origin]| ensures g[origin][j] in x.seen { assert Peers(g, origin, g[origin][j]); }
      DistinctFit(g[origin], x.seen);
    }
  }

  /** When every other node that saw the request forwarded it, every node connected to the origin has seen it. */
  lemma {:induction false} AllForwarded(g: Network, origin: int, x: Flow, v: int, k: nat)
    requires x in Flowing(g, origin) && x.flight == [] && Reaches(g, origin, v, k)
    requires forall u :: u in x.seen && u != origin ==> u in x.forwards
    ensures v in x.seen || v == origin
    decreases k
  {
    if k > 0 {
      var u :| Reaches(g, origin, u, k - 1) && Peers(g, u, v);
      AllForwarded(g, origin, x, u, k - 1);
      var j :| 0 <= j < |g[u]| && g[u][j] == v;
      assert u in Senders(origin, x) && g[u][j] in x.seen + {origin};
    }
  }

  /** What happens at one arrival: which copy it is, when, and whether the handler returns without forwarding. */
  datatype Arrival = Arrival(copy: nat, time: Time, fudge: nat, again: nat -> Option<Time>, declines: bool)

  /** The request arrives at node v of a network of nodes, each of which remembers the requests it has seen. */
  method Hear(nodes: seq<Seen>, request: Request, starts: seq<nat>, ghost seen: set<int>, v: int, a: Arrival)
    returns (known: bool)
    requires Tracks(nodes, request, starts, seen) && 0 <= v < |nodes|
    modifies nodes[v]
    ensures Tracks(nodes, request, starts, seen + {v}) && known == (v in seen)
  {
    known := nodes[v].Hear(request, starts[v], a.time, a.fudge, a.again);
  }

  /**
   * Any copy arrives, at any time within the retention period of the node. Where the request is known the copy is
   * dropped. Otherwise the handler decides: it forwards the request to all peers but the one it came from, or it
   * returns before, as the handlers do for a request that changes nothing for them.
   */
  method Deliver(g: Network, nodes: seq<Seen>, request: Request, starts: seq<nat>, ghost origin: int, x: Flow, i: nat,
                 a: Arrival)
    returns (y: Flow)
    requires |nodes| == |g| && Tracks(nodes, request, starts, x.seen) && x in Flowing(g, origin) && i < |x.flight|
    modifies nodes
    ensures Tracks(nodes, request, starts, y.seen) && y in Flowing(g, origin) && IsNode(g, x.flight[i].to)
    ensures y == Arrived(g, x, i, x.flight[i].to !in x.seen && !a.declines)
  {
    FlowsTo(g, origin, x, i);
    var known := Hear(nodes, request, starts, x.seen, x.flight[i].to, a);
    FlowsOn(g, origin, x, i, !known && !a.declines);
    y := Arrived(g, x, i, !known && !a.declines);
  }

  /**
   * A request that is new everywhere floods the network from `origin`, in any order, at any times within a retention
   * period, and whatever the handlers decide: it ends; each node forwards it at most once; no more copies are sent
   * than the nodes that saw it have peers; and those are exactly the nodes that senders of it connect to the origin.
   */
  method Spread(g: Network, nodes: seq<Seen>, request: Request, origin: int, starts: seq<nat>,
                arrivals: nat -> Arrival)
    returns (x: Flow)
    requires Connected(g) && |nodes| == |g| && 0 <= origin < |g| && Tracks(nodes, request, starts, {})
    modifies nodes
    ensures Tracks(nodes, request, starts, x.seen) && x.flight == [] && Once(x.forwards, x.seen)
    ensures TwoWay(g) ==> x.sent <= Degrees(g, x.seen, |g|)
    ensures forall v :: v != origin ==> (v in x.seen <==> Relayed(g, origin, Senders(origin, x), v))
    ensures x in Flowing(g, origin)
  {
    FlowsFirst(g, origin);
    x := DeliverAll(g, nodes, request, starts, origin, First(g, origin), arrivals);
    FlowsEverywhere(g, origin, x);
  }

  /** Copies arrive until none is on its way. */
  method DeliverAll(g: Network, nodes: seq<Seen>, request: Request, starts: seq<nat>, ghost origin: int, first: Flow,
                    arrivals: nat -> Arrival)
    returns (x: Flow)
    requires |nodes| == |g| && Tracks(nodes, request, starts, first.seen) && first in Flowing(g, origin)
    modifies nodes
    ensures Tracks(nodes, request, starts, x.seen) && x in Flowing(g, origin) && x.flight == []
  {
    x := first;
    var n := 0;
    while x.flight != []
      invariant Tracks(nodes, request, starts, x.seen) && x in Flowing(g, origin)
      decreases All(g) - x.seen, |x.flight|
    {
      var a := arrivals(n);
      ghost var y, i := x, a.copy % |x.flight|;
      x := Deliver(g, nodes, request, starts, origin, x, a.copy % |x.flight|, a);
      Nearer(g, y, i, x);
      n := n + 1;
    }
  }

  /** An arrival reaches a new node, or there is a copy less. */
  lemma Nearer(g: Network, x: Flow, i: nat, y: Flow)
    requires i < |x.flight| && IsNode(g, x.flight[i].to)
    requires exists forward :: y == Arrived(g, x, i, forward) && (x.flight[i].to in x.seen ==> !forward)
    ensures All(g) - y.seen < All(g) - x.seen || (y.seen == x.seen && |y.flight| < |x.flight|)
  {
    var v := x.flight[i].to;
    if v in x.seen { assert x.seen + {v} == x.seen; } else { assert v in All(g) - x.seen && v !in All(g) - y.seen; }
  }

  lemma {:induction false} Covered(g: Network, has: set<int>, senders: set<int>, origin: int, v: int, k: nat)
    requires Spreading(g, has, senders, []) && origin in has && Relays(g, origin, senders, v, k)
    ensures v in has
    decreases k
  {
    if k > 0 {
      var u :| Relays(g, origin, senders, u, k - 1) && u in senders && Peers(g, u, v);
      var j :| 0 <= j < |g[u]| && g[u][j] == v;
      assert g[u][j] in has;
    }
  }
}
