/** Sequence numbers of two sessions: what every run sends and receives, counted from the start.

    A record is sealed under a key and a number.  The pair must not be used twice, so this is about
    how the numbers advance, over re-keyings as well. */
module SptpsNumbers {
  import opened Wrappers
  import opened SptpsSession
  import opened SptpsPair

  /** Numbers have 32 bits. */
  const WRAP: nat := 0x1_0000_0000

  /** All that a side ever sent, and how many records it received. */
  datatype Traffic = Traffic(sent: seq<Wire>, received: nat)

  datatype Log = Log(p: Pair, i: Traffic, r: Traffic)

  /** Side x became x' by acting, and y became y'. */
  function Count(t: Traffic, x: Side, y: Side, x': Side, y': Side): Traffic {
    Traffic(t.sent + (if |x.queue| <= |x'.queue| then x'.queue[|x.queue|..] else []),
            t.received + if |y'.queue| <= |y.queue| then |y.queue| - |y'.queue| else 0)
  }

  function StepLog(l: Log, ev: Event): Option<Log> {
    match Step(l.p, ev)
    case None => None
    case Some(q) =>
      if ev.atInitiator then Some(Log(q, Count(l.i, l.p.i, l.p.r, q.i, q.r), l.r))
      else Some(Log(q, l.i, Count(l.r, l.p.r, l.p.i, q.r, q.i)))
  }

  function RunLog(l: Log, evs: seq<Event>): Option<Log>
    decreases |evs|
  {
    if evs == [] then Some(l)
    else match StepLog(l, evs[0])
      case None => None
      case Some(m) => RunLog(m, evs[1..])
  }

  /** Both sessions have sent their first KEX. */
  function StartLog(sessionLabel: string, ki: Kex, kr: Kex): Log {
    var p := StartPair(sessionLabel, ki, kr);
    Log(p, Traffic(p.i.queue, 0), Traffic(p.r.queue, 0))
  }

  // ----- one call

  /** A record that would be sealed is sealed under a key of one's own. */
  ghost predicate Keyed(s: Session) { s.outstate ==> s.outkey.Some? && s.outkey.value.second == s.initiator }

  /** Application records are sealed, and their types are below 128. */
  ghost predicate Typed(w: Wire) { w.body.AppBody? ==> w.Sealed? && w.body.kind < 128 }

  /** Sealed records carry consecutive numbers from n on, under keys of one role. */
  ghost predicate Numbered(sent: seq<Wire>, n: nat, initiator: bool) {
    forall k :: 0 <= k < |sent| ==>
      && Typed(sent[k])
      && (sent[k].Sealed? ==>
            sent[k].seqno == (n + k) % WRAP && sent[k].key.Some? && sent[k].key.value.second == initiator)
  }

  ghost predicate InRange(s: Session) { s.outseqno < WRAP && s.inseqno < WRAP && Keyed(s) }

  /** A call that took `received` records and had effect e. */
  ghost predicate Counts(s: Session, e: Effect, received: nat) {
    && e.s.outseqno == (s.outseqno + |e.sent|) % WRAP && e.s.inseqno == (s.inseqno + received) % WRAP
    && Numbered(e.sent, s.outseqno, s.initiator) && Keyed(e.s) && e.s.initiator == s.initiator
  }

  lemma SendCounts(s: Session, body: Body)
    requires InRange(s) && (body.AppBody? ==> s.outstate && body.kind < 128)
    ensures Counts(s, SendRecord(s, body), 0)
  {
  }

  lemma ForceCounts(s: Session, k: Kex)
    requires InRange(s)
    ensures var e := ForceKex(s, k); e.Some? ==> Counts(s, e.value, 0)
  {
  }

  lemma KexCounts(s: Session, body: Body)
    requires InRange(s)
    ensures var e := KexPhase(s, body); e.Some? ==> Counts(s, e.value, 0) && |e.value.sent| == 1
  {
  }

  lemma SigCounts(s: Session, body: Body, k: Kex)
    requires InRange(s) && s.phase == AwaitSig
    ensures var e := ReceiveHandshake(s, body, k); e.Some? ==> Counts(s, e.value, 0)
  {
    var e := ReceiveSig(s, body);
    if e.Some? { assert Counts(s, e.value, 0); }
  }

  lemma RekeyCounts(s: Session, body: Body, k: Kex)
    requires InRange(s) && s.phase == SecondaryKex
    ensures var e := ReceiveHandshake(s, body, k); e.Some? ==> Counts(s, e.value, 0)
  {
    var e := SendKex(s, k);
    if e.Some? {
      assert Counts(s, e.value, 0) && |e.value.sent| == 1;
      KexCounts(e.value.s, body);
    }
  }

  lemma HandshakeCounts(s: Session, body: Body, k: Kex)
    requires InRange(s)
    ensures var e := ReceiveHandshake(s, body, k); e.Some? ==> Counts(s, e.value, 0)
  {
    match s.phase
    case SecondaryKex => RekeyCounts(s, body, k);
    case AwaitKex => KexCounts(s, body);
    case AwaitSig => SigCounts(s, body, k);
    case AwaitAck =>
  }

  lemma BumpMod(n: nat)
    requires n < WRAP
    ensures Bump(n) == (n + 1) % WRAP
  {
  }

  lemma TakenCounts(s: Session, body: Body, k: Kex)
    requires InRange(s) && !body.AppBody?
    ensures var e := ReceiveHandshake(s.(inseqno := Bump(s.inseqno)), body, k); e.Some? ==> Counts(s, e.value, 1)
  {
    BumpMod(s.inseqno);
    HandshakeCounts(s.(inseqno := Bump(s.inseqno)), body, k);
  }

  /** A record that is received advances one number by one, and the answers the other one. */
  lemma ReceiveCounts(s: Session, w: Wire, k: Kex)
    requires InRange(s)
    ensures var e := Receive(s, w, k); e.Some? ==> Counts(s, e.value, 1)
  {
    BumpMod(s.inseqno);
    var body := Open(s, w);
    if body.Some? && !body.value.AppBody? { TakenCounts(s, body.value, k); }
  }

  // ----- whole runs

  /** What is in flight from x to y is what x sent and y has not received. */
  ghost predicate Tallied(x: Side, tx: Traffic, ty: Traffic) {
    && x.s.outseqno == |tx.sent| % WRAP && x.s.inseqno == tx.received % WRAP
    && Numbered(tx.sent, 0, x.s.initiator) && Keyed(x.s)
    && ty.received <= |tx.sent| && x.queue == tx.sent[ty.received..]
  }

  ghost predicate LogOk(l: Log) { Tallied(l.p.i, l.i, l.r) && Tallied(l.p.r, l.r, l.i) }

  lemma AddMod(a: nat, b: nat)
    ensures (a % WRAP + b) % WRAP == (a + b) % WRAP
  {
    assert a == a / WRAP * WRAP + a % WRAP;
    MultipleMod(a % WRAP + b, a / WRAP);
  }

  lemma {:induction false} MultipleMod(a: nat, k: nat)
    ensures (a + k * WRAP) % WRAP == a % WRAP
  {
    if k > 0 {
      MultipleMod(a, k - 1);
      assert a + k * WRAP == a + (k - 1) * WRAP + WRAP;
    }
  }

  /** What an action comes to: an effect, and one record taken or none. */
  lemma ActCounts(x: Side, y: Side, a: Action) returns (e: Effect, received: nat)
    requires InRange(x.s) && Act(x, y, a).Some?
    ensures received <= |y.queue| && Counts(x.s, e, received)
    ensures var (x', y') := Act(x, y, a).value;
            x'.s == e.s && x'.queue == x.queue + e.sent && y' == y.(queue := y.queue[received..])
  {
    e, received := Effect(x.s, [], []), 0;
    match a
    case Send(kind, data) =>
      if x.s.outstate && kind < HANDSHAKE {
        SendCounts(x.s, AppBody(kind, data));
        e := SendRecord(x.s, AppBody(kind, data));
      }
    case Force(k) =>
      if x.s.outstate {
        ForceCounts(x.s, k);
        e := ForceKex(x.s, k).value;
      }
    case Deliver(k) =>
      if y.queue != [] {
        ReceiveCounts(x.s, y.queue[0], k);
        e, received := Receive(x.s, y.queue[0], k).value, 1;
      }
  }

  lemma NumberedMore(a: seq<Wire>, b: seq<Wire>, initiator: bool)
    requires Numbered(a, 0, initiator) && Numbered(b, |a| % WRAP, initiator)
    ensures Numbered(a + b, 0, initiator)
  {
    forall k | 0 <= k < |a + b|
      ensures var w := (a + b)[k];
              && Typed(w)
              && (w.Sealed? ==> w.seqno == (0 + k) % WRAP && w.key.Some? && w.key.value.second == initiator)
    {
      if k < |a| {
        assert (a + b)[k] == a[k];
      } else {
        AddMod(|a|, k - |a|);
        assert (a + b)[k] == b[k - |a|];
      }
    }
  }

  lemma TallyMore(x: Side, tx: Traffic, ty: Traffic, x': Side, e: Effect, received: nat)
    requires Tallied(x, tx, ty) && Counts(x.s, e, received) && x'.s == e.s && x'.queue == x.queue + e.sent
    ensures Tallied(x', Traffic(tx.sent + e.sent, tx.received + received), ty)
  {
    AddMod(|tx.sent|, |e.sent|);
    AddMod(tx.received, received);
    NumberedMore(tx.sent, e.sent, x.s.initiator);
  }

  lemma CountIs(t: Traffic, x: Side, y: Side, x': Side, y': Side, sent: seq<Wire>, received: nat)
    requires x'.queue == x.queue + sent && received <= |y.queue| && y'.queue == y.queue[received..]
    ensures Count(t, x, y, x', y') == Traffic(t.sent + sent, t.received + received)
  {
    assert x'.queue[|x.queue|..] == sent;
  }

  lemma BothTally(x: Side, y: Side, tx: Traffic, ty: Traffic, x': Side, y': Side, e: Effect, received: nat)
    requires Tallied(x, tx, ty) && Tallied(y, ty, tx) && Counts(x.s, e, received) && x'.s == e.s
    requires x'.queue == x.queue + e.sent && received <= |y.queue| && y' == y.(queue := y.queue[received..])
    ensures var t := Count(tx, x, y, x', y'); Tallied(x', t, ty) && Tallied(y', ty, t)
  {
    CountIs(tx, x, y, x', y', e.sent, received);
    TallyMore(x, tx, ty, x', e, received);
    assert y'.queue == ty.sent[tx.received + received..];
  }

  lemma ActTallies(x: Side, y: Side, tx: Traffic, ty: Traffic, a: Action)
    requires Tallied(x, tx, ty) && Tallied(y, ty, tx) && Act(x, y, a).Some?
    ensures var (x', y') := Act(x, y, a).value;
            var t := Count(tx, x, y, x', y');
            Tallied(x', t, ty) && Tallied(y', ty, t)
  {
    var e, received := ActCounts(x, y, a);
    var r := Act(x, y, a).value;
    BothTally(x, y, tx, ty, r.0, r.1, e, received);
  }

  lemma {:induction false} RunTallies(l: Log, evs: seq<Event>)
    requires LogOk(l) && Inv(l.p)
    ensures RunLog(l, evs).Some? && LogOk(RunLog(l, evs).value)
    ensures Run(l.p, evs) == Some(RunLog(l, evs).value.p)
    decreases |evs|
  {
    if evs != [] {
      StepSafe(l.p, evs[0]);
      if evs[0].atInitiator {
        ActTallies(l.p.i, l.p.r, l.i, l.r, evs[0].action);
      } else {
        ActTallies(l.p.r, l.p.i, l.r, l.i, evs[0].action);
      }
      RunTallies(StepLog(l, evs[0]).value, evs[1..]);
    }
  }

  lemma {:induction false} RunLogRoles(sessionLabel: string, ki: Kex, kr: Kex, evs: seq<Event>)
    requires Run(StartPair(sessionLabel, ki, kr), evs).Some?
    ensures var p := Run(StartPair(sessionLabel, ki, kr), evs).value; p.i.s.initiator && !p.r.s.initiator
  {
    RunRoles(StartPair(sessionLabel, ki, kr), evs);
  }

  /** In every run each end's numbers count what it has sent and received, modulo 2^32; a sealed
      record carries the number of its place among all that its end sent; and what is in flight is
      what was sent and not yet received. */
  lemma EveryRunCounts(sessionLabel: string, ki: Kex, kr: Kex, evs: seq<Event>)
    ensures var o := RunLog(StartLog(sessionLabel, ki, kr), evs);
            && o.Some? && Run(StartPair(sessionLabel, ki, kr), evs) == Some(o.value.p) && LogOk(o.value)
            && o.value.p.i.s.initiator && !o.value.p.r.s.initiator
  {
    StartInv(sessionLabel, ki, kr);
    var l := StartLog(sessionLabel, ki, kr);
    RunTallies(l, evs);
    RunLogRoles(sessionLabel, ki, kr, evs);
  }

  /** The number that a record was sealed under is used again exactly 2^32 records later. */
  lemma NumberReused(sent: seq<Wire>, initiator: bool, j: nat, k: nat)
    requires Numbered(sent, 0, initiator) && j < k < |sent| && sent[j].Sealed? && sent[k].Sealed?
    ensures sent[j].seqno == sent[k].seqno <==> (k - j) % WRAP == 0
  {
    AddMod(j, k - j);
    var d := (k - j) % WRAP;
    AddMod(k - j, j);
    assert k % WRAP == (d + j) % WRAP;
    AddMod(j, d);
    assert k % WRAP == (j % WRAP + d) % WRAP;
  }

  /** All that both ends sent. */
  ghost function AllSent(l: Log): seq<Wire> { l.i.sent + l.r.sent }

  /** Not sealed under the same key and number. */
  ghost predicate Apart(v: Wire, w: Wire) { v.Sealed? && w.Sealed? ==> v.key != w.key || v.seqno != w.seqno }

  lemma SealedOnce(l: Log, j: nat, k: nat)
    requires LogOk(l) && l.p.i.s.initiator && !l.p.r.s.initiator && |l.i.sent| <= WRAP && |l.r.sent| <= WRAP
    requires j < k < |AllSent(l)|
    ensures Apart(AllSent(l)[j], AllSent(l)[k])
  {
    var n := |l.i.sent|;
    if AllSent(l)[j].Sealed? && AllSent(l)[k].Sealed? {
      if k < n {
        NumberReused(l.i.sent, true, j, k);
      } else if j >= n {
        NumberReused(l.r.sent, false, j - n, k - n);
      }
    }
  }

  /** No two sealed records of a run in which each end sends at most 2^32 share key and number. */
  lemma NeverSealedTwice(sessionLabel: string, ki: Kex, kr: Kex, evs: seq<Event>)
    ensures var o := RunLog(StartLog(sessionLabel, ki, kr), evs);
            && o.Some?
            && (|o.value.i.sent| <= WRAP && |o.value.r.sent| <= WRAP ==>
                  forall j, k :: 0 <= j < k < |AllSent(o.value)| ==> Apart(AllSent(o.value)[j], AllSent(o.value)[k]))
  {
    EveryRunCounts(sessionLabel, ki, kr, evs);
    var l := RunLog(StartLog(sessionLabel, ki, kr), evs).value;
    if |l.i.sent| <= WRAP && |l.r.sent| <= WRAP {
      forall j, k | 0 <= j < k < |AllSent(l)|
        ensures Apart(AllSent(l)[j], AllSent(l)[k])
      {
        SealedOnce(l, j, k);
      }
    }
  }

  // ----- beyond 2^32 records

  function Sends(n: nat, kind: nat, data: seq<byte>): seq<Event> { seq(n, i => Event(true, Send(kind, data))) }

  lemma {:induction false} SendsSealed(l: Log, n: nat, kind: nat, data: seq<byte>)
    requires l.p.i.s.outstate && kind < 128
    ensures var o := RunLog(l, Sends(n, kind, data));
            && o.Some? && |o.value.i.sent| == |l.i.sent| + n && l.i.sent <= o.value.i.sent
            && forall k :: |l.i.sent| <= k < |o.value.i.sent| ==>
                 o.value.i.sent[k].Sealed? && o.value.i.sent[k].key == l.p.i.s.outkey
    decreases n
  {
    if n > 0 {
      var evs := Sends(n, kind, data);
      assert evs[1..] == Sends(n - 1, kind, data);
      var m := StepLog(l, evs[0]).value;
      var w := Sealed(l.p.i.s.outkey, l.p.i.s.outseqno, AppBody(kind, data));
      assert m.p.i.queue == l.p.i.queue + [w];
      assert m.i.sent == l.i.sent + [w];
      SendsSealed(m, n - 1, kind, data);
    }
  }

  lemma {:induction false} FirstStep(l: Log, a: seq<Event>, b: seq<Event>) returns (m: Log)
    requires a != [] && RunLog(l, a).Some?
    ensures RunLog(l, a) == RunLog(m, a[1..]) && RunLog(l, a + b) == RunLog(m, a[1..] + b)
  {
    m := StepLog(l, a[0]).value;
    assert (a + b)[0] == a[0] && (a + b)[1..] == a[1..] + b;
  }

  lemma {:induction false} RunLogMore(l: Log, a: seq<Event>, b: seq<Event>)
    requires RunLog(l, a).Some?
    ensures RunLog(l, a + b) == RunLog(RunLog(l, a).value, b)
    decreases |a|
  {
    if a == [] {
      assert a + b == b;
    } else {
      var m := FirstStep(l, a, b);
      RunLogMore(m, a[1..], b);
    }
  }

  /** Nothing forces a new key in time: after any run, 2^32 further records and one more make an
      end seal two records under the same key and number. */
  lemma {:induction false} SealedTwice(sessionLabel: string, ki: Kex, kr: Kex, evs: seq<Event>, kind: nat,
      data: seq<byte>)
      returns (more: seq<Event>, j: nat, k: nat)
    requires var o := Run(StartPair(sessionLabel, ki, kr), evs); o.Some? && o.value.i.s.outstate && kind < 128
    ensures var o := RunLog(StartLog(sessionLabel, ki, kr), evs + more);
            o.Some? && j < k < |o.value.i.sent| && !Apart(o.value.i.sent[j], o.value.i.sent[k])
  {
    EveryRunCounts(sessionLabel, ki, kr, evs);
    var l := RunLog(StartLog(sessionLabel, ki, kr), evs).value;
    more := Sends(WRAP + 1, kind, data);
    j, k := |l.i.sent|, |l.i.sent| + WRAP;
    SendsSealed(l, WRAP + 1, kind, data);
    RunLogMore(StartLog(sessionLabel, ki, kr), evs, more);
    EveryRunCounts(sessionLabel, ki, kr, evs + more);
    var m := RunLog(StartLog(sessionLabel, ki, kr), evs + more).value;
    NumberReused(m.i.sent, true, j, k);
  }
}
