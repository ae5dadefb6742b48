/** Two honest stream sessions joined by FIFO queues, under every interleaving of application
    records, (possibly simultaneous) forced re-keys and deliveries.

    The handshake messages of one direction form a fixed order: KEX and SIG of epoch 0, then KEX,
    SIG and ACK of every later epoch.  How far along that order a side has sent and received is a
    function of its phase and of how many KEX messages it generated, and everything else in the
    session is a function of those two positions. */
module SptpsPair {
  import opened Wrappers
  import opened SptpsSession

  /** One end: its session, the records it sent that are still in flight, what its application
      submitted and received, and every KEX it generated. */
  datatype Side = Side(s: Session, queue: seq<Wire>, submitted: seq<Upcall>, got: seq<Upcall>, kexes: seq<Kex>)
  datatype Pair = Pair(i: Side, r: Side)

  datatype Action = Send(kind: nat, data: seq<byte>) | Force(newKex: Kex) | Deliver(newKex: Kex)
  datatype Event = Event(atInitiator: bool, action: Action)

  function Apps(up: seq<Upcall>): seq<Upcall> {
    if up == [] then [] else (if up[0].Record? then [up[0]] else []) + Apps(up[1..])
  }

  /** The KEX newly generated by a call, if any: the call left a different `mykex` behind. */
  function Generated(s: Session, t: Session, newKex: Kex): seq<Kex> {
    if s.phase == SecondaryKex && t.phase != SecondaryKex then [newKex] else []
  }

  function Apply(x: Side, e: Effect, newKex: Kex): Side {
    Side(e.s, x.queue + e.sent, x.submitted, x.got + Apps(e.up), x.kexes + Generated(x.s, e.s, newKex))
  }

  /** `x` acts; None is a call that returned an error. */
  function Act(x: Side, y: Side, a: Action): Option<(Side, Side)> {
    match a
    case Send(kind, data) =>
      if !x.s.outstate || kind >= HANDSHAKE then Some((x, y))
      else
        var e := SendRecord(x.s, AppBody(kind, data));
        Some((x.(s := e.s, queue := x.queue + e.sent, submitted := x.submitted + [Record(kind, data)]), y))
    case Force(k) =>
      if !x.s.outstate then Some((x, y))
      else (match ForceKex(x.s, k)
            case None => None
            case Some(e) => Some((Apply(x, e, k), y)))
    case Deliver(k) =>
      if y.queue == [] then Some((x, y))
      else (match Receive(x.s, y.queue[0], k)
            case None => None
            case Some(e) => Some((Apply(x, e, k), y.(queue := y.queue[1..]))))
  }

  function Step(p: Pair, ev: Event): Option<Pair> {
    if ev.atInitiator then
      match Act(p.i, p.r, ev.action)
      case None => None
      case Some((x, y)) => Some(Pair(x, y))
    else
      match Act(p.r, p.i, ev.action)
      case None => None
      case Some((x, y)) => Some(Pair(y, x))
  }

  function Run(p: Pair, evs: seq<Event>): Option<Pair>
    decreases |evs|
  {
    if evs == [] then Some(p)
    else match Step(p, evs[0])
      case None => None
      case Some(q) => Run(q, evs[1..])
  }

  function StartSide(initiator: bool, sessionLabel: string, k: Kex): Side {
    var e := Start(initiator, sessionLabel, k).value;
    Side(e.s, e.sent, [], [], [k])
  }

  function StartPair(sessionLabel: string, ki: Kex, kr: Kex): Pair {
    Pair(StartSide(true, sessionLabel, ki), StartSide(false, sessionLabel, kr))
  }

  // ----- the invariant

  function KexAt(ks: seq<Kex>, e: int): Kex {
    if 0 <= e < |ks| then ks[e] else Kex(0, 0)
  }

  datatype Kind = KEX | SIG | ACK

  /** A place in the order of handshake messages. */
  datatype Pos = Pos(epoch: int, kind: Kind)

  function Rank(k: Kind): int { match k case KEX => 0 case SIG => 1 case ACK => 2 }

  predicate Before(p: Pos, q: Pos) { p.epoch < q.epoch || (p.epoch == q.epoch && Rank(p.kind) < Rank(q.kind)) }

  predicate NotAfter(p: Pos, q: Pos) { p == q || Before(p, q) }

  function Next(p: Pos): Pos {
    match p.kind
    case KEX => Pos(p.epoch, SIG)
    case SIG => if p.epoch == 0 then Pos(1, KEX) else Pos(p.epoch, ACK)
    case ACK => Pos(p.epoch + 1, KEX)
  }

  /** The first handshake message not yet sent. */
  function SentTo(phase: Phase, n: int): Pos {
    match phase
    case AwaitKex => Pos(n - 1, SIG)
    case AwaitSig => if n == 1 then Pos(1, KEX) else Pos(n - 1, ACK)
    case AwaitAck => Pos(n, KEX)
    case SecondaryKex => Pos(n, KEX)
  }

  /** The first handshake message not yet received. */
  function ReceivedTo(phase: Phase, n: int): Pos {
    match phase
    case AwaitKex => Pos(n - 1, KEX)
    case AwaitSig => Pos(n - 1, SIG)
    case AwaitAck => Pos(n - 1, ACK)
    case SecondaryKex => Pos(n, KEX)
  }

  function Sent(x: Side): Pos { SentTo(x.s.phase, |x.kexes|) }

  function Received(x: Side): Pos { ReceivedTo(x.s.phase, |x.kexes|) }

  /** What a direction's messages are made of: the sender's role and both sides' KEX lists. */
  datatype Ctx = Ctx(initiator: bool, sessionLabel: string, mine: seq<Kex>, his: seq<Kex>)

  function CtxOf(x: Side, y: Side): Ctx { Ctx(x.s.initiator, x.s.sessionLabel, x.kexes, y.kexes) }

  /** The key material of epoch e, named without reference to either session's state. */
  function EpochMaterial(c: Ctx, e: int): Material {
    var i := KexAt(if c.initiator then c.mine else c.his, e);
    var r := KexAt(if c.initiator then c.his else c.mine, e);
    Material(Shared(i.secret, r.secret), i.nonce, r.nonce, c.sessionLabel)
  }

  /** The key for records sent just before handshake message p: the previous epoch's. */
  function SealKey(c: Ctx, p: Pos): Option<Key> {
    if p.epoch == 0 then None else Some(Half(EpochMaterial(c, p.epoch - 1), c.initiator))
  }

  function Message(c: Ctx, p: Pos): Body {
    match p.kind
    case KEX => KexBody(KexAt(c.mine, p.epoch))
    case SIG => SigBody(c.initiator, c.initiator, KexAt(c.mine, p.epoch), KexAt(c.his, p.epoch), c.sessionLabel)
    case ACK => AckBody
  }

  function SealAs(c: Ctx, p: Pos, seqno: nat, body: Body): Wire {
    if p.epoch == 0 then Plain(body) else Sealed(SealKey(c, p), seqno, body)
  }

  /** The queue holds the handshake messages from p up to p', interleaved with application
      records, each sealed under the key of its place in that order and with consecutive
      sequence numbers. */
  ghost predicate QueueOk(q: seq<Wire>, c: Ctx, p: Pos, seqno: nat, p': Pos, seqno': nat)
    decreases |q|
  {
    if q == [] then p == p' && seqno == seqno'
    else
      var b := q[0].body;
      && q[0] == SealAs(c, p, seqno, b)
      && (if b.AppBody? then p.epoch >= 1 && b.kind < HANDSHAKE else b == Message(c, p) && Before(p, p'))
      && QueueOk(q[1..], c, if b.AppBody? then p else Next(p), Bump(seqno), p', seqno')
  }

  function QueuedApps(q: seq<Wire>): seq<Upcall> {
    if q == [] then []
    else (if q[0].body.AppBody? then [Record(q[0].body.kind, q[0].body.data)] else []) + QueuedApps(q[1..])
  }

  /** The session's fields, all determined by its phase and the two KEX lists. */
  ghost predicate SessionFits(s: Session, c: Ctx) {
    var n := |c.mine|;
    var established := ReceivedTo(s.phase, n).epoch >= 1;
    && s.instate == established
    && s.outstate == established
    && s.mykex == (if s.phase.AwaitKex? || s.phase.AwaitSig? then Some(KexAt(c.mine, n - 1)) else None)
    && s.hiskex == (if s.phase.AwaitSig? then Some(KexAt(c.his, n - 1)) else None)
    && s.key == (if s.phase.AwaitAck? then Some(EpochMaterial(c, n - 1)) else None)
    && s.outkey == (if established then SealKey(c, SentTo(s.phase, n)) else None)
    && s.inkey == (if established then Some(Half(EpochMaterial(c, ReceivedTo(s.phase, n).epoch - 1), !c.initiator))
                   else None)
  }

  ghost predicate SessionOk(x: Side, y: Side) { SessionFits(x.s, CtxOf(x, y)) }

  /** The queue from x to y carries exactly what y still has to receive. */
  ghost predicate Link(x: Side, y: Side) {
    && QueueOk(x.queue, CtxOf(x, y), Received(y), y.s.inseqno, Sent(x), x.s.outseqno)
    && x.submitted == y.got + QueuedApps(x.queue)
  }

  /** Neither side has received more than the other has sent. */
  ghost predicate Level(x: Side, y: Side) {
    && |x.kexes| >= 1 && |y.kexes| >= 1
    && (x.s.phase.AwaitAck? ==> |x.kexes| >= 2)
    && (y.s.phase.AwaitAck? ==> |y.kexes| >= 2)
    && NotAfter(Received(x), Sent(y)) && NotAfter(Received(y), Sent(x))
  }

  ghost predicate Opposite(x: Side, y: Side) {
    x.s.initiator != y.s.initiator && x.s.sessionLabel == y.s.sessionLabel
  }

  ghost predicate Settled(x: Side, y: Side) {
    Opposite(x, y) && Level(x, y) && SessionOk(x, y) && SessionOk(y, x)
  }

  ghost predicate Peers(x: Side, y: Side) { Settled(x, y) && Link(x, y) && Link(y, x) }

  ghost predicate Inv(p: Pair) { Peers(p.i, p.r) }

  // ----- lemmas about queues

  /** Every KEX that messages before p' and keys up to p' mention is already in the lists. */
  ghost predicate Covered(c: Ctx, p': Pos) {
    && p'.epoch >= 0
    && p'.epoch + (if p'.kind.KEX? then 0 else 1) <= |c.mine|
    && p'.epoch + (if p'.kind.ACK? then 1 else 0) <= |c.his|
  }

  ghost predicate Extends(c: Ctx, c': Ctx) {
    && c'.initiator == c.initiator && c'.sessionLabel == c.sessionLabel
    && c.mine <= c'.mine && c.his <= c'.his
  }

  lemma MessageStable(c: Ctx, c': Ctx, p: Pos, p': Pos)
    requires Extends(c, c') && Covered(c, p') && p.epoch >= 0
    ensures Before(p, p') ==> Message(c, p) == Message(c', p)
    ensures NotAfter(p, p') ==> SealKey(c, p) == SealKey(c', p)
  {
  }

  lemma {:induction false} QueueStable(q: seq<Wire>, c: Ctx, c': Ctx, p: Pos, n: nat, p': Pos, n': nat)
    requires QueueOk(q, c, p, n, p', n') && Extends(c, c') && Covered(c, p') && p.epoch >= 0
    ensures QueueOk(q, c', p, n, p', n')
    ensures NotAfter(p, p')
    decreases |q|
  {
    if q != [] {
      QueueStable(q[1..], c, c', if q[0].body.AppBody? then p else Next(p), Bump(n), p', n');
      MessageStable(c, c', p, p');
    }
  }

  lemma {:induction false} QueueAppend(q: seq<Wire>, c: Ctx, p: Pos, n: nat, p': Pos, n': nat, body: Body)
    requires QueueOk(q, c, p, n, p', n')
    requires if body.AppBody? then p'.epoch >= 1 && body.kind < HANDSHAKE else body == Message(c, p')
    requires !body.AppBody? ==> Before(p', Next(p'))
    ensures QueueOk(q + [SealAs(c, p', n', body)], c, p, n, if body.AppBody? then p' else Next(p'), Bump(n'))
    decreases |q|
  {
    var w := SealAs(c, p', n', body);
    if q == [] {
      assert q + [w] == [w];
      assert [w][1..] == [];
    } else {
      QueueAppend(q[1..], c, if q[0].body.AppBody? then p else Next(p), Bump(n), p', n', body);
      assert (q + [w])[1..] == q[1..] + [w];
    }
  }

  lemma {:induction false} QueuedAppsAppend(q: seq<Wire>, w: Wire)
    ensures QueuedApps(q + [w]) == QueuedApps(q) + (if w.body.AppBody? then [Record(w.body.kind, w.body.data)] else [])
  {
    if q == [] {
      assert q + [w] == [w];
      assert [w][1..] == [];
    } else {
      QueuedAppsAppend(q[1..], w);
      assert (q + [w])[1..] == q[1..] + [w];
    }
  }

  // ----- every action preserves the invariant

  lemma Coverage(x: Side, y: Side)
    requires Level(x, y)
    ensures Covered(CtxOf(x, y), Sent(x))
    ensures |y.kexes| >= |x.kexes| - (if x.s.phase.AwaitKex? then 1 else 0)
  {
  }

  /** A new KEX at the far end changes nothing this end's session depends on. */
  lemma SessionStable(x: Side, y: Side, y': Side)
    requires Level(x, y) && SessionOk(x, y) && y.kexes <= y'.kexes
    requires y'.s.initiator == y.s.initiator && y'.s.sessionLabel == y.s.sessionLabel
    ensures SessionOk(x, y')
  {
    Coverage(x, y);
  }

  /** Equal but for sequence numbers, queue and application data. */
  ghost predicate SameHandshake(x: Side, x': Side) {
    x'.kexes == x.kexes && x'.s == x.s.(inseqno := x'.s.inseqno, outseqno := x'.s.outseqno)
  }

  lemma SessionSame(x: Side, y: Side, x': Side, y': Side)
    requires SameHandshake(x, x') && SameHandshake(y, y')
    ensures SessionOk(x, y) ==> SessionOk(x', y')
    ensures Level(x, y) ==> Level(x', y')
    ensures CtxOf(x', y') == CtxOf(x, y) && CtxOf(y', x') == CtxOf(y, x)
  {
  }

  /** Sending one record, with whatever else changed not affecting earlier messages. */
  lemma Push(x: Side, y: Side, x': Side, body: Body)
    requires Level(x, y) && Link(x, y) && x.kexes <= x'.kexes
    requires x'.s.initiator == x.s.initiator && x'.s.sessionLabel == x.s.sessionLabel
    requires var c := CtxOf(x', y);
             && x'.queue == x.queue + [SealAs(c, Sent(x), x.s.outseqno, body)]
             && x'.s.outseqno == Bump(x.s.outseqno)
             && if body.AppBody? then
                  Sent(x).epoch >= 1 && body.kind < HANDSHAKE && Sent(x') == Sent(x)
                  && x'.submitted == x.submitted + [Record(body.kind, body.data)]
                else body == Message(c, Sent(x)) && Sent(x') == Next(Sent(x)) && x'.submitted == x.submitted
    ensures Link(x', y)
  {
    var c := CtxOf(x, y);
    var c' := CtxOf(x', y);
    Coverage(x, y);
    QueueStable(x.queue, c, c', Received(y), y.s.inseqno, Sent(x), x.s.outseqno);
    QueueAppend(x.queue, c', Received(y), y.s.inseqno, Sent(x), x.s.outseqno, body);
    QueuedAppsAppend(x.queue, SealAs(c', Sent(x), x.s.outseqno, body));
  }

  /** The far end learning a new KEX leaves this direction's queue as it was. */
  lemma Hold(x: Side, y: Side, y': Side)
    requires Level(x, y) && Link(x, y) && y.kexes <= y'.kexes
    requires Received(y') == Received(y) && y'.s.inseqno == y.s.inseqno && y'.got == y.got
    ensures Link(x, y')
  {
    Coverage(x, y);
    QueueStable(x.queue, CtxOf(x, y), CtxOf(x, y'), Received(y), y.s.inseqno, Sent(x), x.s.outseqno);
  }

  lemma AppSent(x: Side, y: Side, kind: nat, data: seq<byte>, x': Side)
    requires Peers(x, y) && x.s.outstate && kind < HANDSHAKE
    requires var e := SendRecord(x.s, AppBody(kind, data));
             x' == x.(s := e.s, queue := x.queue + e.sent, submitted := x.submitted + [Record(kind, data)])
    ensures Peers(x', y)
  {
    SessionSame(x, y, x', y);
    SessionSame(y, x, y, x');
    Push(x, y, x', AppBody(kind, data));
    Hold(y, x, x');
  }

  lemma SendPreserves(x: Side, y: Side, kind: nat, data: seq<byte>)
    requires Peers(x, y)
    ensures var r := Act(x, y, Send(kind, data)); r.Some? && Peers(r.value.0, r.value.1)
  {
    if x.s.outstate && kind < HANDSHAKE {
      AppSent(x, y, kind, data, Act(x, y, Send(kind, data)).value.0);
    }
  }

  /** A side that has generated a KEX while idle is as one that waits for a KEX. */
  lemma KexFits(x: Side, y: Side, k: Kex, x': Side)
    requires Level(x, y) && SessionOk(x, y) && x.s.phase == SecondaryKex && x'.kexes == x.kexes + [k]
    requires x'.s == x.s.(phase := AwaitKex, mykex := Some(k), outseqno := x'.s.outseqno)
    ensures SessionOk(x', y) && Level(x', y)
  {
    Coverage(x, y);
  }

  lemma KexMade(x: Side, y: Side, k: Kex, x': Side)
    requires Settled(x, y) && x.s.phase == SecondaryKex && x'.kexes == x.kexes + [k]
    requires x'.s == x.s.(phase := AwaitKex, mykex := Some(k), outseqno := x'.s.outseqno)
    ensures Settled(x', y) && x.kexes <= x'.kexes
  {
    assert x.kexes <= x'.kexes;
    KexFits(x, y, k, x');
    SessionStable(y, x, x');
  }

  lemma KexPlaced(x: Side, y: Side, k: Kex, x': Side)
    requires Level(x, y) && x.s.phase == SecondaryKex && x'.s.phase == AwaitKex && x'.kexes == x.kexes + [k]
    requires x'.s.initiator == x.s.initiator && x'.s.sessionLabel == x.s.sessionLabel
    ensures SealKey(CtxOf(x', y), Sent(x)) == SealKey(CtxOf(x, y), Sent(x))
    ensures Message(CtxOf(x', y), Sent(x)) == KexBody(k) && Sent(x') == Next(Sent(x)) && Received(x') == Received(x)
  {
  }

  /** A KEX of a new epoch was generated and sent. */
  lemma KexSent(x: Side, y: Side, k: Kex, x': Side)
    requires Peers(x, y) && x.s.phase == SecondaryKex
    requires var e := SendRecord(x.s.(phase := AwaitKex, mykex := Some(k)), KexBody(k));
             x' == x.(s := e.s, queue := x.queue + e.sent, kexes := x.kexes + [k])
    ensures Peers(x', y)
  {
    KexMade(x, y, k, x');
    KexPlaced(x, y, k, x');
    Hold(y, x, x');
    Push(x, y, x', KexBody(k));
  }

  lemma ForcePreserves(x: Side, y: Side, k: Kex)
    requires Peers(x, y)
    ensures var r := Act(x, y, Force(k)); r.Some? && Peers(r.value.0, r.value.1)
  {
    if x.s.outstate && x.s.phase == SecondaryKex {
      KexSent(x, y, k, Act(x, y, Force(k)).value.0);
    } else {
      assert x.kexes + [] == x.kexes && x.queue + [] == x.queue && x.got + [] == x.got;
    }
  }

  /** x takes the head of y's queue: it opens, and it is what x's phase expects. */
  lemma Pop(x: Side, y: Side)
    requires Peers(x, y) && y.queue != []
    ensures Open(x.s, y.queue[0]) == Some(y.queue[0].body)
    ensures var b := y.queue[0].body;
            && (if b.AppBody? then x.s.instate && b.kind < HANDSHAKE
                else b == Message(CtxOf(y, x), Received(x)) && Before(Received(x), Sent(y)))
            && QueueOk(y.queue[1..], CtxOf(y, x),
                if b.AppBody? then Received(x) else Next(Received(x)), Bump(x.s.inseqno), Sent(y), y.s.outseqno)
            && QueuedApps(y.queue) == (if b.AppBody? then [Record(b.kind, b.data)] else []) + QueuedApps(y.queue[1..])
  {
  }

  /** Taking the head of the queue keeps the link. */
  lemma LinkPop(y: Side, x: Side, y': Side, x': Side)
    requires Link(y, x) && y.queue != [] && CtxOf(y', x') == CtxOf(y, x)
    requires y' == y.(queue := y.queue[1..]) && x'.s.inseqno == Bump(x.s.inseqno)
    requires var b := y.queue[0].body;
             && Received(x') == (if b.AppBody? then Received(x) else Next(Received(x)))
             && x'.got == x.got + (if b.AppBody? then [Record(b.kind, b.data)] else [])
    ensures Link(y', x')
  {
  }

  lemma AppArrives(x: Side, y: Side, x': Side, y': Side)
    requires Peers(x, y) && y.queue != [] && y.queue[0].body.AppBody?
    requires var b := y.queue[0].body;
             && x' == x.(s := x.s.(inseqno := Bump(x.s.inseqno)), got := x.got + [Record(b.kind, b.data)])
             && y' == y.(queue := y.queue[1..])
    ensures Peers(x', y')
  {
    Pop(x, y);
    SessionSame(x, y, x', y');
    SessionSame(y, x, y', x');
    LinkPop(y, x, y', x');
    assert Link(x', y');
  }

  // Arrival of each handshake message: first what happens to the session, then the whole step.

  ghost predicate Due(x: Side, y: Side) {
    Settled(x, y) && Before(Received(x), Sent(y))
  }

  lemma KexTaken(x: Side, y: Side, x': Side)
    requires Due(x, y) && x.s.phase == AwaitKex && x'.kexes == x.kexes
    requires x'.s == x.s.(inseqno := x'.s.inseqno, outseqno := x'.s.outseqno,
                          hiskex := Some(KexAt(y.kexes, |x.kexes| - 1)), phase := AwaitSig)
    ensures Settled(x', y)
  {
    Coverage(x, y);
  }

  lemma FirstSigTaken(x: Side, y: Side, x': Side)
    requires Due(x, y) && x.s.phase == AwaitSig && !x.s.outstate && x'.kexes == x.kexes
    requires var m := EpochMaterial(CtxOf(x, y), 0);
             x'.s == x.s.(inseqno := x'.s.inseqno, mykex := None, hiskex := None, instate := true, outstate := true,
                          inkey := Some(Half(m, !x.s.initiator)), outkey := Some(Half(m, x.s.initiator)),
                          phase := SecondaryKex)
    ensures Settled(x', y)
  {
    Coverage(x, y);
  }

  lemma SigTaken(x: Side, y: Side, x': Side)
    requires Due(x, y) && x.s.phase == AwaitSig && x.s.outstate && x'.kexes == x.kexes
    requires var m := EpochMaterial(CtxOf(x, y), |x.kexes| - 1);
             x'.s == x.s.(inseqno := x'.s.inseqno, outseqno := x'.s.outseqno, mykex := None, hiskex := None,
                          key := Some(m), outkey := Some(Half(m, x.s.initiator)), phase := AwaitAck)
    ensures Settled(x', y)
  {
    Coverage(x, y);
  }

  lemma AckTaken(x: Side, y: Side, x': Side)
    requires Due(x, y) && x.s.phase == AwaitAck && x'.kexes == x.kexes
    requires var m := EpochMaterial(CtxOf(x, y), |x.kexes| - 1);
             x'.s == x.s.(inseqno := x'.s.inseqno, key := None, inkey := Some(Half(m, !x.s.initiator)),
                          phase := SecondaryKex)
    ensures Settled(x', y)
  {
    Coverage(x, y);
  }

  lemma ArriveLinked(x: Side, y: Side, y': Side)
    requires Settled(x, y) && Link(x, y) && y' == y.(queue := y'.queue) && Link(y', x)
    ensures Peers(x, y')
  {
    SessionSame(x, y, x, y');
    SessionSame(y, x, y', x);
  }

  /** The step as a whole, once the session part is known to be settled. */
  lemma ArriveQuiet(x: Side, y: Side, x': Side, y': Side)
    requires Opposite(x, y) && Level(x, y) && Link(x, y) && Link(y, x) && y.queue != [] && !y.queue[0].body.AppBody?
    requires Settled(x', y) && x'.kexes == x.kexes && x'.s.initiator == x.s.initiator
    requires y' == y.(queue := y.queue[1..]) && x'.queue == x.queue
    requires x'.s.inseqno == Bump(x.s.inseqno) && Received(x') == Next(Received(x))
    requires x'.got == x.got && x'.submitted == x.submitted
    requires Sent(x') == Sent(x) && x'.s.outseqno == x.s.outseqno
    ensures Peers(x', y')
  {
    LinkPop(y, x, y', x');
    ArriveLinked(x', y, y');
  }

  lemma ArriveReply(x: Side, y: Side, x': Side, y': Side)
    requires Opposite(x, y) && Level(x, y) && Link(x, y) && Link(y, x) && y.queue != [] && !y.queue[0].body.AppBody?
    requires Settled(x', y) && x'.kexes == x.kexes && x'.s.initiator == x.s.initiator
    requires y' == y.(queue := y.queue[1..])
    requires x'.s.inseqno == Bump(x.s.inseqno) && Received(x') == Next(Received(x))
    requires x'.got == x.got && x'.submitted == x.submitted
    requires x'.queue == x.queue + [SealAs(CtxOf(x, y), Sent(x), x.s.outseqno, Message(CtxOf(x, y), Sent(x)))]
    requires Sent(x') == Next(Sent(x)) && x'.s.outseqno == Bump(x.s.outseqno)
    ensures Peers(x', y')
  {
    Push(x, y, x', Message(CtxOf(x, y), Sent(x)));
    LinkPop(y, x, y', x');
    ArriveLinked(x', y, y');
  }

  /** A handshake message that reaches its receiver is accepted and leaves both sides in step. */
  lemma KexArrives(x: Side, y: Side, x': Side, y': Side)
    requires Peers(x, y) && y.queue != [] && !y.queue[0].body.AppBody? && x.s.phase == AwaitKex
    requires y' == y.(queue := y.queue[1..])
    requires var e := KexPhase(x.s.(inseqno := Bump(x.s.inseqno)), y.queue[0].body);
             e.Some? ==> x' == x.(s := e.value.s, queue := x.queue + e.value.sent)
    ensures KexPhase(x.s.(inseqno := Bump(x.s.inseqno)), y.queue[0].body).Some?
    ensures Peers(x', y')
  {
    Pop(x, y);
    var e := KexPhase(x.s.(inseqno := Bump(x.s.inseqno)), y.queue[0].body);
    KexTaken(x, y, x');
    ArriveReply(x, y, x', y');
  }

  lemma FirstSigEffect(s: Session, body: Body, k: Kex)
    requires s.phase == AwaitSig && !s.outstate && s.mykex.Some? && s.hiskex.Some?
    requires body == SigBody(!s.initiator, !s.initiator, s.hiskex.value, s.mykex.value, s.sessionLabel)
    ensures var m := Materials(s, s.mykex.value, s.hiskex.value);
            ReceiveHandshake(s, body, k) == Some(Effect(
              s.(mykex := None, hiskex := None, key := None, instate := true, outstate := true, phase := SecondaryKex,
                 inkey := Some(Half(m, !s.initiator)), outkey := Some(Half(m, s.initiator))), [], [HandshakeDone]))
  {
  }

  lemma SigEffect(s: Session, body: Body, k: Kex)
    requires s.phase == AwaitSig && s.outstate && s.mykex.Some? && s.hiskex.Some?
    requires body == SigBody(!s.initiator, !s.initiator, s.hiskex.value, s.mykex.value, s.sessionLabel)
    ensures var m := Materials(s, s.mykex.value, s.hiskex.value);
            ReceiveHandshake(s, body, k) == Some(Effect(
              s.(mykex := None, hiskex := None, key := Some(m), phase := AwaitAck, outseqno := Bump(s.outseqno),
                 outkey := Some(Half(m, s.initiator))), [Sealed(s.outkey, s.outseqno, AckBody)], []))
  {
  }

  /** Applying an effect that delivers no application record and generates no KEX. */
  lemma ApplyQuiet(x: Side, e: Effect, k: Kex)
    requires e.up == [] || e.up == [HandshakeDone]
    requires Generated(x.s, e.s, k) == []
    ensures Apply(x, e, k) == x.(s := e.s, queue := x.queue + e.sent)
  {
    assert Apps(e.up) == [];
    assert x.got + [] == x.got && x.kexes + [] == x.kexes;
  }

  lemma FirstSigApplied(x: Side, y: Side, k: Kex)
    requires Due(x, y) && x.s.phase == AwaitSig && !x.s.outstate && y.queue != []
    requires Open(x.s, y.queue[0]) == Some(Message(CtxOf(y, x), Received(x)))
    ensures var m := EpochMaterial(CtxOf(x, y), 0);
            Act(x, y, Deliver(k)) == Some((
              x.(s := x.s.(inseqno := Bump(x.s.inseqno), mykex := None, hiskex := None, instate := true,
                           outstate := true, inkey := Some(Half(m, !x.s.initiator)),
                           outkey := Some(Half(m, x.s.initiator)), phase := SecondaryKex)),
              y.(queue := y.queue[1..])))
  {
    Coverage(x, y);
    FirstSigEffect(x.s.(inseqno := Bump(x.s.inseqno)), Message(CtxOf(y, x), Received(x)), k);
    ApplyQuiet(x, Receive(x.s, y.queue[0], k).value, k);
    assert x.queue + [] == x.queue;
  }

  lemma FirstSigArrives(x: Side, y: Side, k: Kex)
    requires Peers(x, y) && y.queue != [] && !y.queue[0].body.AppBody? && x.s.phase == AwaitSig && !x.s.outstate
    ensures var r := Act(x, y, Deliver(k)); r.Some? && Peers(r.value.0, r.value.1)
  {
    Pop(x, y);
    FirstSigApplied(x, y, k);
    var r := Act(x, y, Deliver(k)).value;
    FirstSigTaken(x, y, r.0);
    ArriveQuiet(x, y, r.0, r.1);
  }

  lemma SigApplied(x: Side, y: Side, k: Kex)
    requires Due(x, y) && x.s.phase == AwaitSig && x.s.outstate && y.queue != []
    requires Open(x.s, y.queue[0]) == Some(Message(CtxOf(y, x), Received(x)))
    ensures var m := EpochMaterial(CtxOf(x, y), |x.kexes| - 1);
            Act(x, y, Deliver(k)) == Some((
              x.(s := x.s.(inseqno := Bump(x.s.inseqno), outseqno := Bump(x.s.outseqno), mykex := None, hiskex := None,
                           key := Some(m), outkey := Some(Half(m, x.s.initiator)), phase := AwaitAck),
                 queue := x.queue + [SealAs(CtxOf(x, y), Sent(x), x.s.outseqno, AckBody)]),
              y.(queue := y.queue[1..])))
  {
    Coverage(x, y);
    SigEffect(x.s.(inseqno := Bump(x.s.inseqno)), Message(CtxOf(y, x), Received(x)), k);
    ApplyQuiet(x, Receive(x.s, y.queue[0], k).value, k);
  }

  lemma SigArrives(x: Side, y: Side, k: Kex)
    requires Peers(x, y) && y.queue != [] && !y.queue[0].body.AppBody? && x.s.phase == AwaitSig && x.s.outstate
    ensures var r := Act(x, y, Deliver(k)); r.Some? && Peers(r.value.0, r.value.1)
  {
    Pop(x, y);
    SigApplied(x, y, k);
    var r := Act(x, y, Deliver(k)).value;
    SigTaken(x, y, r.0);
    ArriveReply(x, y, r.0, r.1);
  }

  lemma AckApplied(x: Side, y: Side, k: Kex)
    requires Due(x, y) && x.s.phase == AwaitAck && y.queue != []
    requires Open(x.s, y.queue[0]) == Some(Message(CtxOf(y, x), Received(x)))
    ensures var m := EpochMaterial(CtxOf(x, y), |x.kexes| - 1);
            Act(x, y, Deliver(k)) == Some((
              x.(s := x.s.(inseqno := Bump(x.s.inseqno), key := None, inkey := Some(Half(m, !x.s.initiator)),
                           phase := SecondaryKex)),
              y.(queue := y.queue[1..])))
  {
    var e := Receive(x.s, y.queue[0], k);
    assert e.Some?;
    ApplyQuiet(x, e.value, k);
    assert x.queue + [] == x.queue;
  }

  lemma AckArrives(x: Side, y: Side, k: Kex)
    requires Peers(x, y) && y.queue != [] && !y.queue[0].body.AppBody? && x.s.phase == AwaitAck
    ensures var r := Act(x, y, Deliver(k)); r.Some? && Peers(r.value.0, r.value.1)
  {
    Pop(x, y);
    AckApplied(x, y, k);
    var r := Act(x, y, Deliver(k)).value;
    AckTaken(x, y, r.0);
    ArriveQuiet(x, y, r.0, r.1);
  }

  lemma FirstKexArrives(x: Side, y: Side, k: Kex)
    requires Peers(x, y) && y.queue != [] && !y.queue[0].body.AppBody? && x.s.phase == AwaitKex
    ensures var r := Act(x, y, Deliver(k)); r.Some? && Peers(r.value.0, r.value.1)
  {
    Pop(x, y);
    var e := KexPhase(x.s.(inseqno := Bump(x.s.inseqno)), y.queue[0].body);
    var x' := if e.Some? then x.(s := e.value.s, queue := x.queue + e.value.sent) else x;
    KexArrives(x, y, x', y.(queue := y.queue[1..]));
    ApplyQuiet(x, e.value, k);
  }

  lemma KexEffect(s: Session, body: Body, k: Kex)
    requires s.phase == SecondaryKex && s.mykex.None? && s.hiskex.None? && body.KexBody?
    ensures var sent := SendRecord(s.(phase := AwaitKex, mykex := Some(k)), KexBody(k));
            && KexPhase(sent.s, body).Some?
            && ReceiveHandshake(s, body, k) ==
               Some(Effect(KexPhase(sent.s, body).value.s, sent.sent + KexPhase(sent.s, body).value.sent, []))
  {
  }

  /** Answering a KEX while idle is generating one and then answering as if already waiting. */
  lemma AnswerIdle(x: Side, y: Side, k: Kex, x1: Side, x2: Side)
    requires y.queue != [] && Open(x.s, y.queue[0]) == Some(y.queue[0].body) && y.queue[0].body.KexBody?
    requires x.s.phase == SecondaryKex && x.s.mykex.None? && x.s.hiskex.None?
    requires var sent := SendRecord(x.s.(phase := AwaitKex, mykex := Some(k)), KexBody(k));
             x1 == x.(s := sent.s, queue := x.queue + sent.sent, kexes := x.kexes + [k])
    requires var e := KexPhase(x1.s.(inseqno := Bump(x1.s.inseqno)), y.queue[0].body);
             e.Some? ==> x2 == x1.(s := e.value.s, queue := x1.queue + e.value.sent)
    ensures Act(x, y, Deliver(k)) == Some((x2, y.(queue := y.queue[1..])))
  {
    var t := x.s.(inseqno := Bump(x.s.inseqno));
    KexEffect(t, y.queue[0].body, k);
    var sent := SendRecord(x.s.(phase := AwaitKex, mykex := Some(k)), KexBody(k));
    var e := KexPhase(x1.s.(inseqno := Bump(x1.s.inseqno)), y.queue[0].body);
    assert x.queue + (sent.sent + e.value.sent) == x1.queue + e.value.sent;
    assert x.got + [] == x.got;
  }

  /** A KEX reaching an idle side: it first sends a KEX of its own. */
  lemma SecondaryKexArrives(x: Side, y: Side, k: Kex)
    requires Peers(x, y) && y.queue != [] && !y.queue[0].body.AppBody? && x.s.phase == SecondaryKex
    ensures var r := Act(x, y, Deliver(k)); r.Some? && Peers(r.value.0, r.value.1)
  {
    Pop(x, y);
    var sent := SendRecord(x.s.(phase := AwaitKex, mykex := Some(k)), KexBody(k));
    var x1 := x.(s := sent.s, queue := x.queue + sent.sent, kexes := x.kexes + [k]);
    KexSent(x, y, k, x1);
    var e := KexPhase(x1.s.(inseqno := Bump(x1.s.inseqno)), y.queue[0].body);
    var x2 := if e.Some? then x1.(s := e.value.s, queue := x1.queue + e.value.sent) else x1;
    KexArrives(x1, y, x2, y.(queue := y.queue[1..]));
    AnswerIdle(x, y, k, x1, x2);
  }

  lemma RecordArrives(x: Side, y: Side, k: Kex)
    requires Peers(x, y) && y.queue != [] && y.queue[0].body.AppBody?
    ensures var r := Act(x, y, Deliver(k)); r.Some? && Peers(r.value.0, r.value.1)
  {
    Pop(x, y);
    var b := y.queue[0].body;
    assert Apps([Record(b.kind, b.data)]) == [Record(b.kind, b.data)];
    assert x.queue + [] == x.queue && x.kexes + [] == x.kexes;
    var r := Act(x, y, Deliver(k));
    AppArrives(x, y, r.value.0, r.value.1);
  }

  lemma DeliverPreserves(x: Side, y: Side, k: Kex)
    requires Peers(x, y)
    ensures var r := Act(x, y, Deliver(k)); r.Some? && Peers(r.value.0, r.value.1)
  {
    if y.queue != [] {
      if y.queue[0].body.AppBody? {
        RecordArrives(x, y, k);
      } else {
        match x.s.phase
        case SecondaryKex => SecondaryKexArrives(x, y, k);
        case AwaitKex => FirstKexArrives(x, y, k);
        case AwaitAck => AckArrives(x, y, k);
        case AwaitSig => if x.s.outstate { SigArrives(x, y, k); } else { FirstSigArrives(x, y, k); }
      }
    }
  }

  // ----- whole runs

  lemma ActSafe(x: Side, y: Side, a: Action)
    requires Peers(x, y)
    ensures var r := Act(x, y, a); r.Some? && Peers(r.value.0, r.value.1)
  {
    match a
    case Send(kind, data) => SendPreserves(x, y, kind, data);
    case Force(k) => ForcePreserves(x, y, k);
    case Deliver(k) => DeliverPreserves(x, y, k);
  }

  lemma StepSafe(p: Pair, ev: Event)
    requires Inv(p)
    ensures Step(p, ev).Some? && Inv(Step(p, ev).value)
  {
    if ev.atInitiator { ActSafe(p.i, p.r, ev.action); } else { ActSafe(p.r, p.i, ev.action); }
  }

  lemma {:induction false} RunSafe(p: Pair, evs: seq<Event>)
    requires Inv(p)
    ensures Run(p, evs).Some? && Inv(Run(p, evs).value)
    decreases |evs|
  {
    if evs != [] {
      StepSafe(p, evs[0]);
      RunSafe(Step(p, evs[0]).value, evs[1..]);
    }
  }

  lemma StartInv(sessionLabel: string, ki: Kex, kr: Kex)
    ensures Inv(StartPair(sessionLabel, ki, kr))
  {
    var p := StartPair(sessionLabel, ki, kr);
    assert [Plain(KexBody(ki))][1..] == [] && [Plain(KexBody(kr))][1..] == [];
    assert p.i.queue == [Plain(KexBody(ki))] && p.r.queue == [Plain(KexBody(kr))];
  }

  /** No interleaving makes a receive step fail; each application record arrives once, in order and
      unchanged, and what has not arrived is still in flight. */
  lemma EveryRunIsSafe(sessionLabel: string, ki: Kex, kr: Kex, evs: seq<Event>)
    ensures var o := Run(StartPair(sessionLabel, ki, kr), evs);
            && o.Some?
            && o.value.i.submitted == o.value.r.got + QueuedApps(o.value.i.queue)
            && o.value.r.submitted == o.value.i.got + QueuedApps(o.value.r.queue)
  {
    StartInv(sessionLabel, ki, kr);
    RunSafe(StartPair(sessionLabel, ki, kr), evs);
  }

  /** Once everything in flight has been delivered, both ends have finished the same number of
      handshakes, hold each other's keys and agree on both sequence numbers. */
  lemma EveryRunSettles(sessionLabel: string, ki: Kex, kr: Kex, evs: seq<Event>)
    requires var o := Run(StartPair(sessionLabel, ki, kr), evs);
             o.Some? && o.value.i.queue == [] && o.value.r.queue == []
    ensures var p := Run(StartPair(sessionLabel, ki, kr), evs).value;
            && p.i.s.phase == SecondaryKex && p.r.s.phase == SecondaryKex && |p.i.kexes| == |p.r.kexes|
            && p.i.s.outkey.Some? && p.i.s.outkey == p.r.s.inkey && p.r.s.outkey.Some? && p.r.s.outkey == p.i.s.inkey
            && p.i.s.outkey != p.r.s.outkey
            && p.i.s.outseqno == p.r.s.inseqno && p.r.s.outseqno == p.i.s.inseqno
  {
    StartInv(sessionLabel, ki, kr);
    RunSafe(StartPair(sessionLabel, ki, kr), evs);
    Settles(Run(StartPair(sessionLabel, ki, kr), evs).value);
  }

  lemma Settles(p: Pair)
    requires Inv(p) && p.i.queue == [] && p.r.queue == []
    ensures p.i.s.phase == SecondaryKex && p.r.s.phase == SecondaryKex && |p.i.kexes| == |p.r.kexes|
    ensures p.i.s.outkey.Some? && p.i.s.outkey == p.r.s.inkey && p.r.s.outkey.Some? && p.r.s.outkey == p.i.s.inkey
    ensures p.i.s.outkey != p.r.s.outkey
    ensures p.i.s.outseqno == p.r.s.inseqno && p.r.s.outseqno == p.i.s.inseqno
  {
    assert Received(p.r) == Sent(p.i) && Received(p.i) == Sent(p.r);
  }

  // ----- no run is stuck

  /** The number of a handshake message in the order of one direction. */
  function Index(p: Pos): int { 3 * p.epoch + Rank(p.kind) - (if p.epoch == 0 then 0 else 1) }

  /** How many handshakes have been begun, by either side. */
  function Begun(x: Side, y: Side): nat { if |x.kexes| < |y.kexes| then |y.kexes| else |x.kexes| }

  /** How many handshake messages a side still has to receive until all handshakes that were begun are finished. */
  function Missing(x: Side, y: Side): int { 3 * Begun(x, y) - 1 - Index(Received(x)) }

  /** x received a record: an application record, or the next handshake message, answered if need be. */
  ghost predicate Took(x: Side, x': Side, app: bool) {
    && x'.submitted == x.submitted && |x'.kexes| == |x.kexes| + (if !app && x.s.phase.SecondaryKex? then 1 else 0)
    && Received(x') == if app then Received(x) else Next(Received(x))
  }

  lemma {:induction false} HandshakeMoves(s: Session, body: Body, k: Kex)
    requires ReceiveHandshake(s, body, k).Some?
    ensures ReceiveHandshake(s, body, k).value.s.phase ==
            match s.phase {
              case AwaitAck => SecondaryKex
              case AwaitSig => if s.outstate then AwaitAck else SecondaryKex
              case _ => AwaitSig
            }
  {
  }

  lemma {:induction false} DeliverMoves(x: Side, y: Side, k: Kex)
    requires y.queue != [] && Act(x, y, Deliver(k)).Some? && Open(x.s, y.queue[0]) == Some(y.queue[0].body)
    ensures var (x', y') := Act(x, y, Deliver(k)).value;
            && x'.submitted == x.submitted && y' == y.(queue := y.queue[1..])
            && if y.queue[0].body.AppBody? then x'.s.phase == x.s.phase && x'.kexes == x.kexes
               else var t := x.s.(inseqno := Bump(x.s.inseqno)); var e := ReceiveHandshake(t, y.queue[0].body, k);
                    e.Some? && x'.s == e.value.s && x'.kexes == x.kexes + Generated(x.s, x'.s, k)
  {
    assert x.kexes + [] == x.kexes;
  }

  lemma {:induction false} HandshakeTakes(x: Side, y: Side, x': Side, k: Kex)
    requires Level(x, y) && SessionOk(x, y) && x'.submitted == x.submitted
    requires x'.kexes == x.kexes + Generated(x.s, x'.s, k)
    requires x'.s.phase == match x.s.phase {
               case AwaitAck => SecondaryKex
               case AwaitSig => if x.s.outstate then AwaitAck else SecondaryKex
               case _ => AwaitSig
             }
    ensures Took(x, x', false)
  {
  }

  lemma {:induction false} DeliverTakes(x: Side, y: Side, k: Kex)
    requires Peers(x, y) && y.queue != [] && Act(x, y, Deliver(k)).Some?
    ensures var (x', y') := Act(x, y, Deliver(k)).value;
            Took(x, x', y.queue[0].body.AppBody?) && y' == y.(queue := y.queue[1..])
  {
    Pop(x, y);
    DeliverMoves(x, y, k);
    if !y.queue[0].body.AppBody? {
      HandshakeMoves(x.s.(inseqno := Bump(x.s.inseqno)), y.queue[0].body, k);
      HandshakeTakes(x, y, Act(x, y, Deliver(k)).value.0, k);
    }
  }

  lemma {:induction false} MissingLess(x: Side, y: Side, x': Side, app: bool)
    requires Level(x, y) && Took(x, x', app) && (app || Before(Received(x), Sent(y)))
    ensures Missing(x', y) == Missing(x, y) - (if app then 0 else 1) && Missing(y, x') == Missing(y, x)
  {
  }

  lemma {:induction false} QueuesLess(x: Side, y: Side, x': Side, y': Side)
    requires y.queue != [] && y' == y.(queue := y.queue[1..])
    requires Link(x, y) && Link(x', y') && x'.submitted == x.submitted
    ensures |QueuedApps(x'.queue)| == |QueuedApps(x.queue)|
    ensures |QueuedApps(y'.queue)| == |QueuedApps(y.queue)| - if y.queue[0].body.AppBody? then 1 else 0
  {
    assert |x.submitted| == |y.got| + |QueuedApps(x.queue)|;
  }

  /** How many deliveries it takes until nothing is in flight. */
  function InFlight(x: Side, y: Side): int {
    Missing(x, y) + Missing(y, x) + |QueuedApps(x.queue)| + |QueuedApps(y.queue)|
  }

  lemma {:induction false} OneLess(x: Side, y: Side, x': Side, y': Side)
    requires Level(x, y) && Link(x, y) && Link(x', y') && y.queue != [] && y' == y.(queue := y.queue[1..])
    requires var app := y.queue[0].body.AppBody?; Took(x, x', app) && (app || Before(Received(x), Sent(y)))
    ensures InFlight(x', y') == InFlight(x, y) - 1
  {
    MissingLess(x, y, x', y.queue[0].body.AppBody?);
    assert Missing(x', y') == Missing(x', y) && Missing(y', x') == Missing(y, x');
    QueuesLess(x, y, x', y');
  }

  lemma {:induction false} DeliverLess(x: Side, y: Side, k: Kex)
    requires Peers(x, y) && y.queue != []
    ensures var r := Act(x, y, Deliver(k));
            r.Some? && Peers(r.value.0, r.value.1) && InFlight(r.value.0, r.value.1) == InFlight(x, y) - 1
  {
    DeliverPreserves(x, y, k);
    DeliverTakes(x, y, k);
    Pop(x, y);
    var (x', y') := Act(x, y, Deliver(k)).value;
    OneLess(x, y, x', y');
  }

  lemma {:induction false} NotNegative(x: Side, y: Side)
    requires Level(x, y)
    ensures InFlight(x, y) >= 0
  {
  }

  /** One delivery, at whichever end something is waiting for. */
  lemma {:induction false} DrainOne(p: Pair, k: Kex) returns (ev: Event)
    requires Inv(p) && (p.i.queue != [] || p.r.queue != [])
    ensures ev.action == Deliver(k) && Step(p, ev).Some? && Inv(Step(p, ev).value)
    ensures var q := Step(p, ev).value; 0 <= InFlight(q.i, q.r) == InFlight(p.i, p.r) - 1
  {
    ev := Event(p.r.queue != [], Deliver(k));
    if ev.atInitiator { DeliverLess(p.i, p.r, k); } else { DeliverLess(p.r, p.i, k); }
    var q := Step(p, ev).value;
    NotNegative(q.i, q.r);
  }

  lemma {:induction false} NoneInFlight(p: Pair)
    requires Inv(p) && p.i.queue == [] && p.r.queue == []
    ensures InFlight(p.i, p.r) == 0
  {
    Settles(p);
  }

  /** Only deliveries, with the given KEX messages for the handshakes that these begin. */
  ghost predicate Deliveries(evs: seq<Event>, keys: nat -> Kex) {
    forall n :: 0 <= n < |evs| ==> evs[n].action == Deliver(keys(n))
  }

  lemma {:induction false} DeliverFirst(ev: Event, rest: seq<Event>, keys: nat -> Kex)
    requires ev.action == Deliver(keys(0)) && Deliveries(rest, (n: nat) => keys(n + 1))
    ensures Deliveries([ev] + rest, keys)
  {
    var evs := [ev] + rest;
    forall n | 0 <= n < |evs| ensures evs[n].action == Deliver(keys(n)) {
      if n > 0 { assert evs[n] == rest[n - 1]; }
    }
  }

  lemma {:induction false} RunFirst(p: Pair, ev: Event, rest: seq<Event>)
    requires Step(p, ev).Some?
    ensures Run(p, [ev] + rest) == Run(Step(p, ev).value, rest)
  {
    assert ([ev] + rest)[1..] == rest;
  }

  /** Delivering what is in flight, and all that is sent in answer, comes to an end. */
  lemma {:induction false} Drain(p: Pair, keys: nat -> Kex) returns (evs: seq<Event>)
    requires Inv(p)
    ensures Deliveries(evs, keys) && |evs| == InFlight(p.i, p.r) && Run(p, evs).Some?
    ensures Run(p, evs).value.i.queue == [] && Run(p, evs).value.r.queue == []
    decreases InFlight(p.i, p.r)
  {
    evs := [];
    if p.i.queue == [] && p.r.queue == [] {
      NoneInFlight(p);
    } else {
      var ev := DrainOne(p, keys(0));
      var rest := Drain(Step(p, ev).value, (n: nat) => keys(n + 1));
      evs := [ev] + rest;
      RunFirst(p, ev, rest);
      DeliverFirst(ev, rest, keys);
    }
  }

  lemma {:induction false} RunMore(p: Pair, a: seq<Event>, b: seq<Event>)
    requires Run(p, a).Some?
    ensures Run(p, a + b) == Run(Run(p, a).value, b)
    decreases |a|
  {
    if a == [] {
      assert a + b == b;
    } else {
      RunMore(Step(p, a[0]).value, a[1..], b);
      assert (a + b)[1..] == a[1..] + b;
    }
  }

  /** No run is stuck: however far it went, some deliveries, whatever KEX messages they call for, empty both queues,
      and then both ends agree. */
  lemma {:induction false} EveryRunCanSettle(sessionLabel: string, ki: Kex, kr: Kex, evs: seq<Event>, keys: nat -> Kex)
      returns (more: seq<Event>)
    ensures Deliveries(more, keys) && Run(StartPair(sessionLabel, ki, kr), evs + more).Some?
    ensures var p := Run(StartPair(sessionLabel, ki, kr), evs + more).value;
            && p.i.queue == [] && p.r.queue == [] && p.i.got == p.r.submitted && p.r.got == p.i.submitted
            && p.i.s.phase == SecondaryKex && p.r.s.phase == SecondaryKex
            && p.i.s.outkey == p.r.s.inkey && p.r.s.outkey == p.i.s.inkey
  {
    var start := StartPair(sessionLabel, ki, kr);
    StartInv(sessionLabel, ki, kr);
    RunSafe(start, evs);
    more := Drain(Run(start, evs).value, keys);
    RunMore(start, evs, more);
    EveryRunIsSafe(sessionLabel, ki, kr, evs + more);
    EveryRunSettles(sessionLabel, ki, kr, evs + more);
  }

  /** No call changes a session's role or label. */
  ghost predicate SameRole(s: Session, t: Session) { t.initiator == s.initiator && t.sessionLabel == s.sessionLabel }

  lemma HandshakeRole(s: Session, body: Body, k: Kex)
    requires ReceiveHandshake(s, body, k).Some?
    ensures SameRole(s, ReceiveHandshake(s, body, k).value.s)
  {
    if s.phase.SecondaryKex? { assert SameRole(s, SendKex(s, k).value.s); }
    if s.phase.AwaitSig? { assert SameRole(s, ReceiveSig(s, body).value.s); }
  }

  lemma ActRole(x: Side, y: Side, a: Action)
    requires Act(x, y, a).Some?
    ensures SameRole(x.s, Act(x, y, a).value.0.s) && Act(x, y, a).value.1.s == y.s
  {
    if a.Deliver? && y.queue != [] {
      var body := Open(x.s, y.queue[0]).value;
      if !body.AppBody? { HandshakeRole(x.s.(inseqno := Bump(x.s.inseqno)), body, a.newKex); }
    }
  }

  lemma {:induction false} RunRoles(p: Pair, evs: seq<Event>)
    requires Run(p, evs).Some?
    ensures SameRole(p.i.s, Run(p, evs).value.i.s) && SameRole(p.r.s, Run(p, evs).value.r.s)
    decreases |evs|
  {
    if evs != [] {
      if evs[0].atInitiator { ActRole(p.i, p.r, evs[0].action); } else { ActRole(p.r, p.i, evs[0].action); }
      RunRoles(Step(p, evs[0]).value, evs[1..]);
    }
  }

  /** The handshake whose keys a side receives with, and the one whose keys it sends with. */
  function InEpoch(x: Side): int { Received(x).epoch - 1 }

  function OutEpoch(x: Side): int { Sent(x).epoch - 1 }

  /** The material of handshake e: of the e-th KEX message of the initiator and that of the responder. */
  function Agreed(p: Pair, e: int): Material { EpochMaterial(Ctx(true, p.i.s.sessionLabel, p.i.kexes, p.r.kexes), e) }

  /**
   * Side x, which is the initiator or not, holds its halves of the material of handshakes that both sides took part in.
   */
  ghost predicate HoldsKeys(p: Pair, x: Side, initiator: bool) {
    var n := if |p.i.kexes| < |p.r.kexes| then |p.i.kexes| else |p.r.kexes|;
    && x.s.instate == (InEpoch(x) >= 0) && x.s.outstate == x.s.instate && InEpoch(x) < n
    && (x.s.instate ==> x.s.inkey == Some(Half(Agreed(p, InEpoch(x)), !initiator)))
    && (x.s.outstate ==> 0 <= OutEpoch(x) < n && x.s.outkey == Some(Half(Agreed(p, OutEpoch(x)), initiator)))
    && (x.s.key.Some? ==> 0 <= |x.kexes| - 1 < n && x.s.key == Some(Agreed(p, |x.kexes| - 1)))
  }

  /** What x sends, y receives: y is at most one handshake behind, and level with x when nothing is on its way. */
  ghost predicate Matched(x: Side, y: Side) {
    && (x.s.outstate && y.s.instate ==> InEpoch(y) <= OutEpoch(x) <= InEpoch(y) + 1)
    && (x.s.outstate && y.s.instate && OutEpoch(x) == InEpoch(y) ==> x.s.outkey == y.s.inkey)
    && (x.queue == [] && x.s.outstate ==> y.s.instate && x.s.outkey == y.s.inkey && x.s.outseqno == y.s.inseqno)
  }

  lemma SideHolds(p: Pair, x: Side, y: Side, initiator: bool)
    requires Settled(x, y) && x.s.initiator == initiator && p == if initiator then Pair(x, y) else Pair(y, x)
    ensures HoldsKeys(p, x, initiator)
  {
    Coverage(x, y);
    Coverage(y, x);
  }

  lemma KeysHeld(p: Pair)
    requires Inv(p) && p.i.s.initiator
    ensures HoldsKeys(p, p.i, true) && HoldsKeys(p, p.r, false)
  {
    SideHolds(p, p.i, p.r, true);
    SideHolds(p, p.r, p.i, false);
  }

  lemma KeysMatch(x: Side, y: Side)
    requires Peers(x, y)
    ensures Matched(x, y)
  {
    Coverage(x, y);
    Coverage(y, x);
  }

  /**
   * Both ends derive the same keys, at every moment of every run: each end's keys are its halves of the material
   * that the two KEX messages of some handshake determine; the receiver is at most one handshake behind the sender,
   * and whenever nothing is on its way in a direction, both ends use the same key and number for it.
   */
  lemma EveryEpochAgrees(sessionLabel: string, ki: Kex, kr: Kex, evs: seq<Event>)
    ensures var o := Run(StartPair(sessionLabel, ki, kr), evs);
            && o.Some? && HoldsKeys(o.value, o.value.i, true) && HoldsKeys(o.value, o.value.r, false)
            && Matched(o.value.i, o.value.r) && Matched(o.value.r, o.value.i)
  {
    var p := StartPair(sessionLabel, ki, kr);
    StartInv(sessionLabel, ki, kr);
    RunSafe(p, evs);
    RunRoles(p, evs);
    var q := Run(p, evs).value;
    KeysHeld(q);
    KeysMatch(q.i, q.r);
    KeysMatch(q.r, q.i);
  }
}
