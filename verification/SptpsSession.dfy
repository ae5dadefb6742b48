/** SPTPS sessions in stream mode: the KEX/SIG/ACK handshake with re-keying.

    Cryptography is symbolic.  An ECDH exchange yields the unordered pair of both secrets, so it
    is symmetric by construction; key material is a function of that secret, both nonces and the
    label; a signature verifies exactly when key and message are the ones it was made with; an
    authenticated record opens exactly under the key and sequence number it was sealed with. */
module SptpsSession {
  import opened Wrappers

  /** The session's `state` field: SPTPS_KEX, SPTPS_SECONDARY_KEX, SPTPS_SIG, SPTPS_ACK. */
  datatype Phase = AwaitKex | SecondaryKex | AwaitSig | AwaitAck

  datatype Kex = Kex(nonce: int, secret: int)
  /** An ECDH shared secret: the unordered pair of the two private keys. */
  datatype Secret = Secret(low: int, high: int)
  datatype Material = Material(shared: Secret, initiatorNonce: int, responderNonce: int, sessionLabel: string)

  /** One of the two cipher keys cut out of the key material. */
  datatype Key = Half(material: Material, second: bool)

  datatype Body =
    | KexBody(kex: Kex)
    | SigBody(signer: bool, tag: bool, first: Kex, second: Kex, sessionLabel: string)
    | AckBody
    | AppBody(kind: nat, data: seq<byte>)

  datatype Wire = Plain(body: Body) | Sealed(key: Option<Key>, seqno: nat, body: Body)

  /** What the session hands to its receive_record callback. */
  datatype Upcall = HandshakeDone | Record(kind: nat, data: seq<byte>)

  datatype Session = Session(
    initiator: bool, sessionLabel: string, phase: Phase, instate: bool, outstate: bool,
    mykex: Option<Kex>, hiskex: Option<Kex>, key: Option<Material>,
    inkey: Option<Key>, outkey: Option<Key>, inseqno: nat, outseqno: nat)

  /** Effect of one successful call: new state, records sent, records delivered. */
  datatype Effect = Effect(s: Session, sent: seq<Wire>, up: seq<Upcall>)

  const HANDSHAKE: nat := 128

  function Shared(a: int, b: int): Secret { if a <= b then Secret(a, b) else Secret(b, a) }

  /** Increment of a 32-bit counter. */
  function Bump(n: nat): nat { if n + 1 < 0x1_0000_0000 then n + 1 else 0 }

  function Fresh(initiator: bool, sessionLabel: string): Session {
    Session(initiator, sessionLabel, AwaitKex, false, false, None, None, None, None, None, 0, 0)
  }

  function SendRecord(s: Session, body: Body): Effect {
    var w := if s.outstate then Sealed(s.outkey, s.outseqno, body) else Plain(body);
    Effect(s.(outseqno := Bump(s.outseqno)), [w], [])
  }

  function SendKex(s: Session, newKex: Kex): Option<Effect> {
    if s.mykex.Some? then None else Some(SendRecord(s.(mykex := Some(newKex)), KexBody(newKex)))
  }

  function Materials(s: Session, mine: Kex, his: Kex): Material {
    var i := if s.initiator then mine else his;
    var r := if s.initiator then his else mine;
    Material(Shared(mine.secret, his.secret), i.nonce, r.nonce, s.sessionLabel)
  }

  function ReceiveKex(s: Session, body: Body): Option<Effect> {
    if !body.KexBody? || s.hiskex.Some? || s.mykex.None? then None
    else
      var t := s.(hiskex := Some(body.kex));
      Some(SendRecord(t, SigBody(s.initiator, s.initiator, s.mykex.value, body.kex, s.sessionLabel)))
  }

  function ReceiveAck(s: Session, body: Body): Option<Effect> {
    if !body.AckBody? || s.key.None? then None
    else Some(Effect(s.(inkey := Some(Half(s.key.value, !s.initiator)), key := None, instate := true), [], []))
  }

  function ReceiveSig(s: Session, body: Body): Option<Effect> {
    if s.mykex.None? || s.hiskex.None? then None
    else if body != SigBody(!s.initiator, !s.initiator, s.hiskex.value, s.mykex.value, s.sessionLabel) then None
    else
      var m := Materials(s, s.mykex.value, s.hiskex.value);
      var t := s.(key := Some(m), mykex := None, hiskex := None);
      var acked := if s.outstate then SendRecord(t, AckBody) else Effect(t, [], []);
      Some(acked.(s := acked.s.(outkey := Some(Half(m, s.initiator)))))
  }

  function ForceKex(s: Session, newKex: Kex): Option<Effect> {
    if !s.outstate then None
    else if s.phase != SecondaryKex then Some(Effect(s, [], []))
    else SendKex(s.(phase := AwaitKex), newKex)
  }

  function ReceiveHandshake(s: Session, body: Body, newKex: Kex): Option<Effect> {
    match s.phase
    case SecondaryKex =>
      (match SendKex(s, newKex)
       case None => None
       case Some(e) =>
         match KexPhase(e.s, body)
         case None => None
         case Some(f) => Some(f.(sent := e.sent + f.sent)))
    case AwaitKex => KexPhase(s, body)
    case AwaitSig =>
      (match ReceiveSig(s, body)
       case None => None
       case Some(e) =>
         match SigPhase(e.s)
         case None => None
         case Some(f) => Some(f.(sent := e.sent)))
    case AwaitAck =>
      (match ReceiveAck(s, body)
       case None => None
       case Some(e) => Some(Effect(e.s.(phase := SecondaryKex), [], [HandshakeDone])))
  }

  /** The part of a handshake step shared by the first and every later KEX. */
  function KexPhase(s: Session, body: Body): Option<Effect> {
    match ReceiveKex(s, body)
    case None => None
    case Some(e) => Some(e.(s := e.s.(phase := AwaitSig)))
  }

  /** After a verified SIG: wait for the ACK, except in the first handshake, which has none. */
  function SigPhase(s: Session): Option<Effect> {
    if s.outstate then Some(Effect(s.(phase := AwaitAck), [], []))
    else match ReceiveAck(s.(outstate := true), AckBody)
      case None => None
      case Some(e) => Some(Effect(e.s.(phase := SecondaryKex), [], [HandshakeDone]))
  }

  /** Authenticate and decrypt one record under the session's incoming key and sequence number. */
  function Open(s: Session, w: Wire): Option<Body> {
    if s.instate then
      if w.Sealed? && w.key == s.inkey && w.seqno == s.inseqno then Some(w.body) else None
    else if w.Plain? then Some(w.body) else None
  }

  function Receive(s: Session, w: Wire, newKex: Kex): Option<Effect> {
    match Open(s, w)
    case None => None
    case Some(body) =>
      var t := s.(inseqno := Bump(s.inseqno));
      if body.AppBody? then
        if !s.instate || body.kind >= HANDSHAKE then None
        else Some(Effect(t, [], [Record(body.kind, body.data)]))
      else ReceiveHandshake(t, body, newKex)
  }

  // ----- what a call that fails leaves behind

  function Nothing(s: Session): Effect { Effect(s, [], []) }

  function ForceFailed(s: Session): Effect { Nothing(if s.outstate then s.(phase := AwaitKex) else s) }

  /** A KEX of one's own goes out before the record that is refused is looked at. */
  function HandshakeFailed(s: Session, newKex: Kex): Effect {
    if s.phase == SecondaryKex && SendKex(s, newKex).Some? then SendKex(s, newKex).value else Nothing(s)
  }

  /** The sequence number is used up in any case. */
  function ReceiveFailed(s: Session, w: Wire, newKex: Kex): Effect {
    var t := s.(inseqno := Bump(s.inseqno));
    if Open(s, w).Some? && !w.body.AppBody? then HandshakeFailed(t, newKex) else Nothing(t)
  }

  /** A handshake message does not touch the number for incoming records any more. */
  lemma HandshakeNumber(s: Session, body: Body, newKex: Kex)
    ensures var e := ReceiveHandshake(s, body, newKex); e.Some? ==> e.value.s.inseqno == s.inseqno
    ensures HandshakeFailed(s, newKex).s.inseqno == s.inseqno
  {
  }

  function Start(initiator: bool, sessionLabel: string, newKex: Kex): (e: Option<Effect>)
    ensures e.Some?
  {
    SendKex(Fresh(initiator, sessionLabel), newKex)
  }

  /** The session object, updated field by field; `sent` and `delivered` log its two callbacks. */
  class Sptps {
    var initiator: bool
    var sessionLabel: string
    var phase: Phase
    var instate: bool
    var outstate: bool
    var mykex: Option<Kex>
    var hiskex: Option<Kex>
    var key: Option<Material>
    var inkey: Option<Key>
    var outkey: Option<Key>
    var inseqno: nat
    var outseqno: nat
    var sent: seq<Wire>
    var delivered: seq<Upcall>

    ghost function View(): Session
      reads this
    {
      Session(initiator, sessionLabel, phase, instate, outstate, mykex, hiskex, key, inkey, outkey, inseqno, outseqno)
    }

    /** The object went from `sent0`, `delivered0` to where the specified effect leads, or that of a failure. */
    ghost predicate Did(ok: bool, spec: Option<Effect>, failure: Effect, sent0: seq<Wire>, delivered0: seq<Upcall>)
      reads this
    {
      var e := if spec.Some? then spec.value else failure;
      ok == spec.Some? && View() == e.s && sent == sent0 + e.sent && delivered == delivered0 + e.up
    }

    constructor (initiator: bool, sessionLabel: string, newKex: Kex)
      ensures Did(true, Start(initiator, sessionLabel, newKex), Nothing(View()), [], [])
    {
      this.initiator, this.sessionLabel, phase := initiator, sessionLabel, AwaitKex;
      instate, outstate, inseqno, outseqno := false, false, 0, 0;
      mykex, hiskex, key, inkey, outkey := None, None, None, None, None;
      sent, delivered := [], [];
      new;
      var _ := SendKexRecord(newKex);
    }

    method SendRecordPriv(body: Body)
      modifies this
      ensures Did(true, Some(SendRecord(old(View()), body)), Nothing(View()), old(sent), old(delivered))
      ensures outseqno == if old(outseqno) >= 0xffff_ffff then 0 else old(outseqno) + 1
      ensures sent == old(sent) + [if outstate then Sealed(outkey, old(outseqno), body) else Plain(body)]
    {
      var seqno := outseqno;
      outseqno := Bump(outseqno);
      if outstate {
        sent := sent + [Sealed(outkey, seqno, body)];
      } else {
        sent := sent + [Plain(body)];
      }
    }

    method SendKexRecord(newKex: Kex) returns (ok: bool)
      modifies this
      ensures Did(ok, SendKex(old(View()), newKex), Nothing(old(View())), old(sent), old(delivered))
      ensures ok <==> old(mykex).None?
    {
      if mykex.Some? { return false; }
      mykex := Some(newKex);
      SendRecordPriv(KexBody(newKex));
      return true;
    }

    method AcceptKex(body: Body) returns (ok: bool)
      modifies this
      ensures Did(ok, KexPhase(old(View()), body), Nothing(old(View())), old(sent), old(delivered))
      ensures ok <==> body.KexBody? && old(hiskex).None? && old(mykex).Some?
    {
      if !body.KexBody? || hiskex.Some? || mykex.None? { return false; }
      hiskex := Some(body.kex);
      SendRecordPriv(SigBody(initiator, initiator, mykex.value, body.kex, sessionLabel));
      phase := AwaitSig;
      return true;
    }

    method AcceptAck(body: Body) returns (ok: bool)
      modifies this
      ensures Did(ok, ReceiveAck(old(View()), body), Nothing(old(View())), old(sent), old(delivered))
      ensures ok <==> body.AckBody? && old(key).Some?
    {
      if !body.AckBody? || key.None? { return false; }
      inkey := Some(Half(key.value, !initiator));
      key := None;
      instate := true;
      return true;
    }

    method AcceptSig(body: Body) returns (ok: bool)
      modifies this
      ensures Did(ok, ReceiveSig(old(View()), body), Nothing(old(View())), old(sent), old(delivered))
      ensures ok <==> old(mykex).Some? && old(hiskex).Some?
                      && body == SigBody(!initiator, !initiator, old(hiskex).value, old(mykex).value, sessionLabel)
    {
      if mykex.None? || hiskex.None? { return false; }
      if body != SigBody(!initiator, !initiator, hiskex.value, mykex.value, sessionLabel) { return false; }
      var i := if initiator then mykex.value else hiskex.value;
      var r := if initiator then hiskex.value else mykex.value;
      key := Some(Material(Shared(mykex.value.secret, hiskex.value.secret), i.nonce, r.nonce, sessionLabel));
      mykex, hiskex := None, None;
      if outstate { SendRecordPriv(AckBody); }
      outkey := Some(Half(key.value, initiator));
      return true;
    }

    method ForceRekey(newKex: Kex) returns (ok: bool)
      modifies this
      ensures Did(ok, ForceKex(old(View()), newKex), ForceFailed(old(View())), old(sent), old(delivered))
      ensures ok <==> old(outstate) && (old(phase) == SecondaryKex ==> old(mykex).None?)
    {
      if !outstate { return false; }
      if phase != SecondaryKex { return true; }
      phase := AwaitKex;
      ok := SendKexRecord(newKex);
    }

    method FinishSig() returns (ok: bool)
      modifies this
      ensures Did(ok, SigPhase(old(View())), Nothing(old(View()).(outstate := true)), old(sent), old(delivered))
    {
      if outstate {
        phase := AwaitAck;
        return true;
      }
      outstate := true;
      ok := AcceptAck(AckBody);
      if ok {
        delivered := delivered + [HandshakeDone];
        phase := SecondaryKex;
      }
    }

    /** An idle session answers a KEX with its own first. */
    method AcceptRekey(body: Body, newKex: Kex) returns (ok: bool)
      requires phase == SecondaryKex
      modifies this
      ensures Did(ok, ReceiveHandshake(old(View()), body, newKex), HandshakeFailed(old(View()), newKex), old(sent),
              old(delivered))
    {
      ok := SendKexRecord(newKex);
      if ok { ok := AcceptKex(body); }
    }

    /** A signature is followed by the end of the first handshake, or by waiting for the ACK. */
    method AcceptFinalSig(body: Body, newKex: Kex) returns (ok: bool)
      requires phase == AwaitSig
      modifies this
      ensures Did(ok, ReceiveHandshake(old(View()), body, newKex), HandshakeFailed(old(View()), newKex), old(sent),
              old(delivered))
    {
      ok := AcceptSig(body);
      if ok { ok := FinishSig(); }
    }

    method AcceptHandshake(body: Body, newKex: Kex) returns (ok: bool)
      modifies this
      ensures Did(ok, ReceiveHandshake(old(View()), body, newKex), HandshakeFailed(old(View()), newKex), old(sent),
              old(delivered))
    {
      match phase {
        case SecondaryKex =>
          ok := AcceptRekey(body, newKex);
        case AwaitKex =>
          ok := AcceptKex(body);
        case AwaitSig =>
          ok := AcceptFinalSig(body, newKex);
        case AwaitAck =>
          ok := AcceptAck(body);
          if !ok { return; }
          delivered := delivered + [HandshakeDone];
          phase := SecondaryKex;
      }
    }

    method AcceptRecord(w: Wire, newKex: Kex) returns (ok: bool)
      modifies this
      ensures Did(ok, Receive(old(View()), w, newKex), ReceiveFailed(old(View()), w, newKex), old(sent), old(delivered))
      ensures inseqno == if old(inseqno) >= 0xffff_ffff then 0 else old(inseqno) + 1
      ensures ok ==> if old(instate) then w.Sealed? && w.key == old(inkey) && w.seqno == old(inseqno) else w.Plain?
      ensures ok && w.body.AppBody? ==>
                old(instate) && w.body.kind < 128 && delivered == old(delivered) + [Record(w.body.kind, w.body.data)]
    {
      var seqno := inseqno;
      inseqno := Bump(inseqno);
      if instate {
        if !(w.Sealed? && w.key == inkey && w.seqno == seqno) { return false; }
      } else if !w.Plain? {
        return false;
      }
      if w.body.AppBody? {
        if !instate || w.body.kind >= HANDSHAKE { return false; }
        delivered := delivered + [Record(w.body.kind, w.body.data)];
        return true;
      }
      HandshakeNumber(View(), w.body, newKex);
      ok := AcceptHandshake(w.body, newKex);
    }
  }
}
