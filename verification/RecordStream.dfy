/** Reassembly of SPTPS records from a byte stream.

    The reassembler is parametric in the session: all it asks is whether records are encrypted yet
    (`instate`, which decides the record overhead) and what one complete record does to the
    session, or that it is refused.  Results hold for every such session. */
module RecordStream {
  import opened Wrappers

  datatype Handler<!S> = Handler(instate: S -> bool, handle: (S, seq<byte>) -> Option<S>)

  /** Bytes of an incomplete record, and the session. */
  datatype Conn<S> = Conn(buf: seq<byte>, s: S)

  const OVERHEAD: nat := 19

  function RecLen(buf: seq<byte>): nat
    requires |buf| >= 2
  {
    buf[0] as int * 256 + buf[1] as int
  }

  function RecordSize<S>(h: Handler<S>, s: S, buf: seq<byte>): nat
    requires |buf| >= 2
  {
    RecLen(buf) + (if h.instate(s) then OVERHEAD else 3)
  }

  predicate Complete<S>(h: Handler<S>, s: S, buf: seq<byte>) {
    |buf| >= 2 && |buf| >= RecordSize(h, s, buf)
  }

  /** The reference: cut whole records off the front for as long as there are any. */
  function Parse<S>(h: Handler<S>, s: S, stream: seq<byte>): Option<Conn<S>>
    decreases |stream|
  {
    if !Complete(h, s, stream) then Some(Conn(stream, s))
    else
      var n := RecordSize(h, s, stream);
      match h.handle(s, stream[..n])
      case None => None
      case Some(s') => Parse(h, s', stream[n..])
  }

  /** Feed chunks one after the other; a refused record ends the connection. */
  function FeedAll<S>(h: Handler<S>, c: Conn<S>, chunks: seq<seq<byte>>): Option<Conn<S>>
    decreases |chunks|
  {
    if chunks == [] then Some(c)
    else match Parse(h, c.s, c.buf + chunks[0])
      case None => None
      case Some(c') => FeedAll(h, c', chunks[1..])
  }

  function Concat(chunks: seq<seq<byte>>): seq<byte> {
    if chunks == [] then [] else chunks[0] + Concat(chunks[1..])
  }

  /** Parsing a stream in two parts is parsing it at once. */
  lemma {:induction false} ParseSplit<S>(h: Handler<S>, s: S, a: seq<byte>, b: seq<byte>)
    ensures Parse(h, s, a + b) ==
            match Parse(h, s, a) { case None => None case Some(c) => Parse(h, c.s, c.buf + b) }
    decreases |a|
  {
    if Complete(h, s, a) {
      var n := RecordSize(h, s, a);
      assert (a + b)[..2] == a[..2];
      assert RecordSize(h, s, a + b) == n;
      assert (a + b)[..n] == a[..n] && (a + b)[n..] == a[n..] + b;
      var r := h.handle(s, a[..n]);
      if r.Some? { ParseSplit(h, r.value, a[n..], b); }
    }
  }

  /** However an incoming stream is cut into chunks, the outcome is that of the whole stream. */
  lemma {:induction false} FeedIsParse<S>(h: Handler<S>, c: Conn<S>, chunks: seq<seq<byte>>)
    requires !Complete(h, c.s, c.buf)
    ensures FeedAll(h, c, chunks) == Parse(h, c.s, c.buf + Concat(chunks))
    decreases |chunks|
  {
    if chunks == [] {
      assert c.buf + [] == c.buf;
    } else {
      var a, b := c.buf + chunks[0], Concat(chunks[1..]);
      assert c.buf + Concat(chunks) == a + b;
      ParseSplit(h, c.s, a, b);
      var r := Parse(h, c.s, a);
      if r.Some? {
        LeftoverIncomplete(h, c.s, a);
        FeedIsParse(h, r.value, chunks[1..]);
      }
    }
  }

  lemma {:induction false} LeftoverIncomplete<S>(h: Handler<S>, s: S, stream: seq<byte>)
    requires Parse(h, s, stream).Some?
    ensures var c := Parse(h, s, stream).value; !Complete(h, c.s, c.buf) && |c.buf| <= |stream|
    decreases |stream|
  {
    if Complete(h, s, stream) {
      var n := RecordSize(h, s, stream);
      LeftoverIncomplete(h, h.handle(s, stream[..n]).value, stream[n..]);
    }
  }

  /** Two fragmentations of the same bytes give the same session, the same leftover and the same
      verdict, including across records that switch encryption on. */
  lemma FragmentationIrrelevant<S>(h: Handler<S>, s: S, xs: seq<seq<byte>>, ys: seq<seq<byte>>)
    requires Concat(xs) == Concat(ys)
    ensures FeedAll(h, Conn([], s), xs) == FeedAll(h, Conn([], s), ys)
  {
    FeedIsParse(h, Conn([], s), xs);
    FeedIsParse(h, Conn([], s), ys);
  }

  /** What a sender writes: records whose length field fits the overhead in force when they arrive. */
  ghost predicate Framed<S>(h: Handler<S>, s: S, records: seq<seq<byte>>)
    decreases |records|
  {
    records == [] ||
    (|records[0]| >= 2 && |records[0]| == RecordSize(h, s, records[0]) &&
     h.handle(s, records[0]).Some? && Framed(h, h.handle(s, records[0]).value, records[1..]))
  }

  function HandleAll<S>(h: Handler<S>, s: S, records: seq<seq<byte>>): Option<S>
    decreases |records|
  {
    if records == [] then Some(s)
    else match h.handle(s, records[0])
      case None => None
      case Some(s') => HandleAll(h, s', records[1..])
  }

  /** Reassembly undoes framing: any chunks carrying framed records deliver exactly those records. */
  lemma {:induction false} RecordsDelivered<S>(h: Handler<S>, s: S, records: seq<seq<byte>>, chunks: seq<seq<byte>>)
    requires Framed(h, s, records) && Concat(chunks) == Concat(records)
    ensures HandleAll(h, s, records).Some?
    ensures FeedAll(h, Conn([], s), chunks) == Some(Conn([], HandleAll(h, s, records).value))
    decreases |records|
  {
    FeedIsParse(h, Conn([], s), chunks);
    assert [] + Concat(chunks) == Concat(records);
    if records != [] {
      var (r, rest) := (records[0], Concat(records[1..]));
      var s' := h.handle(s, r).value;
      RecordsDelivered(h, s', records[1..], records[1..]);
      FeedIsParse(h, Conn([], s'), records[1..]);
      assert [] + rest == rest;
      assert (r + rest)[..|r|] == r && (r + rest)[|r|..] == rest;
    }
  }

  // ----- what send_record_priv writes

  /** Encryption under a number, which adds a tag, and its inverse; the key is part of it. */
  datatype Cipher = Cipher(seal: (nat, seq<byte>) -> seq<byte>, open: (nat, seq<byte>) -> Option<seq<byte>>)

  ghost predicate Works(c: Cipher) {
    forall n: nat, p: seq<byte> :: |c.seal(n, p)| == |p| + 16 && c.open(n, c.seal(n, p)) == Some(p)
  }

  datatype Message = Message(kind: byte, data: seq<byte>)

  /** The length, high byte first, then type and data, which are encrypted from the end of the first handshake on. */
  function Written(c: Cipher, encrypted: bool, seqno: nat, m: Message): seq<byte>
    requires |m.data| < 0x1_0000
  {
    var body := [m.kind] + m.data;
    [|m.data| / 256, |m.data| % 256] + if encrypted then c.seal(seqno, body) else body
  }

  /** The length field, in network byte order, says how long a record is, encrypted or not. */
  lemma WrittenSize<S>(h: Handler<S>, s: S, c: Cipher, seqno: nat, m: Message)
    requires Works(c) && |m.data| < 0x1_0000
    ensures var r := Written(c, h.instate(s), seqno, m);
            && |r| >= 3 && RecordSize(h, s, r) == |r| == |m.data| + (if h.instate(s) then 19 else 3)
            && r[0] as int * 256 + r[1] == |m.data|
  {
    assert |c.seal(seqno, [m.kind] + m.data)| == |[m.kind] + m.data| + 16;
  }

  /** One end of a stream: whether records are encrypted, the next number, and the messages so far. */
  datatype End = End(encrypted: bool, seqno: nat, messages: seq<Message>)

  /** A message that passes; one that `turns` says so is the last in the clear. */
  function Passed(turns: Message -> bool, e: End, m: Message): End {
    End(e.encrypted || turns(m), (e.seqno + 1) % 0x1_0000_0000, e.messages + [m])
  }

  /** The receiver takes a record apart. */
  function Accepted(c: Cipher, turns: Message -> bool, e: End, r: seq<byte>): Option<End> {
    if |r| < 3 then None
    else
      var body := if e.encrypted then c.open(e.seqno, r[2..]) else Some(r[2..]);
      if body.None? || body.value == [] then None
      else Some(Passed(turns, e, Message(body.value[0], body.value[1..])))
  }

  function Accepting(c: Cipher, turns: Message -> bool): Handler<End> {
    Handler((e: End) => e.encrypted, (e: End, r: seq<byte>) => Accepted(c, turns, e, r))
  }

  /** The records that a sender writes for some messages. */
  function AllWritten(c: Cipher, turns: Message -> bool, e: End, ms: seq<Message>): seq<seq<byte>>
    requires forall i :: 0 <= i < |ms| ==> |ms[i].data| < 0x1_0000
    decreases |ms|
  {
    if ms == [] then []
    else [Written(c, e.encrypted, e.seqno, ms[0])] + AllWritten(c, turns, Passed(turns, e, ms[0]), ms[1..])
  }

  lemma AcceptsWritten(c: Cipher, turns: Message -> bool, e: End, m: Message)
    requires Works(c) && |m.data| < 0x1_0000
    ensures Accepted(c, turns, e, Written(c, e.encrypted, e.seqno, m)) == Some(Passed(turns, e, m))
  {
    var body := [m.kind] + m.data;
    var r := Written(c, e.encrypted, e.seqno, m);
    assert r[2..] == if e.encrypted then c.seal(e.seqno, body) else body;
    assert |c.seal(e.seqno, body)| == |body| + 16;
    assert body[1..] == m.data;
  }

  lemma {:induction false} WrittenFramed(c: Cipher, turns: Message -> bool, e: End, ms: seq<Message>)
    requires Works(c) && forall i :: 0 <= i < |ms| ==> |ms[i].data| < 0x1_0000
    ensures var h, records := Accepting(c, turns), AllWritten(c, turns, e, ms);
            && Framed(h, e, records) && HandleAll(h, e, records).Some?
            && HandleAll(h, e, records).value.messages == e.messages + ms
            && (e.seqno + |ms| < 0x1_0000_0000 ==> HandleAll(h, e, records).value.seqno == e.seqno + |ms|)
    decreases |ms|
  {
    var h, records := Accepting(c, turns), AllWritten(c, turns, e, ms);
    if ms == [] {
      assert e.messages + ms == e.messages;
    } else {
      AcceptsWritten(c, turns, e, ms[0]);
      WrittenSize(h, e, c, e.seqno, ms[0]);
      var e' := Passed(turns, e, ms[0]);
      WrittenFramed(c, turns, e', ms[1..]);
      assert records[1..] == AllWritten(c, turns, e', ms[1..]);
      assert e'.messages + ms[1..] == e.messages + ms;
    }
  }

  /** Whatever messages a sender writes, with or without encryption, and wherever their bytes are cut into chunks, the
      receiver gets exactly these messages, in order, and is left without a partial record. */
  lemma MessagesDelivered(c: Cipher, turns: Message -> bool, ms: seq<Message>, chunks: seq<seq<byte>>)
    requires Works(c) && forall i :: 0 <= i < |ms| ==> |ms[i].data| < 0x1_0000
    requires Concat(chunks) == Concat(AllWritten(c, turns, End(false, 0, []), ms))
    ensures var o := FeedAll(Accepting(c, turns), Conn([], End(false, 0, [])), chunks);
            && o.Some? && o.value.buf == [] && o.value.s.messages == ms
            && (|ms| < 0x1_0000_0000 ==> o.value.s.seqno == |ms|)
  {
    var h, e := Accepting(c, turns), End(false, 0, []);
    WrittenFramed(c, turns, e, ms);
    RecordsDelivered(h, e, AllWritten(c, turns, e, ms), chunks);
    assert [] + ms == ms;
  }

  /** The receiving half of the session object. */
  class Receiver<!S> {
    const h: Handler<S>
    var inbuf: seq<byte>
    var reclen: nat
    var s: S

    ghost predicate Valid()
      reads this
    {
      !Complete(h, s, inbuf) && (|inbuf| >= 2 ==> reclen == RecLen(inbuf))
    }

    constructor (h: Handler<S>, s: S)
      ensures Valid() && this.h == h && this.s == s && inbuf == []
    {
      this.h, this.s, inbuf, reclen := h, s, [], 0;
    }

    /** Consume one chunk: copy up to two length bytes, then up to the end of the record, and hand
        each complete record to the session. */
    method ReceiveData(data: seq<byte>) returns (ok: bool)
      requires Valid()
      modifies this
      ensures match Parse(h, old(s), old(inbuf) + data)
              case None => !ok
              case Some(c) => ok && Valid() && Conn(inbuf, s) == c
    {
      ghost var outcome := Parse(h, s, inbuf + data);
      var rest := data;
      while rest != []
        invariant Valid() && Parse(h, s, inbuf + rest) == outcome
        decreases |rest|
      {
        if |inbuf| < 2 {
          rest := Copy(2 - |inbuf|, rest);
          if |inbuf| < 2 {
            assert inbuf + rest == inbuf;
            return true;
          }
          reclen := RecLen(inbuf);
          if rest == [] {
            assert inbuf + rest == inbuf;
            return true;
          }
        }
        var size := reclen + (if h.instate(s) then OVERHEAD else 3);
        rest := Copy(size - |inbuf|, rest);
        if |inbuf| < size {
          assert inbuf + rest == inbuf;
          return true;
        }
        assert (inbuf + rest)[..size] == inbuf && (inbuf + rest)[size..] == rest;
        var r := h.handle(s, inbuf);
        if r.None? { return false; }
        s := r.value;
        inbuf := [];
        assert inbuf + rest == rest;
      }
      assert inbuf + [] == inbuf;
      ok := true;
    }

    /** Move up to `want` bytes from the chunk into the buffer. */
    method Copy(want: nat, rest: seq<byte>) returns (rest': seq<byte>)
      modifies this`inbuf
      ensures inbuf + rest' == old(inbuf) + rest
      ensures old(inbuf) <= inbuf
      ensures |inbuf| == |old(inbuf)| + (if want < |rest| then want else |rest|)
    {
      var toread := want;
      if toread > |rest| { toread := |rest|; }
      inbuf := inbuf + rest[..toread];
      rest' := rest[toread..];
    }
  }
}
