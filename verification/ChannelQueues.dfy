/**
 * The queues of a channel as values: what its operations make of them, and what is true of every queue.
 *
 * What file descriptors accept and deliver, what the transport accepts, and whether a callback closes the channel are
 * parameters.
 */
module ChannelQueues {
  import opened Wrappers

  type Bytes = seq<byte>

  /**
   * A buffer of an application, in memory or behind a file descriptor. `content` is what was stored into it or
   * given to the transport from it, `done` how much of that its owner is told about. `source` is what is to be
   * sent: the memory, or what reading the file descriptor delivers, in order.
   */
  datatype Buffer = Buffer(id: nat, len: nat, fd: bool, source: Option<Bytes>, done: nat, content: Bytes,
      hasCallback: bool)

  /** A call of the callback of a buffer. */
  datatype Call = Call(id: nat, done: nat)

  datatype Place = InBuffer(id: nat) | InCallback | Nowhere | Direct

  /** Some bytes of the stream, and where they were stored or taken from. */
  datatype Chunk = Chunk(place: Place, bytes: Bytes)

  /**
   * One direction of a channel: the buffers that wait, those that are finished, the callbacks and the stream so far.
   */
  datatype Queue = Queue(buffers: seq<Buffer>, retired: seq<Buffer>, calls: seq<Call>, stream: seq<Chunk>)

  function Flatten(s: seq<Chunk>): Bytes { if s == [] then [] else Flatten(s[..|s| - 1]) + s[|s| - 1].bytes }

  /** The bytes that went through buffers. */
  function Buffered(s: seq<Chunk>): Bytes {
    if s == [] then [] else Buffered(s[..|s| - 1]) + if s[|s| - 1].place.InBuffer? then s[|s| - 1].bytes else []
  }

  function Contents(r: seq<Buffer>): Bytes { if r == [] then [] else Contents(r[..|r| - 1]) + r[|r| - 1].content }

  function HeadContent(b: seq<Buffer>): Bytes { if b == [] then [] else b[0].content }

  lemma StreamMore(s: seq<Chunk>, c: Chunk)
    ensures Flatten(s + [c]) == Flatten(s) + c.bytes
    ensures Buffered(s + [c]) == Buffered(s) + if c.place.InBuffer? then c.bytes else []
  {
    assert (s + [c])[..|s|] == s;
  }

  lemma ContentsMore(r: seq<Buffer>, x: Buffer)
    ensures Contents(r + [x]) == Contents(r) + x.content
  {
    assert (r + [x])[..|r|] == r;
  }

  // ----- what every step keeps

  /** The content of a buffer fits it, and what was sent from it is the start of what is to be sent. */
  ghost predicate Within(b: Buffer) {
    && b.done <= |b.content| <= b.len
    && (b.source.Some? ==> b.content <= b.source.value && (!b.fd ==> |b.source.value| == b.len))
  }

  /** Callbacks were called in the order of submission, each at most once, for finished buffers. */
  ghost predicate CallsOk(calls: seq<Call>, retired: seq<Buffer>) {
    && (forall i :: 0 <= i < |calls| ==> calls[i].id < |retired| && calls[i].done == retired[calls[i].id].done)
    && (forall i, j :: 0 <= i < j < |calls| ==> calls[i].id < calls[j].id)
  }

  /** Buffers n, n + 1, ... in the order of submission. */
  ghost predicate Numbered(s: seq<Buffer>, n: nat) { forall i :: 0 <= i < |s| ==> s[i].id == n + i && Within(s[i]) }

  /**
   * Buffers are numbered as they are submitted, so the finished ones are 0, 1, 2, ... and the waiting ones
   * follow; only the first of those has begun; and the buffered part of the stream is the contents in order.
   */
  ghost predicate QueueOk(q: Queue) {
    && Numbered(q.retired, 0) && Numbered(q.buffers, |q.retired|) && CallsOk(q.calls, q.retired)
    && (forall i :: 0 < i < |q.buffers| ==> q.buffers[i].content == [])
    && Buffered(q.stream) == Contents(q.retired) + HeadContent(q.buffers)
  }

  /** A buffer that can go on: it is not full, and its owner would be told all that was moved. */
  ghost predicate Unfilled(b: Buffer) { |b.content| < b.len && b.done == |b.content| }

  ghost predicate Hungry(q: Queue) { forall i :: 0 <= i < |q.buffers| ==> Unfilled(q.buffers[i]) }

  /** All waiting buffers but the first can go on. */
  ghost predicate HungryTail(q: Queue) { forall i :: 0 < i < |q.buffers| ==> Unfilled(q.buffers[i]) }

  function Submitted(q: Queue, len: nat, fd: bool, source: Option<Bytes>, hasCallback: bool): Queue {
    q.(buffers := q.buffers + [Buffer(|q.retired| + |q.buffers|, len, fd, source, 0, [], hasCallback)])
  }

  /** All buffers in the order of submission. */
  function Everything(q: Queue): seq<Buffer> { q.retired + q.buffers }

  /** The first buffer is finished, with or without a call of its callback. */
  function Popped(q: Queue, called: bool): Queue
    requires q.buffers != []
  {
    var b := q.buffers[0];
    q.(buffers := q.buffers[1..], retired := q.retired + [b],
        calls := q.calls + if called then [Call(b.id, b.done)] else [])
  }

  /** All waiting buffers are finished without their callbacks. */
  function Drained(q: Queue): (r: Queue)
    ensures r.buffers == []
    decreases |q.buffers|
  {
    if q.buffers == [] then q else Drained(Popped(q, false))
  }

  /** More bytes go through the first buffer. */
  function Filled(q: Queue, bytes: Bytes, told: bool): Queue
    requires q.buffers != []
  {
    var b := q.buffers[0];
    var c := b.(content := b.content + bytes, done := if told then b.done + |bytes| else b.done);
    q.(buffers := q.buffers[0 := c], stream := q.stream + [Chunk(InBuffer(b.id), bytes)])
  }

  lemma SubmittedOk(q: Queue, len: nat, fd: bool, source: Option<Bytes>, hasCallback: bool)
    requires QueueOk(q) && Hungry(q) && len > 0 && (source.Some? && !fd ==> |source.value| == len)
    ensures QueueOk(Submitted(q, len, fd, source, hasCallback)) && Hungry(Submitted(q, len, fd, source, hasCallback))
  {
  }

  lemma {:induction false} PoppedOk(q: Queue, called: bool)
    requires QueueOk(q) && q.buffers != []
    ensures QueueOk(Popped(q, called)) && Everything(Popped(q, called)) == Everything(q)
  {
    assert q.buffers == [q.buffers[0]] + q.buffers[1..];
    ContentsMore(q.retired, q.buffers[0]);
  }

  lemma {:induction false} DrainedOk(q: Queue)
    requires QueueOk(q)
    ensures QueueOk(Drained(q)) && Drained(q).buffers == [] && Drained(q).stream == q.stream
            && Drained(q).calls == q.calls
    ensures Drained(q).retired == q.retired + q.buffers && Everything(Drained(q)) == Everything(q)
    decreases |q.buffers|
  {
    if q.buffers != [] {
      PoppedOk(q, false);
      DrainedOk(Popped(q, false));
    }
  }

  lemma {:induction false} FilledOk(q: Queue, bytes: Bytes, told: bool)
    requires QueueOk(q) && q.buffers != [] && |q.buffers[0].content| + |bytes| <= q.buffers[0].len
    requires q.buffers[0].source.Some? ==> q.buffers[0].content + bytes <= q.buffers[0].source.value
    ensures QueueOk(Filled(q, bytes, told)) && Flatten(Filled(q, bytes, told).stream) == Flatten(q.stream) + bytes
  {
    var b := q.buffers[0];
    StreamMore(q.stream, Chunk(InBuffer(b.id), bytes));
    assert Contents(q.retired) + b.content + bytes == Contents(q.retired) + (b.content + bytes);
  }

  /** The calls that finishing these buffers leads to: one for each that has a callback. */
  function CallsOf(r: seq<Buffer>): seq<Call> {
    if r == [] then []
    else CallsOf(r[..|r| - 1]) + if r[|r| - 1].hasCallback then [Call(r[|r| - 1].id, r[|r| - 1].done)] else []
  }

  /** Of the finished buffers the first n had their callbacks called, the others not. */
  ghost predicate Called(q: Queue, n: nat) { n <= |q.retired| && q.calls == CallsOf(q.retired[..n]) }

  lemma {:induction false} CalledMore(q: Queue)
    requires Called(q, |q.retired|) && q.buffers != []
    ensures Called(Popped(q, q.buffers[0].hasCallback), |q.retired| + 1)
  {
    var r := q.retired + [q.buffers[0]];
    assert r[..|r|] == r && r[..|r| - 1] == q.retired == q.retired[..|q.retired|];
  }

  lemma {:induction false} CalledStill(q: Queue, r: Queue, n: nat)
    requires Called(q, n) && q.retired <= r.retired && r.calls == q.calls
    ensures Called(r, n)
  {
    assert q.retired[..n] == r.retired[..n];
  }

  /** Finishing a buffer calls its callback as long as the channel is open. */
  lemma {:induction false} PoppedCalled(q: Queue, open: bool, n: nat)
    requires QueueOk(q) && q.buffers != [] && Called(q, n) && (open ==> n == |q.retired|)
    ensures var p := Popped(q, open && q.buffers[0].hasCallback);
            QueueOk(p) && Called(p, if open then n + 1 else n)
  {
    var p := Popped(q, open && q.buffers[0].hasCallback);
    PoppedOk(q, open && q.buffers[0].hasCallback);
    if open { CalledMore(q); } else { CalledStill(q, p, n); }
  }

  lemma {:induction false} CallsOfAt(r: seq<Buffer>, i: nat)
    requires i < |r| && forall k :: 0 <= k < |r| ==> r[k].id == k
    ensures Call(i, r[i].done) in CallsOf(r) <==> r[i].hasCallback
    ensures forall c :: c in CallsOf(r) ==> c.id < |r|
  {
    var n := |r| - 1;
    if i < n {
      CallsOfAt(r[..n], i);
    } else if n > 0 {
      CallsOfAt(r[..n], 0);
    }
  }

  /** Each of the first n finished buffers had its callback called exactly once if it has one, the others never. */
  ghost predicate Told(q: Queue, n: nat) {
    && CallsOk(q.calls, q.retired)
    && forall i :: 0 <= i < |q.retired| ==>
         (Call(i, q.retired[i].done) in q.calls <==> i < n && q.retired[i].hasCallback)
  }

  /** Without reference to how buffers are finished. */
  lemma {:induction false} CalledTold(q: Queue, n: nat)
    requires QueueOk(q) && Called(q, n)
    ensures Told(q, n)
  {
    var s := q.retired[..n];
    forall i | 0 <= i < |q.retired|
      ensures Call(i, q.retired[i].done) in q.calls <==> i < n && q.retired[i].hasCallback
    {
      if i < n {
        CallsOfAt(s, i);
      } else if n > 0 {
        CallsOfAt(s, 0);
      }
    }
  }

  lemma {:induction false} OtherOk(q: Queue, c: Chunk)
    requires QueueOk(q) && !c.place.InBuffer?
    ensures QueueOk(q.(stream := q.stream + [c])) && Flatten(q.stream + [c]) == Flatten(q.stream) + c.bytes
  {
    StreamMore(q.stream, c);
    assert Buffered(q.stream) + [] == Buffered(q.stream);
  }

  /** A queue that was never used. */
  predicate Blank(q: Queue) { q.buffers == [] && q.retired == [] && q.calls == [] && q.stream == [] }

  lemma {:induction false} BlankOk(q: Queue)
    requires Blank(q)
    ensures QueueOk(q) && Hungry(q) && NoSources(q) && Sourced(q)
  {
  }

  /** What a file descriptor does: it moves some bytes, is interrupted, or fails. */
  datatype Io = Moved(n: nat) | Interrupted | Failed

  /** Finished buffers, callbacks and the stream are only added to. */
  ghost predicate Grows(q: Queue, q': Queue) { q.retired <= q'.retired && q.calls <= q'.calls && q.stream <= q'.stream }

  /** No byte moved. */
  ghost predicate Untouched(q: Queue, q': Queue) {
    Grows(q, q') && q'.stream == q.stream && Everything(q') == Everything(q)
  }

  /** From chunk n on, all bytes are from buffers. */
  ghost predicate FromBuffers(s: seq<Chunk>, n: nat) { forall i :: n <= i < |s| ==> s[i].place.InBuffer? }

  /** From chunk n on, no empty data was handed to the receive callback. */
  ghost predicate NoEmptyCallback(s: seq<Chunk>, n: nat) {
    forall i :: n <= i < |s| ==> !(s[i].place.InCallback? && s[i].bytes == [])
  }

  /** From chunk n on, data went to the receive callback only if there is one, and was dropped only if there is none. */
  ghost predicate Fitting(s: seq<Chunk>, n: nat, hasCallback: bool) {
    forall i :: n <= i < |s| ==> match s[i].place case InBuffer(_) => true
                                                  case InCallback => hasCallback
                                                  case Nowhere => !hasCallback
                                                  case Direct => false
  }

  /** The first p bytes of the data went through the queue, which was q. */
  ghost predicate Took(q: Queue, q': Queue, data: Bytes, p: nat, hasCallback: bool)
    requires p <= |data|
  {
    && Flatten(q'.stream) == Flatten(q.stream) + data[..p] && Grows(q, q') && NoEmptyCallback(q'.stream, |q.stream|)
    && Fitting(q'.stream, |q.stream|, hasCallback)
  }

  lemma TookMore(q: Queue, r: Queue, q': Queue, data: Bytes, p: nat, p': nat, hasCallback: bool)
    requires p <= p' <= |data| && Took(q, r, data, p, hasCallback) && Grows(r, q')
    requires NoEmptyCallback(q'.stream, |r.stream|) && Fitting(q'.stream, |r.stream|, hasCallback)
    requires Flatten(q'.stream) == Flatten(r.stream) + data[p..p']
    ensures Took(q, q', data, p', hasCallback)
  {
    assert data[..p'] == data[..p] + data[p..p'];
    assert Flatten(q.stream) + data[..p] + data[p..p'] == Flatten(q.stream) + (data[..p] + data[p..p']);
    FittingMore(q.stream, r.stream, q'.stream, hasCallback);
  }

  lemma FittingMore(a: seq<Chunk>, b: seq<Chunk>, c: seq<Chunk>, hasCallback: bool)
    requires a <= b <= c && Fitting(b, |a|, hasCallback) && Fitting(c, |b|, hasCallback)
    ensures Fitting(c, |a|, hasCallback)
  {
    assert forall i :: |a| <= i < |b| ==> c[i] == b[i];
  }

  /** From buffer n on, every finished buffer in memory is full. */
  ghost predicate FullFrom(q: Queue, n: nat) {
    forall i :: n <= i < |q.retired| && !q.retired[i].fd ==> |q.retired[i].content| == q.retired[i].len
  }

  /** From q to r everything went into buffers, and those in memory were filled. */
  ghost predicate Stored(q: Queue, r: Queue) {
    Grows(q, r) && FromBuffers(r.stream, |q.stream|) && FullFrom(r, |q.retired|)
  }

  lemma StoredMore(q: Queue, r: Queue, s: Queue)
    requires Stored(q, r) && Stored(r, s)
    ensures Stored(q, s)
  {
    forall i | |q.stream| <= i < |s.stream| ensures s.stream[i].place.InBuffer? {
      if i < |r.stream| { assert s.stream[i] == r.stream[i]; }
    }
    forall i | |q.retired| <= i < |s.retired| && !s.retired[i].fd ensures |s.retired[i].content| == s.retired[i].len {
      if i < |r.retired| { assert s.retired[i] == r.retired[i]; }
    }
  }

  /** Receiving does not use sources. */
  ghost predicate NoSources(q: Queue) { forall i :: 0 <= i < |q.buffers| ==> q.buffers[i].source.None? }

  predicate Sources(s: seq<Buffer>) { forall i :: 0 <= i < |s| ==> s[i].source.Some? }

  /** Sending uses sources. */
  ghost predicate Sourced(q: Queue) { Sources(q.buffers) && Sources(q.retired) }

  // ----- what the operations on open channels come to, as functions

  /** The first buffer is finished and its callback called, which may close the channel. */
  function Finish(q: Queue, closes: bool): (r: (Queue, bool))
    requires q.buffers != []
    ensures |r.0.buffers| < |q.buffers|
  {
    var called := q.buffers[0].hasCallback;
    if called && closes then (Drained(Popped(q, true)), false) else (Popped(q, called), true)
  }

  /** All buffers are finished, until a callback closes the channel. */
  function Aborted(q: Queue, closes: nat -> bool): (r: (Queue, bool))
    ensures r.0.buffers == []
    decreases |q.buffers|
  {
    if q.buffers == [] then (q, true)
    else
      var (p, open) := Finish(q, closes(q.buffers[0].id));
      if open then Aborted(p, closes) else (p, false)
  }

  /** The first buffer goes on by some bytes, and is finished when it is full. */
  function Went(q: Queue, bytes: Bytes, closes: bool): (r: (Queue, bool))
    requires q.buffers != []
    ensures |r.0.buffers| <= |q.buffers|
  {
    var f := Filled(q, bytes, true);
    if |f.buffers[0].content| == f.buffers[0].len then Finish(f, closes) else (f, true)
  }

  /** What a file descriptor does next; without an answer it fails. */
  function Result(io: seq<Io>): Io { if io == [] then Failed else io[0] }

  predicate Retries(b: Buffer, io: seq<Io>) { b.fd && Result(io) == Interrupted }

  function Used(b: Buffer, io: seq<Io>): seq<Io> { if b.fd && io != [] then io[1..] else io }

  function Least(a: nat, b: nat): nat { if a < b then a else b }

  /** How many bytes a file descriptor moves. */
  function Moves(b: Buffer, io: seq<Io>): Option<nat> {
    if !b.fd then None else match Result(io) case Moved(n) => Some(n) case _ => Some(0)
  }

  function Left(b: Buffer): nat { if |b.content| < b.len then b.len - |b.content| else 0 }

  /** How many of `left` bytes go into a buffer. */
  function Room(b: Buffer, left: nat, io: seq<Io>): nat {
    var todo := Least(left, Left(b));
    if Moves(b, io).Some? then Least(todo, Moves(b, io).value) else todo
  }

  /** One round of receiving: the queue, whether the channel is open, the position in the data, the answers left. */
  datatype Intake = Intake(q: Queue, open: bool, p: nat, io: seq<Io>)

  function Taken(q: Queue, data: Bytes, p: nat, io: seq<Io>, closes: nat -> bool): Intake
    requires q.buffers != [] && p <= |data|
  {
    var b := q.buffers[0];
    var n := Room(b, |data| - p, io);
    if n > 0 then
      var (r, open) := Went(q, data[p..p + n], closes(b.id));
      Intake(r, open, p + n, Used(b, io))
    else if Retries(b, io) then Intake(q, true, p, Used(b, io))
    else
      var (r, open) := Finish(q, closes(b.id));
      Intake(r, open, p, Used(b, io))
  }

  /** Rounds until the data is used up, no buffer waits, or the channel is closed. */
  function AllTaken(q: Queue, data: Bytes, p: nat, io: seq<Io>, closes: nat -> bool): Intake
    requires p <= |data|
    decreases |q.buffers| + |io| + |data| - p
  {
    if q.buffers == [] || p == |data| then Intake(q, true, p, io)
    else
      var t := Taken(q, data, p, io, closes);
      if t.open then AllTaken(t.q, data, t.p, t.io, closes) else t
  }

  /** Data that no buffer takes. */
  function Handed(q: Queue, toCallback: bool, bytes: Bytes): Queue {
    q.(stream := q.stream + [Chunk(if toCallback then InCallback else Nowhere, bytes)])
  }

  /** How many bytes of the first buffer go to the transport next. */
  function Amount(b: Buffer, len: nat, io: seq<Io>): (n: nat)
    ensures n > 0 ==> b.source.Some? && |b.content| + n <= |b.source.value| && |b.content| + n <= b.len && n <= len
  {
    if b.source.None? || |b.content| >= |b.source.value| then 0
    else
      var todo := Least(Least(len, Left(b)), |b.source.value| - |b.content|);
      if Moves(b, io).Some? then Least(Least(todo, 65536), Moves(b, io).value) else todo
  }

  /** What the transport accepts next; without an answer it fails. */
  function Accepted(net: seq<nat>): nat { if net == [] then 0 else net[0] }

  function Piece(b: Buffer, n: nat): Bytes
    requires n > 0 ==> b.source.Some? && |b.content| + n <= |b.source.value|
  {
    if n == 0 then [] else b.source.value[|b.content|..|b.content| + n]
  }

  lemma SliceMore(c: Bytes, s: Bytes, n: nat)
    requires c <= s && |c| + n <= |s|
    ensures c + s[|c|..|c| + n] == s[..|c| + n] <= s
  {
    assert c == s[..|c|];
    assert s[..|c|] + s[|c|..|c| + n] == s[..|c| + n];
  }

  lemma {:induction false} PieceFits(b: Buffer, len: nat, io: seq<Io>)
    requires Within(b) && b.source.Some? && |b.content| < b.len && len > 0
    ensures var n := Amount(b, len, io);
            && |Piece(b, n)| == n && b.content + Piece(b, n) <= b.source.value
            && (!b.fd ==> n > 0 && (n == len || n == b.len - |b.content|))
  {
    var n := Amount(b, len, io);
    if n > 0 { SliceMore(b.content, b.source.value, n); }
  }

  /** From a file descriptor comes what it delivers, but no more than asked for, which is at most 64 KiB. */
  lemma {:induction false} AmountRead(b: Buffer, len: nat, io: seq<Io>)
    requires b.fd && b.source.Some? && |b.content| < b.len && len > 0
    ensures var n := Amount(b, len, io);
            if io == [] || !io[0].Moved? || |b.source.value| <= |b.content| then n == 0
            else && n <= 0x1_0000 && n <= io[0].n && n <= len && n <= b.len - |b.content|
                 && n <= |b.source.value| - |b.content|
                 && (n == 0x1_0000 || n == io[0].n || n == len || n == b.len - |b.content|
                     || n == |b.source.value| - |b.content|)
  {
  }

  /** What the transport accepts of the bytes goes on; less than all of them finishes all buffers. */
  function Offered(q: Queue, bytes: Bytes, accepted: nat, closes: nat -> bool): (r: (Queue, bool))
    requires q.buffers != []
  {
    if accepted < |bytes| then Aborted(Filled(q, bytes[..accepted], false), closes)
    else Went(q, bytes, closes(q.buffers[0].id))
  }

  /**
   * A round of polling, or several: the queue, whether the channel is open, the room and the answers left, whether to
   * go on, whether the transport accepted less than it was given or reported an error, and whether a read failed
   * before its source was at an end.
   */
  datatype Turn = Turn(q: Queue, open: bool, room: nat, io: seq<Io>, net: seq<nat>, more: bool, short: bool,
      broke: bool)

  function Turned(q: Queue, len: nat, io: seq<Io>, net: seq<nat>, closes: nat -> bool): Turn
    requires q.buffers != []
  {
    var b, io' := q.buffers[0], Used(q.buffers[0], io);
    var n := Amount(b, len, io);
    if n == 0 then
      if Retries(b, io) then Turn(q, true, len, io', net, true, false, false)
      else
        var (p, open) := Finish(q, closes(b.id));
        Turn(p, open, len, io', net, open, false, b.source.Some? && |b.content| < |b.source.value|)
    else
      var net' := if net == [] then net else net[1..];
      var (p, open) := Offered(q, Piece(b, n), Accepted(net), closes);
      if Accepted(net) < n then Turn(p, open, 0, io', net', open, true, false)
      else Turn(p, open, len - n, io', net', open && n == b.len - |b.content| && len > n, false, false)
  }

  lemma {:induction false} TurnedLess(q: Queue, len: nat, io: seq<Io>, net: seq<nat>, closes: nat -> bool)
    requires q.buffers != []
    ensures var t := Turned(q, len, io, net, closes);
            && t.room <= len && (t.short ==> t.q.buffers == [])
            && (t.more && t.q.buffers != [] ==> |t.io| + t.room + |t.q.buffers| < |io| + len + |q.buffers|)
            && (t.more && t.q.buffers != [] && len > 0 ==> t.room > 0)
  {
  }

  /** The loop of channel_poll. */
  function Polled(q: Queue, len: nat, io: seq<Io>, net: seq<nat>, closes: nat -> bool): Turn
    decreases |io| + len + |q.buffers|
  {
    if q.buffers == [] then Turn(q, true, len, io, net, true, false, false)
    else
      var t := Turned(q, len, io, net, closes);
      TurnedLess(q, len, io, net, closes);
      if !t.more || t.q.buffers == [] then t
      else
        var u := Polled(t.q, t.room, t.io, t.net, closes);
        u.(broke := t.broke || u.broke)
  }

  function Final(t: Turn): (Queue, bool, nat, bool) { (t.q, t.open, t.room, t.more) }

  /** channel_poll up to the poll callback: no room means an error, which finishes all buffers. */
  function Polling(q: Queue, len: nat, io: seq<Io>, net: seq<nat>, closes: nat -> bool): Turn {
    if len > 0 then Polled(q, len, io, net, closes)
    else
      var (p, open) := Aborted(q, closes);
      Turn(p, open, 0, io, net, open, exists b :: b in q.buffers && CutShort(b), false)
  }

  /** The outcome of polling, after the poll callback had its turn, which may have closed the channel. */
  ghost predicate Ended(t: Turn, closes: bool, open: bool, r: Queue) {
    if t.more && closes then !open && r == Drained(t.q) else open == t.open && r == t.q
  }

  /** How much is sent when a buffer is submitted: from memory no more than the buffer is long. */
  function AtOnce(len: nat, fd: bool, room: nat): nat { if fd then room else Least(len, room) }

  // ----- what polling does to a queue

  ghost predicate Live(q: Queue) { QueueOk(q) && Sourced(q) && Hungry(q) }

  lemma {:induction false} FinishOk(q: Queue, closes: bool)
    requires QueueOk(q) && HungryTail(q) && q.buffers != []
    ensures var (r, open) := Finish(q, closes);
            && QueueOk(r) && Hungry(r) && (Sourced(q) ==> Sourced(r)) && Untouched(q, r) && (!open ==> r.buffers == [])
            && (open ==> r.retired == q.retired + [q.buffers[0]] && r.buffers == q.buffers[1..])
  {
    PoppedOk(q, true);
    PoppedOk(q, false);
    DrainedOk(Popped(q, true));
  }

  lemma {:induction false} AbortedOk(q: Queue, closes: nat -> bool)
    requires QueueOk(q) && Sourced(q) && HungryTail(q)
    ensures Live(Aborted(q, closes).0) && Untouched(q, Aborted(q, closes).0)
    decreases |q.buffers|
  {
    if q.buffers != [] {
      var (r, open) := Finish(q, closes(q.buffers[0].id));
      FinishOk(q, closes(q.buffers[0].id));
      if open { AbortedOk(r, closes); }
    }
  }

  /** Bytes that the first buffer takes next; for sending, those that come next in its source. */
  ghost predicate Next(q: Queue, bytes: Bytes) {
    && QueueOk(q) && Hungry(q) && q.buffers != [] && |bytes| <= Left(q.buffers[0])
    && (q.buffers[0].source.Some? ==> q.buffers[0].content + bytes <= q.buffers[0].source.value)
  }

  lemma {:induction false} WentOk(q: Queue, bytes: Bytes, closes: bool)
    requires Next(q, bytes) && bytes != []
    ensures var (r, open) := Went(q, bytes, closes);
            && QueueOk(r) && Hungry(r) && (Sourced(q) ==> Sourced(r))
            && Untouched(Filled(q, bytes, true), r) && (!open ==> r.buffers == [])
            && (open ==> if |bytes| < Left(q.buffers[0]) then r == Filled(q, bytes, true)
                         else && r.retired == q.retired + [Filled(q, bytes, true).buffers[0]]
                              && |r.buffers| == |q.buffers| - 1)
  {
    FilledOk(q, bytes, true);
    var f := Filled(q, bytes, true);
    if |bytes| == Left(q.buffers[0]) { FinishOk(f, closes); }
  }

  /** From q to r some bytes went into buffers; unless the channel was closed, those in memory were filled. */
  ghost predicate Receives(q: Queue, r: Queue, open: bool, bytes: Bytes) {
    && Grows(q, r) && Flatten(r.stream) == Flatten(q.stream) + bytes && FromBuffers(r.stream, |q.stream|)
    && (open ==> FullFrom(r, |q.retired|))
  }

  lemma {:induction false} WentReceives(q: Queue, bytes: Bytes, closes: bool)
    requires Next(q, bytes) && bytes != []
    ensures var (r, open) := Went(q, bytes, closes); Receives(q, r, open, bytes)
  {
    WentOk(q, bytes, closes);
    FilledOk(q, bytes, true);
    assert Filled(q, bytes, true).stream == q.stream + [Chunk(InBuffer(q.buffers[0].id), bytes)];
  }

  lemma {:induction false} FinishReceives(q: Queue, closes: bool)
    requires QueueOk(q) && HungryTail(q) && q.buffers != [] && q.buffers[0].fd
    ensures var (r, open) := Finish(q, closes); Receives(q, r, open, [])
  {
    FinishOk(q, closes);
  }

  lemma RoomFits(b: Buffer, left: nat, io: seq<Io>)
    requires |b.content| < b.len && left > 0
    ensures Room(b, left, io) <= left && Room(b, left, io) <= Left(b)
    ensures !b.fd ==> Room(b, left, io) == left || Room(b, left, io) == Left(b)
    ensures b.fd && Result(io).Moved? ==>
              var n := Room(b, left, io); n <= io[0].n && (n == left || n == Left(b) || n == io[0].n)
    ensures Room(b, left, io) == 0 ==> b.fd && (Retries(b, io) ==> |Used(b, io)| < |io|)
  {
  }

  lemma {:induction false} TakenLess(q: Queue, data: Bytes, p: nat, io: seq<Io>, closes: nat -> bool)
    requires Hungry(q) && q.buffers != [] && p < |data|
    ensures var t := Taken(q, data, p, io, closes);
            t.open ==> |t.q.buffers| + |t.io| - t.p < |q.buffers| + |io| - p
  {
    RoomFits(q.buffers[0], |data| - p, io);
  }

  /** A round of receiving moves the bytes up to the new position into buffers, or finishes a buffer that failed. */
  lemma {:induction false} TakenOk(q: Queue, data: Bytes, p: nat, io: seq<Io>, closes: nat -> bool)
    requires QueueOk(q) && Hungry(q) && NoSources(q) && q.buffers != [] && p < |data|
    ensures var t := Taken(q, data, p, io, closes); p <= t.p <= |data| && Receives(q, t.q, t.open, data[p..t.p])
  {
    var b := q.buffers[0];
    var n := Room(b, |data| - p, io);
    RoomFits(b, |data| - p, io);
    var t := Taken(q, data, p, io, closes);
    if n > 0 {
      assert (t.q, t.open) == Went(q, data[p..p + n], closes(b.id)) && t.p == p + n;
      WentReceives(q, data[p..p + n], closes(b.id));
    } else if Retries(b, io) {
      assert t.q == q && t.p == p;
    } else {
      assert (t.q, t.open) == Finish(q, closes(b.id)) && t.p == p;
      FinishReceives(q, closes(b.id));
    }
  }

  /** From buffer n on, no finished buffer was cut short. */
  ghost predicate Uncut(q: Queue, n: nat) { forall i :: n <= i < |q.retired| ==> !CutShort(q.retired[i]) }

  /** From q to s no more than `budget` bytes were sent, all from buffers, and exactly so many unless `short`. */
  ghost predicate Spent(q: Queue, s: Queue, budget: int, short: bool) {
    && Grows(q, s) && FromBuffers(s.stream, |q.stream|)
    && |Flatten(s.stream)| <= |Flatten(q.stream)| + budget
    && (!short ==> |Flatten(s.stream)| == |Flatten(q.stream)| + budget)
  }

  lemma {:induction false} SpentMore(q: Queue, r: Queue, s: Queue, a: int, b: int, short: bool)
    requires Spent(q, r, a, false) && Spent(r, s, b, short)
    ensures Spent(q, s, a + b, short)
  {
    forall i | |q.stream| <= i < |s.stream| ensures s.stream[i].place.InBuffer? {
      if i < |r.stream| { assert s.stream[i] == r.stream[i]; }
    }
  }

  lemma {:induction false} UncutMore(q: Queue, r: Queue, s: Queue)
    requires Grows(q, r) && Grows(r, s)
    ensures Uncut(s, |q.retired|) <==> Uncut(r, |q.retired|) && Uncut(s, |r.retired|)
  {
    if Uncut(s, |q.retired|) {
      forall i | |q.retired| <= i < |r.retired| ensures !CutShort(r.retired[i]) { assert s.retired[i] == r.retired[i]; }
    }
    if Uncut(r, |q.retired|) && Uncut(s, |r.retired|) {
      forall i | |q.retired| <= i < |s.retired| ensures !CutShort(s.retired[i]) {
        if i < |r.retired| { assert s.retired[i] == r.retired[i]; }
      }
    }
  }

  /** There is nothing to do: no room is left, no buffer waits, or a file descriptor has delivered less than asked. */
  ghost predicate Idle(room: nat, buffers: seq<Buffer>) { room == 0 || buffers == [] || buffers[0].fd }

  /** From q to r n bytes were sent; if the channel is still open, no finished buffer was cut short iff `uncut`. */
  ghost predicate Step(q: Queue, r: Queue, open: bool, n: nat, uncut: bool) {
    && Spent(q, r, n, false) && (open ==> (Uncut(r, |q.retired|) <==> uncut)) && |r.buffers| <= |q.buffers|
  }

  lemma {:induction false} FinishStep(q: Queue, closes: bool)
    requires QueueOk(q) && HungryTail(q) && q.buffers != []
    ensures var (r, open) := Finish(q, closes); Step(q, r, open, 0, !CutShort(q.buffers[0]))
  {
    FinishOk(q, closes);
  }

  lemma {:induction false} UncutAll(q: Queue, r: Queue)
    requires r.retired == q.retired + q.buffers
    ensures Uncut(r, |q.retired|) <==> !exists b :: b in q.buffers && CutShort(b)
  {
    assert forall i :: 0 <= i < |q.buffers| ==> r.retired[|q.retired| + i] == q.buffers[i];
  }

  lemma {:induction false} AbortStep(q: Queue, closes: nat -> bool)
    requires QueueOk(q) && Sourced(q) && HungryTail(q)
    ensures var (r, open) := Aborted(q, closes); Step(q, r, open, 0, !exists b :: b in q.buffers && CutShort(b))
  {
    AbortedOk(q, closes);
    var r := Aborted(q, closes).0;
    assert r.retired == Everything(r) == q.retired + q.buffers;
    UncutAll(q, r);
  }

  lemma {:induction false} FilledStep(q: Queue, r: Queue, bytes: Bytes, told: bool, open: bool, uncut: bool)
    requires Next(q, bytes) && Step(Filled(q, bytes, told), r, open, 0, uncut)
    ensures Step(q, r, open, |bytes|, uncut)
  {
    FilledOk(q, bytes, told);
    var f := Filled(q, bytes, told);
    assert f.stream == q.stream + [Chunk(InBuffer(q.buffers[0].id), bytes)];
    SpentMore(q, f, r, |bytes|, 0, false);
  }

  lemma {:induction false} WentStep(q: Queue, bytes: Bytes, closes: bool)
    requires Live(q) && Next(q, bytes) && bytes != []
    ensures var (r, open) := Went(q, bytes, closes); Step(q, r, open, |bytes|, true)
  {
    var f := Filled(q, bytes, true);
    FilledOk(q, bytes, true);
    if |bytes| == Left(q.buffers[0]) {
      FinishStep(f, closes);
      assert !CutShort(f.buffers[0]);
    }
    FilledStep(q, Went(q, bytes, closes).0, bytes, true, Went(q, bytes, closes).1, true);
  }

  lemma {:induction false} FallStep(q: Queue, bytes: Bytes, closes: nat -> bool)
    requires Live(q) && Next(q, bytes)
    requires |q.buffers[0].content| + |bytes| < q.buffers[0].len
    requires |q.buffers[0].content| + |bytes| < |q.buffers[0].source.value|
    ensures var (r, open) := Aborted(Filled(q, bytes, false), closes);
            Live(r) && Untouched(Filled(q, bytes, false), r) && Step(q, r, open, |bytes|, false)
  {
    var f := Filled(q, bytes, false);
    FilledOk(q, bytes, false);
    AbortedOk(f, closes);
    AbortStep(f, closes);
    assert f.buffers[0] in f.buffers && CutShort(f.buffers[0]);
    FilledStep(q, Aborted(f, closes).0, bytes, false, Aborted(f, closes).1, false);
  }

  /**
   * What polling with room for `len` bytes promises: it uses up room for every byte it sends, and if the channel stays
   * open, some buffer that it finished was cut short if and only if the transport fell short or a read failed.
   */
  ghost predicate Progress(q: Queue, len: nat, t: Turn) {
    && Live(t.q) && t.room <= len && Spent(q, t.q, len - t.room, t.short) && |t.q.buffers| <= |q.buffers|
    && (t.open ==> (Uncut(t.q, |q.retired|) <==> !t.short && !t.broke))
    && (if t.open then t.more || Idle(t.room, t.q.buffers) else !t.more && t.q.buffers == [])
  }

  /** Nothing is sent from behind a buffer that was cut short. */
  ghost predicate Gapless(s: seq<Buffer>) {
    forall i, j :: 0 <= i < j < |s| && s[j].content != [] ==> !CutShort(s[i])
  }

  lemma {:induction false} GaplessNow(q: Queue)
    requires QueueOk(q) && Uncut(q, 0)
    ensures Gapless(Everything(q))
  {
  }

  lemma {:induction false} TurnedDry(q: Queue, len: nat, io: seq<Io>, net: seq<nat>, closes: nat -> bool)
    requires Live(q) && q.buffers != [] && len > 0 && Amount(q.buffers[0], len, io) == 0
    ensures var t := Turned(q, len, io, net, closes); Progress(q, len, t) && Everything(t.q) == Everything(q)
  {
    var b := q.buffers[0];
    PieceFits(b, len, io);
    assert CutShort(b) <==> |b.content| < |b.source.value|;
    if !Retries(b, io) {
      FinishOk(q, closes(b.id));
      FinishStep(q, closes(b.id));
    }
  }

  lemma {:induction false} TurnedShort(q: Queue, len: nat, io: seq<Io>, net: seq<nat>, closes: nat -> bool)
    requires Live(q) && q.buffers != [] && len > 0 && Accepted(net) < Amount(q.buffers[0], len, io)
    ensures var t := Turned(q, len, io, net, closes); Progress(q, len, t)
    ensures var t, b := Turned(q, len, io, net, closes), q.buffers[0];
            Everything(t.q) == Everything(Filled(q, Piece(b, Amount(b, len, io))[..Accepted(net)], false))
  {
    var b := q.buffers[0];
    var all := Piece(b, Amount(b, len, io));
    PieceFits(b, len, io);
    AppendPrefix(b.content, all[..Accepted(net)], all, b.source.value);
    FallStep(q, all[..Accepted(net)], closes);
  }

  /** What a short send moved is in the stream, but the owner of the buffer is not told about it. */
  lemma {:induction false} ShortNotTold(q: Queue, len: nat, io: seq<Io>, net: seq<nat>, closes: nat -> bool)
    requires Live(q) && q.buffers != [] && len > 0 && Accepted(net) < Amount(q.buffers[0], len, io)
    ensures var t, b := Turned(q, len, io, net, closes), q.buffers[0];
            && t.q.buffers == [] && |t.q.retired| == |q.retired| + |q.buffers|
            && var x := t.q.retired[|q.retired|];
               x.content == b.content + Piece(b, Amount(b, len, io))[..Accepted(net)] && x.done == |b.content|
  {
    TurnedShort(q, len, io, net, closes);
    TurnedLess(q, len, io, net, closes);
    var t := Turned(q, len, io, net, closes);
    assert t.q.retired == Everything(t.q);
  }

  lemma {:induction false} TurnedFull(q: Queue, len: nat, io: seq<Io>, net: seq<nat>, closes: nat -> bool)
    requires Live(q) && q.buffers != [] && len > 0 && 0 < Amount(q.buffers[0], len, io) <= Accepted(net)
    ensures var t := Turned(q, len, io, net, closes); Progress(q, len, t)
    ensures var t, b := Turned(q, len, io, net, closes), q.buffers[0];
            Everything(t.q) == Everything(Filled(q, Piece(b, Amount(b, len, io)), true))
  {
    var b := q.buffers[0];
    var bytes := Piece(b, Amount(b, len, io));
    PieceFits(b, len, io);
    assert bytes != [] && (|bytes| == len || |bytes| == Left(b) || b.fd);
    WentOk(q, bytes, closes(b.id));
    WentStep(q, bytes, closes(b.id));
  }

  lemma {:induction false} TurnedOk(q: Queue, len: nat, io: seq<Io>, net: seq<nat>, closes: nat -> bool)
    requires Live(q) && q.buffers != [] && len > 0
    ensures var t := Turned(q, len, io, net, closes); Progress(q, len, t) && (Uncut(q, 0) ==> Gapless(Everything(t.q)))
  {
    var b := q.buffers[0];
    var n := Amount(b, len, io);
    PieceFits(b, len, io);
    if n == 0 {
      TurnedDry(q, len, io, net, closes);
      if Uncut(q, 0) { GaplessNow(q); }
    } else if Accepted(net) < n {
      TurnedShort(q, len, io, net, closes);
      FilledGapless(q, Piece(b, n)[..Accepted(net)], false);
    } else {
      TurnedFull(q, len, io, net, closes);
      FilledGapless(q, Piece(b, n), true);
    }
  }

  lemma {:induction false} FilledGapless(q: Queue, bytes: Bytes, told: bool)
    requires QueueOk(q) && q.buffers != []
    ensures Uncut(q, 0) ==> Gapless(Everything(Filled(q, bytes, told)))
  {
  }

  lemma {:induction false} PolledOk(q: Queue, len: nat, io: seq<Io>, net: seq<nat>, closes: nat -> bool)
    requires Live(q) && len > 0
    ensures var t := Polled(q, len, io, net, closes);
            Progress(q, len, t) && (Uncut(q, 0) && !t.broke ==> Gapless(Everything(t.q)))
    decreases |io| + len + |q.buffers|
  {
    if q.buffers == [] {
      if Uncut(q, 0) { GaplessNow(q); }
    } else {
      var t := Turned(q, len, io, net, closes);
      TurnedOk(q, len, io, net, closes);
      TurnedLess(q, len, io, net, closes);
      if t.more && t.q.buffers != [] {
        PolledOk(t.q, t.room, t.io, t.net, closes);
        ProgressMore(q, len, t, Polled(t.q, t.room, t.io, t.net, closes));
      }
    }
  }

  lemma {:induction false} ProgressMore(q: Queue, len: nat, t: Turn, u: Turn)
    requires Progress(q, len, t) && t.open && !t.short && Progress(t.q, t.room, u)
    ensures Progress(q, len, u.(broke := t.broke || u.broke))
    ensures Uncut(q, 0) && !t.broke ==> Uncut(t.q, 0)
  {
    SpentMore(q, t.q, u.q, len - t.room, t.room - u.room, u.short);
    UncutMore(q, t.q, u.q);
    if Uncut(q, 0) && !t.broke {
      forall i | 0 <= i < |t.q.retired| ensures !CutShort(t.q.retired[i]) {
        if i < |q.retired| { assert t.q.retired[i] == q.retired[i]; }
      }
    }
  }

  /**
   * channel_poll from any queue. In particular nothing is sent from behind a buffer that was cut short, whether or not
   * the channel stays open, unless a read failed or buffers had been cut short before.
   */
  lemma {:induction false} PollingOk(q: Queue, len: nat, io: seq<Io>, net: seq<nat>, closes: nat -> bool)
    requires Live(q)
    ensures var t := Polling(q, len, io, net, closes);
            Progress(q, len, t) && (Uncut(q, 0) && !t.broke ==> Gapless(Everything(t.q)))
  {
    if len > 0 {
      PolledOk(q, len, io, net, closes);
    } else {
      AbortedOk(q, closes);
      AbortStep(q, closes);
      if Uncut(q, 0) { GaplessNow(q); }
    }
  }

  lemma {:induction false} TurnedMore(q: Queue, len: nat, io: seq<Io>, net: seq<nat>, closes: nat -> bool)
    requires Live(q) && q.buffers != [] && len > 0
    ensures var t := Turned(q, len, io, net, closes);
            && (t.more ==> t.open && (t.room > 0 || t.short))
            && (t.open && !t.more ==> !t.short && (t.room == 0 || t.q.buffers != []))
  {
    PieceFits(q.buffers[0], len, io);
    var n := Amount(q.buffers[0], len, io);
    if 0 < n <= Accepted(net) { WentOk(q, Piece(q.buffers[0], n), closes(q.buffers[0].id)); }
  }

  /** The poll callback is due exactly when no buffer is left and there is room, or the transport failed. */
  lemma {:induction false} PollingMore(q: Queue, len: nat, io: seq<Io>, net: seq<nat>, closes: nat -> bool)
    requires Live(q)
    ensures var t := Polling(q, len, io, net, closes);
            t.more <==> t.open && t.q.buffers == [] && (len == 0 || t.room > 0 || t.short)
    decreases |io| + len + |q.buffers|
  {
    if len > 0 && q.buffers != [] {
      var t := Turned(q, len, io, net, closes);
      TurnedOk(q, len, io, net, closes);
      TurnedLess(q, len, io, net, closes);
      TurnedMore(q, len, io, net, closes);
      if t.more && t.q.buffers != [] { PollingMore(t.q, t.room, t.io, t.net, closes); }
    }
  }

  /** The transport accepts all it is given, once for every buffer. */
  ghost predicate Generous(net: seq<nat>, buffers: nat, len: nat) {
    |net| >= buffers && forall i :: 0 <= i < |net| ==> net[i] >= len
  }

  function Reads(io: seq<Io>): nat { if io == [] then 0 else (if io[0].Moved? then 1 else 0) + Reads(io[1..]) }

  /** The file descriptors deliver something whenever they are not interrupted, once for every buffer. */
  ghost predicate Steady(io: seq<Io>, buffers: nat) {
    Reads(io) >= buffers && forall i :: 0 <= i < |io| ==> io[i] != Failed && io[i] != Moved(0)
  }

  lemma {:induction false} TurnedSmooth(q: Queue, len: nat, io: seq<Io>, net: seq<nat>, closes: nat -> bool)
    requires Live(q) && q.buffers != [] && len > 0 && Generous(net, |q.buffers|, len) && Steady(io, |q.buffers|)
    ensures var t := Turned(q, len, io, net, closes);
            !t.short && !t.broke && (t.more ==> Generous(t.net, |t.q.buffers|, t.room) && Steady(t.io, |t.q.buffers|))
  {
    PieceFits(q.buffers[0], len, io);
    TurnedLess(q, len, io, net, closes);
  }

  /** With a generous transport and steady descriptors no poll cuts a buffer short. */
  lemma {:induction false} PollingSmooth(q: Queue, len: nat, io: seq<Io>, net: seq<nat>, closes: nat -> bool)
    requires Live(q) && len > 0 && Generous(net, |q.buffers|, len) && Steady(io, |q.buffers|)
    ensures var t := Polling(q, len, io, net, closes); !t.short && !t.broke
    decreases |io| + len + |q.buffers|
  {
    if q.buffers != [] {
      var t := Turned(q, len, io, net, closes);
      TurnedOk(q, len, io, net, closes);
      TurnedLess(q, len, io, net, closes);
      TurnedSmooth(q, len, io, net, closes);
      if t.more && t.q.buffers != [] { PollingSmooth(t.q, t.room, t.io, t.net, closes); }
    }
  }

  // ----- what is sent is what was submitted

  /** What a buffer contributes when it is not cut short: as much of its source as it is long. */
  function Want(b: Buffer): Bytes
    requires b.source.Some?
  {
    if b.len < |b.source.value| then b.source.value[..b.len] else b.source.value
  }

  function Wants(s: seq<Buffer>): Bytes
    requires Sources(s)
  {
    if s == [] then [] else Wants(s[..|s| - 1]) + Want(s[|s| - 1])
  }

  predicate CutShort(b: Buffer) { b.source.Some? && b.content != Want(b) }

  lemma {:induction false} WantsMore(s: seq<Buffer>, t: seq<Buffer>)
    requires Sources(s) && Sources(t)
    ensures Sources(s + t) && Wants(s) <= Wants(s + t)
    decreases |t|
  {
    if t == [] {
      assert s + t == s;
    } else {
      var n := |t| - 1;
      assert (s + t)[..|s + t| - 1] == s + t[..n];
      WantsMore(s, t[..n]);
    }
  }

  /**
   * Nothing is sent but what was submitted: finished buffers gave exactly all they should if and only if none was cut
   * short.
   */
  lemma {:induction false} SentExactly(r: seq<Buffer>)
    requires Sources(r) && forall i :: 0 <= i < |r| ==> Within(r[i])
    ensures |Contents(r)| <= |Wants(r)|
    ensures Contents(r) == Wants(r) <==> forall i :: 0 <= i < |r| ==> !CutShort(r[i])
  {
    if r != [] {
      var s, b := r[..|r| - 1], r[|r| - 1];
      SentExactly(s);
      assert b.content <= Want(b);
      assert forall i :: 0 <= i < |s| ==> r[i] == s[i];
      if Contents(r) == Wants(r) {
        assert |Contents(s)| + |b.content| == |Wants(s)| + |Want(b)|;
        assert Contents(r)[..|Contents(s)|] == Contents(s);
      }
    }
  }

  lemma {:induction false} WantsLast(s: seq<Buffer>)
    requires Sources(s) && s != []
    ensures Wants(s) == Wants(s[..|s| - 1]) + Want(s[|s| - 1])
  {
  }

  lemma AppendPrefix(a: Bytes, b: Bytes, c: Bytes, d: Bytes)
    requires b <= c && a + c <= d
    ensures a + b <= d
  {
    assert a + c == a + b + c[|b|..];
  }

  lemma {:induction false} WantsAt(s: seq<Buffer>, k: nat)
    requires Sources(s) && k < |s| && Within(s[k])
    ensures Wants(s[..k]) + s[k].content <= Wants(s)
  {
    var t := s[..k + 1];
    WantsLast(t);
    assert t[..k] == s[..k];
    assert Wants(t) <= Wants(s) by { WantsMore(t, s[k + 1..]); assert s == t + s[k + 1..]; }
    AppendPrefix(Wants(s[..k]), s[k].content, Want(s[k]), Wants(s));
  }

  /**
   * Up to and including the first buffer cut short, the bytes sent from buffers are a prefix of what all submitted
   * buffers are to send, in the order of submission: whatever was sent from buffer k starts where buffer k starts.
   */
  lemma {:induction false} SentIsPrefix(q: Queue, k: nat)
    requires QueueOk(q) && Sourced(q)
    requires k < |q.retired| + |q.buffers| && k <= |q.retired| && forall i :: 0 <= i < k ==> !CutShort(q.retired[i])
    ensures var all := q.retired + q.buffers; Sources(all) && Wants(all[..k]) + all[k].content <= Wants(all)
    ensures Contents(q.retired[..k]) == Wants(q.retired[..k])
  {
    var all := q.retired + q.buffers;
    var s := q.retired[..k];
    assert forall i :: 0 <= i < k ==> s[i] == q.retired[i];
    SentExactly(s);
    assert Within(all[k]);
    WantsAt(all, k);
  }

  lemma {:induction false} PrefixMore(s: seq<Buffer>, b: Buffer)
    requires Sources(s) && b.source.Some? && Within(b)
    requires if b.content == [] then Contents(s) <= Wants(s) else Contents(s) == Wants(s)
    ensures Contents(s + [b]) <= Wants(s + [b])
  {
    ContentsMore(s, b);
    WantsLast(s + [b]);
    assert (s + [b])[..|s|] == s;
    assert b.content <= Want(b);
  }

  lemma {:induction false} GaplessPrefix(s: seq<Buffer>)
    requires Sources(s) && Gapless(s) && forall i :: 0 <= i < |s| ==> Within(s[i])
    ensures Contents(s) <= Wants(s)
  {
    if s != [] {
      var n := |s| - 1;
      var t := s[..n];
      assert forall i :: 0 <= i < n ==> t[i] == s[i];
      GaplessPrefix(t);
      if s[n].content != [] { SentExactly(t); }
      PrefixMore(t, s[n]);
      assert t + [s[n]] == s;
    }
  }

  lemma {:induction false} ContentsBegun(r: seq<Buffer>, s: seq<Buffer>)
    requires forall i :: 0 < i < |s| ==> s[i].content == []
    ensures Contents(r + s) == Contents(r) + HeadContent(s)
    decreases |s|
  {
    if s == [] {
      assert r + s == r;
    } else {
      var n := |s| - 1;
      assert r + s == r + s[..n] + [s[n]];
      ContentsMore(r + s[..n], s[n]);
      ContentsBegun(r, s[..n]);
    }
  }

  /**
   * As long as nothing is sent from behind a buffer that was cut short, all that was sent from buffers is a prefix of
   * what all submitted buffers are to send, in the order of submission.
   */
  lemma {:induction false} StreamIsPrefix(q: Queue)
    requires QueueOk(q) && Sourced(q) && Gapless(Everything(q))
    ensures Sources(Everything(q)) && Buffered(q.stream) <= Wants(Everything(q))
  {
    ContentsBegun(q.retired, q.buffers);
    var s := Everything(q);
    assert forall i :: 0 <= i < |s| ==> Within(s[i]);
    GaplessPrefix(s);
  }

  /** A queue whose only buffer did not send anything. */
  ghost predicate Skipped(q: Queue, a: Bytes) {
    && q.buffers == [] && |q.retired| == 1 && q.retired[0].source == Some(a) && |a| <= q.retired[0].len
    && Buffered(q.stream) == []
  }

  lemma {:induction false} FirstSkipped(blank: Queue, a: Bytes, short: bool, closes: nat -> bool)
    requires Blank(blank) && a != []
    ensures var t := Polling(Submitted(blank, |a|, !short, Some(a), false), |a|, [Failed], [], closes);
            t.open && Skipped(t.q, a)
  {
    var q := Submitted(blank, |a|, !short, Some(a), false);
    var b := q.buffers[0];
    if short {
      assert Amount(b, |a|, [Failed]) == |a|;
      var f := Filled(q, [], false);
      assert f.buffers[0] == b;
      assert Piece(b, |a|)[..0] == [];
      StreamMore(q.stream, Chunk(InBuffer(b.id), []));
      var r := Popped(f, false);
      assert Aborted(f, closes) == Aborted(r, closes) == (r, true);
    }
  }

  lemma {:induction false} SecondSent(q: Queue, a: Bytes, b: Bytes, closes: nat -> bool)
    requires Skipped(q, a) && b != []
    ensures var t := Polling(Submitted(q, |b|, false, Some(b), false), |b|, [], [|b|], closes);
            && t.open && Buffered(t.q.stream) == b
            && Everything(t.q) == q.retired + [Buffer(1, |b|, false, Some(b), |b|, b, false)]
  {
    var p := Submitted(q, |b|, false, Some(b), false);
    var x := p.buffers[0];
    assert Amount(x, |b|, []) == |b| && Piece(x, |b|) == b;
    StreamMore(q.stream, Chunk(InBuffer(x.id), b));
    assert [] + b == b;
    var f := Filled(p, b, true);
    assert f.buffers == [Buffer(1, |b|, false, Some(b), |b|, b, false)];
    assert Turned(p, |b|, [], [|b|], closes).q == Popped(f, false);
  }

  lemma {:induction false} TwoApart(x: Buffer, y: Buffer, a: Bytes, b: Bytes)
    requires x.source == Some(a) && |a| <= x.len && y.source.Some? && a != [] && b != [] && a[0] != b[0]
    ensures Sources([x, y]) && !(b <= Wants([x, y]))
  {
    var s := [x, y];
    assert s[..1] == [x];
    WantsLast(s);
    WantsLast(s[..1]);
    assert Want(x) == a && Wants(s[..1]) == a;
    assert Wants(s)[0] == a[0];
  }
}
