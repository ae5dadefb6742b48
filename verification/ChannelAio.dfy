/**
 * Asynchronous I/O on channels: queues of buffers that incoming data is stored into, or that outgoing data is
 * taken from, with a callback for every buffer that is finished. A callback may close the channel.
 *
 * What the application does in a callback, what file descriptors accept and deliver, and what the transport
 * accepts are parameters.
 */
module ChannelAio {
  import opened Wrappers
  import opened ChannelQueues

  class Channel {
    var open: bool
    var freed: bool
    var inCallback: bool
    var receive: Queue
    var send: Queue
    var hasReceiveCallback: bool
    var hasPollCallback: bool
    var polls: seq<nat>
    /** How many buffers of each queue were finished when the channel was closed. */
    ghost var closedAt: (nat, nat)

    /** Between calls of the methods below. */
    ghost predicate Valid()
      reads this
    {
      QueueOk(receive) && QueueOk(send) && Hungry(receive) && Hungry(send) && NoSources(receive) && Sourced(send)
          && Settled() && Notified() && Released()
    }

    /** A channel is freed when it is closed, outside of callbacks. */
    ghost predicate Released()
      reads this
    {
      !inCallback && freed == !open
    }

    /** The callbacks of all buffers that were finished while the channel was open were called, and no other ones. */
    ghost predicate Notified()
      reads this
    {
      && Called(receive, if open then |receive.retired| else closedAt.0)
      && Called(send, if open then |send.retired| else closedAt.1)
    }

    /** A closed channel has no buffers. */
    ghost predicate Settled()
      reads this
    {
      !open ==> receive.buffers == [] && send.buffers == []
    }

    constructor (hasReceiveCallback: bool, hasPollCallback: bool)
      ensures Valid() && open && !freed && Blank(receive) && Blank(send)
      ensures this.hasReceiveCallback == hasReceiveCallback && this.hasPollCallback == hasPollCallback && polls == []
    {
      var q := Queue([], [], [], []);
      BlankOk(q);
      open, freed, inCallback := true, false, false;
      receive, send := q, q;
      this.hasReceiveCallback, this.hasPollCallback := hasReceiveCallback, hasPollCallback;
      polls, closedAt := [], (0, 0);
    }

    /** The callback of a buffer that was taken off the receive queue, which becomes q then, may close the channel. */
    method TellReceive(b: Buffer, closes: bool, ghost q: Queue) returns (alive: bool)
      requires open && QueueOk(q) && QueueOk(send) && Called(q, |q.retired|) && Called(send, |send.retired|)
      requires q == receive.(calls := receive.calls + if b.hasCallback then [Call(b.id, b.done)] else [])
      modifies `open, `closedAt, `freed, `inCallback, `receive, `send
      ensures if b.hasCallback && closes
              then !alive && !open && freed && receive == Drained(q) && send == Drained(old(send))
              else alive && open && freed == old(freed) && receive == q && send == old(send)
      ensures !inCallback && Notified()
      decreases 1, 2
    {
      inCallback := true;
      if b.hasCallback {
        receive := receive.(calls := receive.calls + [Call(b.id, b.done)]);
        if closes { Close(); }
      }
      inCallback := false;
      if !open { freed := true; }
      alive := open;
    }

    /** aio_finish_one on the receive queue: the callback of the first buffer may close the channel. */
    method FinishReceive(closes: bool) returns (alive: bool)
      requires QueueOk(receive) && QueueOk(send) && Notified() && receive.buffers != []
      modifies `open, `closedAt, `freed, `inCallback, `receive, `send
      ensures if old(open) && old(receive.buffers[0].hasCallback) && closes
              then && !alive && !open && freed && !inCallback
                   && receive == Drained(Popped(old(receive), true)) && send == Drained(old(send))
              else && alive && open == old(open) && freed == old(freed) && send == old(send)
                   && receive == Popped(old(receive), old(open) && old(receive.buffers[0].hasCallback))
                   && inCallback == (old(inCallback) && !old(open))
      ensures Notified() && (!old(open) ==> closedAt == old(closedAt))
      decreases if open then 1 else 0, 3
    {
      var b := receive.buffers[0];
      ghost var q := Popped(receive, open && b.hasCallback);
      PoppedCalled(receive, open, if open then |receive.retired| else closedAt.0);
      receive := receive.(buffers := receive.buffers[1..], retired := receive.retired + [b]);
      alive := true;
      if open { alive := TellReceive(b, closes, q); }
    }

    /** The callback of a buffer that was taken off the send queue, which becomes q then, may close the channel. */
    method TellSend(b: Buffer, closes: bool, ghost q: Queue) returns (alive: bool)
      requires open && QueueOk(q) && QueueOk(receive) && Called(q, |q.retired|) && Called(receive, |receive.retired|)
      requires q == send.(calls := send.calls + if b.hasCallback then [Call(b.id, b.done)] else [])
      modifies `open, `closedAt, `freed, `inCallback, `receive, `send
      ensures if b.hasCallback && closes
              then !alive && !open && freed && send == Drained(q) && receive == Drained(old(receive))
              else alive && open && freed == old(freed) && send == q && receive == old(receive)
      ensures !inCallback && Notified()
      decreases 1, 2
    {
      inCallback := true;
      if b.hasCallback {
        send := send.(calls := send.calls + [Call(b.id, b.done)]);
        if closes { Close(); }
      }
      inCallback := false;
      if !open { freed := true; }
      alive := open;
    }

    /** aio_finish_one on the send queue. */
    method FinishSend(closes: bool) returns (alive: bool)
      requires QueueOk(receive) && QueueOk(send) && Notified() && send.buffers != []
      modifies `open, `closedAt, `freed, `inCallback, `receive, `send
      ensures if old(open) && old(send.buffers[0].hasCallback) && closes
              then && !alive && !open && freed && !inCallback
                   && send == Drained(Popped(old(send), true)) && receive == Drained(old(receive))
              else && alive && open == old(open) && freed == old(freed) && receive == old(receive)
                   && send == Popped(old(send), old(open) && old(send.buffers[0].hasCallback))
                   && inCallback == (old(inCallback) && !old(open))
      ensures Notified() && (!old(open) ==> closedAt == old(closedAt))
      decreases if open then 1 else 0, 3
    {
      var b := send.buffers[0];
      ghost var q := Popped(send, open && b.hasCallback);
      PoppedCalled(send, open, if open then |send.retired| else closedAt.1);
      send := send.(buffers := send.buffers[1..], retired := send.retired + [b]);
      alive := true;
      if open { alive := TellSend(b, closes, q); }
    }

    /** meshlink_channel_close: the buffers that wait are finished without their callbacks. */
    method Close()
      requires QueueOk(receive) && QueueOk(send) && Settled() && Notified()
      modifies `open, `closedAt, `freed, `inCallback, `receive, `send
      ensures !open && inCallback == old(inCallback) && freed == (old(freed) || !inCallback)
      ensures receive == Drained(old(receive)) && send == Drained(old(send)) && Notified()
      ensures closedAt == if old(open) then (|old(receive.retired)|, |old(send.retired)|) else old(closedAt)
      decreases if open then 1 else 0, 1
    {
      if open {
        open := false;
        closedAt := (|receive.retired|, |send.retired|);
        DropSend();
        DropReceive();
      }
      if !inCallback { freed := true; }
    }

    /** The application closes the channel. */
    method Quit()
      requires Valid()
      modifies `open, `closedAt, `freed, `inCallback, `receive, `send
      ensures Valid() && !open && Untouched(old(receive), receive) && Untouched(old(send), send)
      ensures receive == Drained(old(receive)) && send == Drained(old(send))
    {
      DrainedOk(receive);
      DrainedOk(send);
      Close();
    }

    /** aio_abort on a queue of a closed channel. */
    method DropReceive()
      requires QueueOk(receive) && QueueOk(send) && Notified() && !open
      modifies `open, `closedAt, `freed, `inCallback, `receive, `send
      ensures receive == Drained(old(receive)) && QueueOk(receive) && send == old(send) && !open && freed == old(freed)
              && inCallback == old(inCallback) && closedAt == old(closedAt) && Notified()
      decreases 0, 4
    {
      while receive.buffers != []
        invariant QueueOk(receive) && QueueOk(send) && !open && Drained(receive) == Drained(old(receive))
        invariant send == old(send) && freed == old(freed) && inCallback == old(inCallback)
        invariant closedAt == old(closedAt) && Notified()
        decreases |receive.buffers|
      {
        PoppedOk(receive, false);
        var alive := FinishReceive(false);
      }
    }

    method DropSend()
      requires QueueOk(receive) && QueueOk(send) && Notified() && !open
      modifies `open, `closedAt, `freed, `inCallback, `receive, `send
      ensures send == Drained(old(send)) && QueueOk(send) && receive == old(receive) && !open && freed == old(freed)
              && inCallback == old(inCallback) && closedAt == old(closedAt) && Notified()
      decreases 0, 4
    {
      while send.buffers != []
        invariant QueueOk(receive) && QueueOk(send) && !open && Drained(send) == Drained(old(send))
        invariant receive == old(receive) && freed == old(freed) && inCallback == old(inCallback)
        invariant closedAt == old(closedAt) && Notified()
        decreases |send.buffers|
      {
        PoppedOk(send, false);
        var alive := FinishSend(false);
      }
    }

    /** The first buffer is finished after it took what it could; the channel stays valid, and no byte moves. */
    method RetireReceive(closes: bool) returns (alive: bool)
      requires QueueOk(receive) && QueueOk(send) && HungryTail(receive) && Hungry(send) && NoSources(receive)
               && Sourced(send) && Notified() && Released() && open && receive.buffers != []
      modifies `open, `closedAt, `freed, `inCallback, `receive, `send
      ensures Valid() && alive == open && (freed == old(freed) || !alive)
      ensures Untouched(old(send), send) && Untouched(old(receive), receive)
      ensures (receive, open) == Finish(old(receive), closes) && (alive ==> send == old(send))
    {
      FinishOk(receive, closes);
      DrainedOk(send);
      alive := FinishReceive(closes);
    }

    /** aio_abort on the receive queue of an open channel. */
    method AbortReceive(closes: nat -> bool) returns (alive: bool)
      requires Valid() && open
      modifies `open, `closedAt, `freed, `inCallback, `receive, `send
      ensures Valid() && alive == open && (freed == old(freed) || !alive)
              && (alive ==> receive.buffers == [] && send == old(send))
      ensures Untouched(old(send), send) && Untouched(old(receive), receive)
      ensures (receive, open) == Aborted(old(receive), closes)
    {
      while receive.buffers != []
        invariant Valid() && open && freed == old(freed) && send == old(send)
        invariant Untouched(old(receive), receive)
        invariant Aborted(receive, closes) == Aborted(old(receive), closes)
        decreases |receive.buffers|
      {
        alive := RetireReceive(closes(receive.buffers[0].id));
        if !alive { return; }
      }
      alive := true;
    }

    /** Incoming bytes go into the first buffer, which is finished when it is full. */
    method Store(bytes: Bytes, closes: bool) returns (alive: bool)
      requires Valid() && open && receive.buffers != [] && bytes != []
      requires |bytes| <= receive.buffers[0].len - |receive.buffers[0].content|
      modifies `open, `closedAt, `freed, `inCallback, `receive, `send
      ensures Valid() && alive == open && (freed == old(freed) || !alive) && (alive ==> send == old(send))
      ensures Untouched(old(send), send) && (receive, open) == Went(old(receive), bytes, closes)
    {
      FilledOk(receive, bytes, true);
      receive := Filled(receive, bytes, true);
      alive := true;
      if |receive.buffers[0].content| == receive.buffers[0].len {
        alive := RetireReceive(closes);
      }
    }

    /**
     * How many of `left` bytes the first buffer takes now; writing to a file descriptor may be interrupted, or fail.
     */
    method HowMuch(left: nat, io: seq<Io>) returns (todo: nat, io': seq<Io>, retry: bool)
      requires Valid() && receive.buffers != [] && left > 0
      ensures todo == Room(receive.buffers[0], left, io) && io' == Used(receive.buffers[0], io)
      ensures retry == Retries(receive.buffers[0], io)
    {
      var b := receive.buffers[0];
      todo := if b.len - |b.content| > left then left else b.len - |b.content|;
      io', retry := io, false;
      if b.fd {
        var result := if io == [] then Failed else io[0];
        io' := if io == [] then io else io[1..];
        if result == Interrupted { return 0, io', true; }
        if result == Failed { return 0, io', false; }
        if todo > result.n { todo := result.n; }
      }
    }

    /**
     * One round of channel_recv with a buffer waiting: bytes from position p of the data go into the first buffer.
     * Writing to a file descriptor may be interrupted, or fail, which finishes just that buffer.
     */
    method RecvRound(data: Bytes, p: nat, io: seq<Io>, closes: nat -> bool) returns (p': nat, io': seq<Io>, alive: bool)
      requires Valid() && open && receive.buffers != [] && p < |data|
      modifies `open, `closedAt, `freed, `inCallback, `receive, `send
      ensures Valid() && alive == open && Untouched(old(send), send) && (alive ==> send == old(send))
      ensures var t := Taken(old(receive), data, p, io, closes);
              receive == t.q && open == t.open && p' == t.p && io' == t.io
    {
      var id := receive.buffers[0].id;
      ghost var t := Taken(receive, data, p, io, closes);
      var todo, retry;
      todo, io', retry := HowMuch(|data| - p, io);
      p', alive := p + todo, true;
      assert io' == t.io && p' == t.p;
      if todo > 0 {
        assert (t.q, t.open) == Went(receive, data[p..p'], closes(id));
        alive := Store(data[p..p'], closes(id));
      } else if !retry {
        assert (t.q, t.open) == Finish(receive, closes(id));
        alive := RetireReceive(closes(id));
      }
    }

    /** The bytes were handed to the receive callback, if there is one, which may have closed the channel. */
    ghost predicate HandedOver(q: Queue, bytes: Bytes, closes: bool)
      reads this
    {
      var r := Handed(q, hasReceiveCallback, bytes);
      if hasReceiveCallback && closes then !open && receive == Drained(r) else open && receive == r
    }

    /** What no buffer takes goes to the receive callback, if there is one; it may close the channel. */
    method HandOver(bytes: Bytes, closes: bool)
      requires Valid() && open
      modifies `open, `closedAt, `freed, `inCallback, `receive, `send
      ensures Valid() && Flatten(receive.stream) == Flatten(old(receive.stream)) + bytes && Untouched(old(send), send)
      ensures Grows(old(receive), receive) && (open ==> send == old(send))
      ensures HandedOver(old(receive), bytes, closes)
      ensures receive.stream == Handed(old(receive), hasReceiveCallback, bytes).stream
    {
      OtherOk(receive, Chunk(if hasReceiveCallback then InCallback else Nowhere, bytes));
      receive := Handed(receive, hasReceiveCallback, bytes);
      if hasReceiveCallback && closes { Quit(); }
    }

    /** The first p bytes of the data went through the receive queue, which was q. */
    ghost predicate TookFrom(q: Queue, data: Bytes, p: nat)
      requires p <= |data|
      reads this
    {
      Took(q, receive, data, p, hasReceiveCallback)
    }

    /** A round of the loop, seen from its beginning. */
    method RecvMore(data: Bytes, p: nat, io: seq<Io>, closes: nat -> bool, ghost q: Queue, ghost s: Queue)
        returns (p': nat, io': seq<Io>, alive: bool)
      requires Valid() && open && receive.buffers != [] && p < |data| && TookFrom(q, data, p) && Untouched(s, send)
      requires Stored(q, receive)
      modifies `open, `closedAt, `freed, `inCallback, `receive, `send
      ensures Valid() && alive == open && p <= p' <= |data| && Untouched(s, send) && TookFrom(q, data, p')
      ensures alive ==> send == old(send)
      ensures alive ==> |receive.buffers| + |io'| - p' < |old(receive.buffers)| + |io| - p && Stored(q, receive)
      ensures var t := Taken(old(receive), data, p, io, closes);
              receive == t.q && open == t.open && p' == t.p && io' == t.io
    {
      ghost var r := receive;
      TakenOk(r, data, p, io, closes);
      TakenLess(r, data, p, io, closes);
      p', io', alive := RecvRound(data, p, io, closes);
      if alive { StoredMore(q, r, receive); }
      TookMore(q, r, receive, data, p, p', hasReceiveCallback);
    }

    /** The buffers took what they could; what is left was handed over, if the channel was still open. */
    ghost predicate Delivered(t: Intake, data: Bytes, closes: bool)
      reads this
    {
      if t.open && t.p < |data| then HandedOver(t.q, data[t.p..], closes) else open == t.open && receive == t.q
    }

    /** What is left after the last buffer. */
    method RecvRest(data: Bytes, p: nat, closes: bool, ghost q: Queue, ghost s: Queue)
      requires Valid() && open && p < |data| && TookFrom(q, data, p) && Untouched(s, send)
               && receive.buffers == [] && Stored(q, receive)
      modifies `open, `closedAt, `freed, `inCallback, `receive, `send
      ensures Valid() && Untouched(s, send) && TookFrom(q, data, |data|) && (open ==> send == old(send))
      ensures open ==> receive.buffers == [] && FullFrom(receive, |q.retired|)
      ensures Delivered(Intake(old(receive), true, p, []), data, closes)
    {
      ghost var r := receive;
      HandOver(data[p..], closes);
      TookMore(q, r, receive, data, p, |data|, hasReceiveCallback);
    }

    /** The loop of channel_recv. */
    method RecvData(data: Bytes, io: seq<Io>, closes: nat -> bool, callbackCloses: bool) returns (ghost taken: nat)
      requires Valid() && open && data != []
      modifies `open, `closedAt, `freed, `inCallback, `receive, `send
      ensures Valid() && Untouched(old(send), send) && taken <= |data| && TookFrom(old(receive), data, taken)
      ensures open ==> taken == |data| && FullFrom(receive, |old(receive.retired)|) && send == old(send)
      ensures open && receive.buffers != [] ==> FromBuffers(receive.stream, |old(receive.stream)|)
      ensures Delivered(AllTaken(old(receive), data, 0, io, closes), data, callbackCloses)
    {
      var p, rest := 0, io;
      ghost var q, s := receive, send;
      assert Flatten(receive.stream) + data[..0] == Flatten(receive.stream);
      while receive.buffers != []
        invariant Valid() && open && p < |data| && send == s && TookFrom(q, data, p) && Stored(q, receive)
        invariant AllTaken(receive, data, p, rest, closes) == AllTaken(q, data, 0, io, closes)
        decreases |receive.buffers| + |rest| + |data| - p
      {
        var alive;
        p, rest, alive := RecvMore(data, p, rest, closes, q, s);
        taken := p;
        if !alive || p == |data| { return; }
      }
      taken := |data|;
      RecvRest(data, p, callbackCloses, q, s);
    }

    /**
     * channel_recv: the data goes into the waiting buffers and then to the receive callback. While the channel
     * stays open all of it does; when a callback closes it, a part from the start.
     */
    method Recv(data: Bytes, io: seq<Io>, closes: nat -> bool, callbackCloses: bool, destroyed: bool)
        returns (ghost taken: nat)
      requires Valid() && open
      modifies `open, `closedAt, `freed, `inCallback, `receive, `send
      ensures Valid() && Untouched(old(send), send) && Grows(old(receive), receive)
      ensures taken <= |data| && Flatten(receive.stream) == Flatten(old(receive.stream)) + data[..taken]
      ensures open ==> taken == |data| && send == old(send)
      ensures Fitting(receive.stream, |old(receive.stream)|, hasReceiveCallback)
      ensures data != [] ==> NoEmptyCallback(receive.stream, |old(receive.stream)|)
      ensures open && data != [] ==> FullFrom(receive, |old(receive.retired)|)
      ensures open && receive.buffers != [] ==> FromBuffers(receive.stream, |old(receive.stream)|)
      ensures data == [] && open ==> receive.buffers == []
      ensures if destroyed then !open && receive == Drained(old(receive))
              else if data != [] then Delivered(AllTaken(old(receive), data, 0, io, closes), data, callbackCloses)
              else var (q, alive) := Aborted(old(receive), closes);
                   if alive then HandedOver(q, [], callbackCloses) else !open && receive == q
    {
      taken := 0;
      if destroyed {
        Quit();
      } else if data == [] {
        RecvNothing(closes, callbackCloses);
      } else {
        taken := RecvData(data, io, closes, callbackCloses);
      }
    }

    /** Empty data signals an error: all buffers are finished, and the receive callback is called with nothing. */
    method RecvNothing(closes: nat -> bool, callbackCloses: bool)
      requires Valid() && open
      modifies `open, `closedAt, `freed, `inCallback, `receive, `send
      ensures Valid() && Untouched(old(send), send) && Grows(old(receive), receive)
      ensures Flatten(receive.stream) == Flatten(old(receive.stream))
      ensures Fitting(receive.stream, |old(receive.stream)|, hasReceiveCallback)
      ensures open ==> send == old(send) && receive.buffers == []
      ensures var (q, alive) := Aborted(old(receive), closes);
              if alive then HandedOver(q, [], callbackCloses) else !open && receive == q
    {
      var alive := AbortReceive(closes);
      if alive { HandOver([], callbackCloses); }
    }

    /** meshlink_channel_aio_receive and meshlink_channel_aio_fd_receive. */
    method SubmitReceive(len: nat, fd: bool, hasCallback: bool) returns (ok: bool)
      requires Valid() && open
      modifies `receive
      ensures Valid() && ok == (len > 0)
      ensures receive == if ok then Submitted(old(receive), len, fd, None, hasCallback) else old(receive)
    {
      if len == 0 { return false; }
      SubmittedOk(receive, len, fd, None, hasCallback);
      receive := Submitted(receive, len, fd, None, hasCallback);
      ok := true;
    }

    /** The first buffer of the send queue is finished; no byte moves. */
    method RetireSend(closes: bool) returns (alive: bool)
      requires QueueOk(receive) && QueueOk(send) && Hungry(receive) && HungryTail(send) && NoSources(receive)
               && Sourced(send) && Notified() && Released() && open && send.buffers != []
      modifies `open, `closedAt, `freed, `inCallback, `receive, `send
      ensures Valid() && alive == open && Untouched(old(receive), receive) && (alive ==> receive == old(receive))
      ensures (send, open) == Finish(old(send), closes) && (freed == old(freed) || !alive)
    {
      FinishOk(send, closes);
      DrainedOk(receive);
      alive := FinishSend(closes);
    }

    /** aio_abort on the send queue of an open channel. */
    method AbortSend(closes: nat -> bool) returns (alive: bool)
      requires Valid() && open
      modifies `open, `closedAt, `freed, `inCallback, `receive, `send
      ensures Valid() && alive == open && Untouched(old(receive), receive) && (alive ==> receive == old(receive))
      ensures (send, open) == Aborted(old(send), closes) && (freed == old(freed) || !alive)
    {
      while send.buffers != []
        invariant Valid() && open && freed == old(freed) && receive == old(receive)
        invariant Aborted(send, closes) == Aborted(old(send), closes)
        decreases |send.buffers|
      {
        alive := RetireSend(closes(send.buffers[0].id));
        if !alive { return; }
      }
      alive := true;
    }

    /** Bytes of the first buffer were accepted by the transport. */
    method Advance(bytes: Bytes, closes: bool) returns (alive: bool)
      requires Valid() && open && send.buffers != [] && bytes != []
      requires |bytes| <= send.buffers[0].len - |send.buffers[0].content|
      requires send.buffers[0].content + bytes <= send.buffers[0].source.value
      modifies `open, `closedAt, `freed, `inCallback, `receive, `send
      ensures Valid() && alive == open && Untouched(old(receive), receive) && (alive ==> receive == old(receive))
      ensures (send, open) == Went(old(send), bytes, closes)
    {
      FilledOk(send, bytes, true);
      send := Filled(send, bytes, true);
      alive := true;
      if |send.buffers[0].content| == send.buffers[0].len {
        alive := RetireSend(closes);
      }
    }

    /** The transport accepted less than it was given: that is the start of the bytes, and all buffers are finished. */
    method FallShort(bytes: Bytes, closes: nat -> bool) returns (alive: bool)
      requires Valid() && open && send.buffers != [] && |bytes| < send.buffers[0].len - |send.buffers[0].content|
      requires send.buffers[0].content + bytes <= send.buffers[0].source.value
      modifies `open, `closedAt, `freed, `inCallback, `receive, `send
      ensures Valid() && alive == open && Untouched(old(receive), receive) && (alive ==> receive == old(receive))
      ensures (send, open) == Aborted(Filled(old(send), bytes, false), closes)
    {
      FilledOk(send, bytes, false);
      var id := send.buffers[0].id;
      send := Filled(send, bytes, false);
      alive := RetireSend(closes(id));
      if alive { alive := AbortSend(closes); }
    }

    /** The next bytes to send: from memory, or what a file descriptor delivers, at most 65536 at once. */
    method NextBytes(len: nat, io: seq<Io>) returns (bytes: Bytes, io': seq<Io>, retry: bool)
      requires Valid() && send.buffers != [] && len > 0
      ensures var b := send.buffers[0];
              bytes == Piece(b, Amount(b, len, io)) && io' == Used(b, io) && retry == Retries(b, io)
    {
      var b := send.buffers[0];
      var d := |b.content|;
      var todo := if b.len - d > len then len else b.len - d;
      bytes, io', retry := [], io, false;
      if b.fd {
        if todo > 65536 { todo := 65536; }
        var result := if io == [] then Failed else io[0];
        io' := if io == [] then io else io[1..];
        if result == Interrupted { return [], io', true; }
        if result == Failed || result.n == 0 || d == |b.source.value| { return; }
        if todo > result.n { todo := result.n; }
        if todo > |b.source.value| - d { todo := |b.source.value| - d; }
      }
      assert todo == Amount(b, len, io) > 0;
      bytes := b.source.value[d..d + todo];
    }

    /** The next bytes of the first buffer are given to the transport, which accepts some of them. */
    method Offer(bytes: Bytes, accepted: nat, closes: nat -> bool) returns (alive: bool)
      requires Valid() && open && send.buffers != [] && bytes != []
      requires |bytes| <= send.buffers[0].len - |send.buffers[0].content|
      requires send.buffers[0].content + bytes <= send.buffers[0].source.value
      modifies `open, `closedAt, `freed, `inCallback, `receive, `send
      ensures Valid() && alive == open && Untouched(old(receive), receive) && (alive ==> receive == old(receive))
      ensures (send, open) == Offered(old(send), bytes, accepted, closes)
    {
      var b := send.buffers[0];
      if accepted < |bytes| {
        AppendPrefix(b.content, bytes[..accepted], bytes, b.source.value);
        alive := FallShort(bytes[..accepted], closes);
      } else {
        alive := Advance(bytes, closes(b.id));
      }
    }

    /**
     * One round of channel_poll with a buffer waiting and room for `len` bytes. `more` says whether to go on:
     * with another buffer, or to the poll callback when none is left.
     */
    method PollRound(len: nat, io: seq<Io>, net: seq<nat>, closes: nat -> bool)
      returns (len': nat, io': seq<Io>, net': seq<nat>, more: bool)
      requires Valid() && open && send.buffers != [] && len > 0
      modifies `open, `closedAt, `freed, `inCallback, `receive, `send
      ensures Valid() && Untouched(old(receive), receive) && (more ==> open)
      ensures var t := Turned(old(send), len, io, net, closes);
              send == t.q && open == t.open && len' == t.room && io' == t.io && net' == t.net && more == t.more
    {
      var b := send.buffers[0];
      var bytes, retry;
      bytes, io', retry := NextBytes(len, io);
      PieceFits(b, len, io);
      len', net', more := len, net, true;
      if bytes == [] {
        if !retry { more := RetireSend(closes(b.id)); }
        return;
      }
      var accepted := if net == [] then 0 else net[0];
      net' := if net == [] then net else net[1..];
      more := Offer(bytes, accepted, closes);
      if accepted < |bytes| {
        len' := 0;
      } else {
        len' := len - |bytes|;
        more := more && |bytes| == b.len - |b.content| && len' > 0;
      }
    }

    /** The poll callback, if there is one; it may close the channel. */
    method CallPoll(len: nat, closes: bool)
      requires Valid() && open
      modifies `open, `closedAt, `freed, `inCallback, `receive, `send, `polls
      ensures Valid() && Untouched(old(receive), receive) && Untouched(old(send), send)
      ensures polls == if hasPollCallback then old(polls) + [len] else old(polls)
      ensures if hasPollCallback && closes then !open && send == Drained(old(send)) else open && send == old(send)
    {
      if hasPollCallback {
        polls := polls + [len];
        if closes { Quit(); }
      }
    }

    /** The loop of channel_poll. */
    method PollLoop(len: nat, io: seq<Io>, net: seq<nat>, closes: nat -> bool) returns (room: nat, more: bool)
      requires Valid() && open && len > 0
      modifies `open, `closedAt, `freed, `inCallback, `receive, `send
      ensures Valid() && Untouched(old(receive), receive) && (more ==> open)
      ensures (send, open, room, more) == Final(Polled(old(send), len, io, net, closes))
    {
      var rest, accepted := io, net;
      ghost var q := send;
      room, more := len, true;
      while more && send.buffers != []
        invariant Valid() && Untouched(old(receive), receive) && (more ==> open)
        invariant more && send.buffers != [] ==> room > 0
        invariant Final(Polled(q, len, io, net, closes)) ==
                  if more && send.buffers != [] then Final(Polled(send, room, rest, accepted, closes))
                  else (send, open, room, more)
        decreases if more && send.buffers != [] then 1 + |rest| + room + |send.buffers| else 0
      {
        TurnedLess(send, room, rest, accepted, closes);
        room, rest, accepted, more := PollRound(room, rest, accepted, closes);
      }
    }

    /** channel_poll: send from the waiting buffers, then let the application send. */
    method Poll(len: nat, io: seq<Io>, net: seq<nat>, closes: nat -> bool, callbackCloses: bool)
      requires Valid() && open
      modifies `open, `closedAt, `freed, `inCallback, `receive, `send, `polls
      ensures Valid() && Untouched(old(receive), receive)
      ensures Ended(Polling(old(send), len, io, net, closes), hasPollCallback && callbackCloses, open, send)
      ensures var t := Polling(old(send), len, io, net, closes);
              var due := t.open && t.q.buffers == [] && (len == 0 || t.room > 0 || t.short);
              polls == old(polls) + if due && hasPollCallback then [t.room] else []
    {
      PollingMore(send, len, io, net, closes);
      var room, more: bool := len, true;
      if len == 0 {
        more := AbortSend(closes);
      } else {
        room, more := PollLoop(len, io, net, closes);
      }
      if more { CallPoll(room, callbackCloses); }
    }

    /** A buffer is appended to the send queue. */
    method Enqueue(len: nat, fd: bool, source: Bytes, hasCallback: bool)
      requires Valid() && open && len > 0 && (!fd ==> |source| == len)
      modifies `send
      ensures Valid() && send == Submitted(old(send), len, fd, Some(source), hasCallback)
    {
      SubmittedOk(send, len, fd, Some(source), hasCallback);
      send := Submitted(send, len, fd, Some(source), hasCallback);
    }

    /**
     * meshlink_channel_aio_send and meshlink_channel_aio_fd_send: the buffer is appended, and as much is sent right
     * away as there is room for in the transport; from memory, no more than the buffer is long.
     */
    method SubmitSend(len: nat, fd: bool, source: Bytes, hasCallback: bool, room: nat, io: seq<Io>, net: seq<nat>,
        closes: nat -> bool, callbackCloses: bool)
      returns (ok: bool)
      requires Valid() && open && (!fd ==> |source| == len)
      modifies `open, `closedAt, `freed, `inCallback, `receive, `send, `polls
      ensures Valid() && ok == (len > 0) && Untouched(old(receive), receive)
      ensures !ok ==> send == old(send) && open
      ensures ok ==>
                var q := Submitted(old(send), len, fd, Some(source), hasCallback);
                var todo := if !fd && len < room then len else room;
                if todo == 0 then open && send == q
                else Ended(Polling(q, todo, io, net, closes), hasPollCallback && callbackCloses, open, send)
    {
      if len == 0 { return false; }
      Enqueue(len, fd, source, hasCallback);
      var todo := AtOnce(len, fd, room);
      if todo > 0 { Poll(todo, io, net, closes, callbackCloses); }
      ok := true;
    }

    /** meshlink_channel_send: refused while buffers wait; otherwise the transport accepts some of the data. */
    method Send(data: Bytes, accepts: int) returns (n: int)
      requires Valid()
      modifies `send
      ensures Valid() && send == old(send).(stream := send.stream)
      ensures data == [] || send.buffers != [] ==> n == 0 && send == old(send)
      ensures !open ==> send == old(send) && (data != [] ==> n == -1)
      ensures if n > 0 then n <= |data| && send.stream == old(send.stream) + [Chunk(Direct, data[..n])]
              else send == old(send)
    {
      if data == [] { return 0; }
      if send.buffers != [] { return 0; }
      if !open { return -1; }
      n := if accepts > |data| then |data| else accepts;
      if n > 0 {
        OtherOk(send, Chunk(Direct, data[..n]));
        send := send.(stream := send.stream + [Chunk(Direct, data[..n])]);
      }
    }
  }

  /** The transport accepts nothing of a buffer, or reading it from its file descriptor fails. */
  method SkipFirst(c: Channel, a: Bytes, short: bool)
    requires c.Valid() && c.open && !c.hasPollCallback && Blank(c.send) && a != []
    modifies c`open, c`closedAt, c`freed, c`inCallback, c`receive, c`send, c`polls
    ensures c.Valid() && c.open && Skipped(c.send, a)
  {
    var never: nat -> bool := id => false;
    FirstSkipped(c.send, a, short, never);
    var ok := c.SubmitSend(|a|, !short, a, false, |a|, [Failed], [], never, false);
  }

  /** The next buffer is sent all the same. */
  method SendSecond(c: Channel, a: Bytes, b: Bytes)
    requires c.Valid() && c.open && !c.hasPollCallback && Skipped(c.send, a) && b != []
    modifies c`open, c`closedAt, c`freed, c`inCallback, c`receive, c`send, c`polls
    ensures c.Valid() && c.open && Buffered(c.send.stream) == b
    ensures Everything(c.send) == old(c.send.retired) + [Buffer(1, |b|, false, Some(b), |b|, b, false)]
  {
    var never: nat -> bool := id => false;
    SecondSent(c.send, a, b, never);
    var ok := c.SubmitSend(|b|, false, b, false, |b|, [], [|b|], never, false);
  }

  method SendTwo(c: Channel, a: Bytes, b: Bytes, short: bool)
    requires c.Valid() && c.open && !c.hasPollCallback && Blank(c.send) && a != [] && b != [] && a[0] != b[0]
    modifies c`open, c`closedAt, c`freed, c`inCallback, c`receive, c`send, c`polls
    ensures c.Valid() && c.open && |Everything(c.send)| == 2 && Sources(Everything(c.send))
    ensures !(Buffered(c.send.stream) <= Wants(Everything(c.send)))
  {
    SkipFirst(c, a, short);
    ghost var retired, y := c.send.retired, Buffer(1, |b|, false, Some(b), |b|, b, false);
    SendSecond(c, a, b);
    assert retired + [y] == [retired[0], y];
    TwoApart(retired[0], y, a, b);
  }

  /**
   * A buffer behind one that was cut short is sent, and the stream is no prefix then. Whatever two buffers begin with
   * different bytes: nothing is sent of the first one, and the channel stays open and sends the second one.
   */
  method PrefixFails(a: Bytes, b: Bytes, short: bool) returns (c: Channel)
    requires a != [] && b != [] && a[0] != b[0]
    ensures fresh(c) && c.Valid() && c.open && |Everything(c.send)| == 2 && Sources(Everything(c.send))
    ensures !(Buffered(c.send.stream) <= Wants(Everything(c.send)))
  {
    c := new Channel(false, false);
    SendTwo(c, a, b, short);
  }

  // ----- whole runs

  /** What the application, the transport and the descriptors do with a channel. */
  datatype Event =
    | SubmitReceive(len: nat, fd: bool, hasCallback: bool)
    | SubmitSend(len: nat, fd: bool, source: Bytes, hasCallback: bool, room: nat, io: seq<Io>, net: seq<nat>,
        closes: nat -> bool, callbackCloses: bool)
    | Arrive(data: Bytes, io: seq<Io>, closes: nat -> bool, callbackCloses: bool, destroyed: bool)
    | Poll(room: nat, io: seq<Io>, net: seq<nat>, closes: nat -> bool, callbackCloses: bool)
    | Send(data: Bytes, accepts: int)
    | Close

  function Brought(e: Event): Bytes { if e.Arrive? then e.data else [] }

  function Arrived(events: seq<Event>): Bytes {
    if events == [] then [] else Arrived(events[..|events| - 1]) + Brought(events[|events| - 1])
  }

  ghost predicate Possible(e: Event) { e.SubmitSend? && !e.fd ==> |e.source| == e.len }

  /** Whether an event cuts short a buffer of the send queue: by a short send, a failed read, or for lack of room. */
  predicate Cuts(q: Queue, e: Event) {
    match e
    case SubmitSend(len, fd, source, hasCallback, room, io, net, closes, _) =>
      var todo := AtOnce(len, fd, room);
      var t := Polling(Submitted(q, len, fd, Some(source), hasCallback), todo, io, net, closes);
      len > 0 && todo > 0 && (t.short || t.broke)
    case Poll(room, io, net, closes, _) => var t := Polling(q, room, io, net, closes); t.short || t.broke
    case _ => false
  }

  /** An event with `buffers` waiting at which the transport accepts all, and reading does not fail. */
  ghost predicate Smooth(e: Event, buffers: nat) {
    match e
    case SubmitSend(len, fd, _, _, room, io, net, _, _) =>
      var todo := AtOnce(len, fd, room);
      len > 0 && todo > 0 ==> Generous(net, buffers, todo) && Steady(io, buffers)
    case Poll(room, io, net, _, _) => room > 0 && Generous(net, buffers, room) && Steady(io, buffers)
    case _ => true
  }

  lemma {:induction false} SmoothUncut(q: Queue, e: Event, buffers: nat)
    requires Live(q) && Possible(e) && Smooth(e, buffers) && |q.buffers| < buffers
    ensures !Cuts(q, e)
  {
    match e
    case SubmitSend(len, fd, source, hasCallback, room, io, net, closes, _) =>
      if len > 0 && AtOnce(len, fd, room) > 0 {
        SubmittedOk(q, len, fd, Some(source), hasCallback);
        PollingSmooth(Submitted(q, len, fd, Some(source), hasCallback), AtOnce(len, fd, room), io, net, closes);
      }
    case Poll(room, io, net, closes, _) => PollingSmooth(q, room, io, net, closes);
    case _ =>
  }

  /** What becomes of a send queue: `cut` says whether one of its buffers was cut short. */
  ghost predicate Sends(q: Queue, r: Queue, open: bool, cut: bool) {
    && Grows(q, r) && |r.buffers| <= |q.buffers| + 1
    && (Uncut(q, 0) && !cut ==> Gapless(Everything(r))) && (open ==> (Uncut(r, |q.retired|) <==> !cut))
  }

  lemma {:induction false} SendsNothing(q: Queue, r: Queue, open: bool)
    requires QueueOk(q) && Grows(q, r) && Everything(r) == Everything(q) && (open ==> r.retired == q.retired)
    ensures Sends(q, r, open, false)
  {
    if Uncut(q, 0) { GaplessNow(q); }
    assert |r.retired| + |r.buffers| == |q.retired| + |q.buffers|;
  }

  lemma {:induction false} SendsPolled(q: Queue, p: Queue, len: nat, t: Turn, closes: bool, r: Queue, open: bool)
    requires Progress(p, len, t) && (Uncut(p, 0) && !t.broke ==> Gapless(Everything(t.q)))
    requires p.retired == q.retired && p.calls == q.calls && p.stream == q.stream && |p.buffers| <= |q.buffers| + 1
    requires Ended(t, closes, open, r)
    ensures Sends(q, r, open, t.short || t.broke)
  {
    DrainedOk(t.q);
  }

  lemma {:induction false} SendsPoll(q: Queue, e: Event, closes: bool, r: Queue, open: bool)
    requires Live(q) && e.Poll? && Ended(Polling(q, e.room, e.io, e.net, e.closes), closes, open, r)
    ensures Sends(q, r, open, Cuts(q, e))
  {
    PollingOk(q, e.room, e.io, e.net, e.closes);
    SendsPolled(q, q, e.room, Polling(q, e.room, e.io, e.net, e.closes), closes, r, open);
  }

  method HappenPoll(c: Channel, e: Event)
    requires c.Valid() && c.open && e.Poll?
    modifies c
    ensures c.Valid() && Untouched(old(c.receive), c.receive) && c.hasReceiveCallback == old(c.hasReceiveCallback)
    ensures Sends(old(c.send), c.send, c.open, Cuts(old(c.send), e))
  {
    ghost var q := c.send;
    c.Poll(e.room, e.io, e.net, e.closes, e.callbackCloses);
    SendsPoll(q, e, c.hasPollCallback && e.callbackCloses, c.send, c.open);
  }

  lemma {:induction false} SendsSubmitted(q: Queue, e: Event, closes: bool, r: Queue, open: bool)
    requires Live(q) && Possible(e) && e.SubmitSend? && e.len > 0
    requires var p, todo := Submitted(q, e.len, e.fd, Some(e.source), e.hasCallback), AtOnce(e.len, e.fd, e.room);
             if todo == 0 then open && r == p else Ended(Polling(p, todo, e.io, e.net, e.closes), closes, open, r)
    ensures Sends(q, r, open, Cuts(q, e))
  {
    var p, todo := Submitted(q, e.len, e.fd, Some(e.source), e.hasCallback), AtOnce(e.len, e.fd, e.room);
    SubmittedOk(q, e.len, e.fd, Some(e.source), e.hasCallback);
    if todo == 0 {
      if Uncut(q, 0) { GaplessNow(p); }
    } else {
      PollingOk(p, todo, e.io, e.net, e.closes);
      SendsPolled(q, p, todo, Polling(p, todo, e.io, e.net, e.closes), closes, r, open);
    }
  }

  method HappenSubmit(c: Channel, e: Event)
    requires c.Valid() && c.open && Possible(e) && e.SubmitSend?
    modifies c
    ensures c.Valid() && Untouched(old(c.receive), c.receive) && c.hasReceiveCallback == old(c.hasReceiveCallback)
    ensures Sends(old(c.send), c.send, c.open, Cuts(old(c.send), e))
  {
    ghost var q := c.send;
    var ok := c.SubmitSend(e.len, e.fd, e.source, e.hasCallback, e.room, e.io, e.net, e.closes, e.callbackCloses);
    if ok {
      SendsSubmitted(q, e, c.hasPollCallback && e.callbackCloses, c.send, c.open);
    } else {
      SendsNothing(q, c.send, true);
    }
  }

  /** From r to r' the receive queue took what an event brought, or, when the channel was closed, a part of it. */
  ghost predicate Intakes(r: Queue, r': Queue, e: Event, taken: Bytes, open: bool, hasCallback: bool) {
    && Grows(r, r') && Conserves(r.stream, r'.stream, taken, Brought(e), open)
    && Fitting(r'.stream, |r.stream|, hasCallback)
  }

  lemma IntakesNothing(r: Queue, r': Queue, e: Event, open: bool, hasCallback: bool)
    requires Grows(r, r') && r'.stream == r.stream && !e.Arrive?
    ensures Intakes(r, r', e, [], open, hasCallback)
  {
  }

  method HappenArrive(c: Channel, e: Event) returns (ghost taken: Bytes)
    requires c.Valid() && c.open && e.Arrive?
    modifies c
    ensures c.Valid() && c.hasReceiveCallback == old(c.hasReceiveCallback)
    ensures Intakes(old(c.receive), c.receive, e, taken, c.open, c.hasReceiveCallback)
    ensures Sends(old(c.send), c.send, c.open, false)
  {
    ghost var s := c.send;
    ghost var n := c.Recv(e.data, e.io, e.closes, e.callbackCloses, e.destroyed);
    taken := e.data[..n];
    SendsNothing(s, c.send, c.open);
  }

  method HappenClose(c: Channel)
    requires c.Valid() && c.open
    modifies c
    ensures c.Valid() && Grows(old(c.receive), c.receive) && c.receive.stream == old(c.receive.stream)
    ensures Sends(old(c.send), c.send, c.open, false) && c.hasReceiveCallback == old(c.hasReceiveCallback)
  {
    ghost var s := c.send;
    c.Quit();
    SendsNothing(s, c.send, false);
  }

  method HappenSend(c: Channel, data: Bytes, accepts: int)
    requires c.Valid() && c.open
    modifies c`send
    ensures c.Valid() && Sends(old(c.send), c.send, true, false)
  {
    ghost var s := c.send;
    var n := c.Send(data, accepts);
    SendsNothing(s, c.send, true);
  }

  method HappenReceive(c: Channel, len: nat, fd: bool, hasCallback: bool)
    requires c.Valid() && c.open
    modifies c`receive
    ensures c.Valid() && Grows(old(c.receive), c.receive) && c.receive.stream == old(c.receive.stream)
    ensures Sends(c.send, c.send, true, false)
  {
    var ok := c.SubmitReceive(len, fd, hasCallback);
    SendsNothing(c.send, c.send, true);
  }

  /** One event of an open channel. */
  method Happen(c: Channel, e: Event) returns (ghost taken: Bytes)
    requires c.Valid() && c.open && Possible(e)
    modifies c
    ensures c.Valid() && c.hasReceiveCallback == old(c.hasReceiveCallback)
    ensures Intakes(old(c.receive), c.receive, e, taken, c.open, c.hasReceiveCallback)
    ensures Sends(old(c.send), c.send, c.open, Cuts(old(c.send), e))
  {
    ghost var r := c.receive;
    taken := [];
    match e
    case Arrive(_, _, _, _, _) => taken := HappenArrive(c, e); return;
    case SubmitSend(_, _, _, _, _, _, _, _, _) => HappenSubmit(c, e);
    case Poll(_, _, _, _, _) => HappenPoll(c, e);
    case SubmitReceive(len, fd, hasCallback) => HappenReceive(c, len, fd, hasCallback);
    case Send(data, accepts) => HappenSend(c, data, accepts);
    case Close => HappenClose(c);
    IntakesNothing(r, c.receive, e, c.open, c.hasReceiveCallback);
  }

  /** Events took the channel from r and s to where it is; `taken` is what was received of what arrived. */
  ghost predicate Reached(c: Channel, r: Queue, s: Queue, taken: Bytes, arrived: Bytes)
    reads c
  {
    && c.Valid() && Grows(r, c.receive) && Grows(s, c.send)
    && Fitting(c.receive.stream, |r.stream|, c.hasReceiveCallback)
    && Conserves(r.stream, c.receive.stream, taken, arrived, c.open)
  }

  /** The same for what was sent, after n events; `cut` says whether one of them cut a buffer short. */
  ghost predicate Sent(s: Queue, q: Queue, open: bool, n: nat, cut: bool) {
    && Grows(s, q) && |q.buffers| <= |s.buffers| + n
    && (Uncut(s, 0) && !cut ==> Gapless(Everything(q))) && (open ==> (Uncut(q, |s.retired|) <==> !cut))
  }

  lemma {:induction false} SentMore(s: Queue, q: Queue, r: Queue, open: bool, n: nat, cut: bool, more: bool)
    requires Sent(s, q, true, n, cut) && Sends(q, r, open, more)
    ensures Sent(s, r, open, n + 1, cut || more)
  {
    UncutMore(s, q, r);
    if Uncut(s, 0) && !cut {
      forall i | 0 <= i < |q.retired| ensures !CutShort(q.retired[i]) {
        if i < |s.retired| { assert q.retired[i] == s.retired[i]; }
      }
    }
  }

  /** The first n events are smooth, with as many buffers as there can be by then. */
  ghost predicate AllSmooth(events: seq<Event>, n: nat, buffers: nat)
    requires n <= |events|
  {
    forall i :: 0 <= i < n ==> Smooth(events[i], buffers + i + 1)
  }

  ghost predicate Conserves(before: seq<Chunk>, now: seq<Chunk>, taken: Bytes, arrived: Bytes, open: bool) {
    Flatten(now) == Flatten(before) + taken && taken <= arrived && (open ==> taken == arrived)
  }

  lemma ConservesMore(a: seq<Chunk>, b: seq<Chunk>, c: seq<Chunk>, taken: Bytes, arrived: Bytes, more: Bytes,
      data: Bytes, open: bool)
    requires Conserves(a, b, taken, arrived, true) && Conserves(b, c, more, data, open)
    ensures Conserves(a, c, taken + more, arrived + data, open)
  {
    assert Flatten(a) + taken + more == Flatten(a) + (taken + more);
  }

  lemma GrowsMore(a: Queue, b: Queue, c: Queue)
    requires Grows(a, b) && Grows(b, c)
    ensures Grows(a, c)
  {
  }

  /** One more event. */
  method Go(c: Channel, events: seq<Event>, n: nat, ghost r: Queue, ghost s: Queue, ghost taken: Bytes, ghost cut: bool)
      returns (ghost taken': Bytes, ghost cut': bool)
    requires n < |events| && Possible(events[n]) && Reached(c, r, s, taken, Arrived(events[..n]))
    requires Sent(s, c.send, c.open, n, cut) && (AllSmooth(events, n, |s.buffers|) ==> !cut)
    modifies c
    ensures Reached(c, r, s, taken', Arrived(events[..n + 1])) && Sent(s, c.send, c.open, n + 1, cut')
    ensures AllSmooth(events, n + 1, |s.buffers|) ==> !cut'
  {
    ghost var arrived, data := Arrived(events[..n]), Brought(events[n]);
    assert Arrived(events[..n + 1]) == arrived + data by { assert events[..n + 1][..n] == events[..n]; }
    taken', cut' := taken, cut;
    if c.open {
      ghost var receive, send := c.receive, c.send;
      if AllSmooth(events, n + 1, |s.buffers|) { SmoothUncut(send, events[n], |s.buffers| + n + 1); }
      ghost var more := Happen(c, events[n]);
      GrowsMore(r, receive, c.receive);
      FittingMore(r.stream, receive.stream, c.receive.stream, c.hasReceiveCallback);
      ConservesMore(r.stream, receive.stream, c.receive.stream, taken, arrived, more, data, c.open);
      SentMore(s, send, c.send, c.open, n, cut, Cuts(send, events[n]));
      taken', cut' := taken + more, cut || Cuts(send, events[n]);
    }
  }

  lemma {:induction false} NothingYet(r: Queue, s: Queue)
    requires QueueOk(s)
    ensures Conserves(r.stream, r.stream, [], Arrived([]), true) && Sent(s, s, true, 0, false)
  {
    if Uncut(s, 0) { GaplessNow(s); }
  }

  /** Any run, one event after the other. */
  method GoAll(c: Channel, events: seq<Event>) returns (ghost taken: Bytes, ghost cut: bool)
    requires c.Valid() && c.open && forall i :: 0 <= i < |events| ==> Possible(events[i])
    modifies c
    ensures Reached(c, old(c.receive), old(c.send), taken, Arrived(events))
    ensures Sent(old(c.send), c.send, c.open, |events|, cut)
    ensures AllSmooth(events, |events|, |old(c.send.buffers)|) ==> !cut
  {
    ghost var r, s := c.receive, c.send;
    taken, cut := [], false;
    NothingYet(r, s);
    assert events[..0] == [];
    for n := 0 to |events|
      invariant Reached(c, r, s, taken, Arrived(events[..n])) && Sent(s, c.send, c.open, n, cut)
      invariant AllSmooth(events, n, |s.buffers|) ==> !cut
    {
      taken, cut := Go(c, events, n, r, s, taken, cut);
    }
    assert events[..|events|] == events;
  }

  /** Who was told what: buffers that were finished while the channel was open, and no others. */
  ghost predicate AllTold(c: Channel)
    reads c
  {
    && Told(c.receive, if c.open then |c.receive.retired| else c.closedAt.0)
    && Told(c.send, if c.open then |c.send.retired| else c.closedAt.1)
  }

  lemma ValidTold(c: Channel)
    requires c.Valid()
    ensures AllTold(c)
  {
    CalledTold(c.receive, if c.open then |c.receive.retired| else c.closedAt.0);
    CalledTold(c.send, if c.open then |c.send.retired| else c.closedAt.1);
  }

  /**
   * Any run on a channel: what arrived went, in order, into buffers and the receive callback, all of it as long as the
   * channel is open, and none of it is dropped if there is a receive callback. Every buffer that was finished while the
   * channel was open had its callback called exactly once if it has one, in the order of submission and with the length
   * done; those finished by closing did not. What was sent from a buffer is the start of its source.
   *
   * If no event cut a buffer short, all that was sent from buffers, also after closing, is a prefix of what all
   * buffers are to send. While the channel is open, some buffer was cut short if and only if an event did that.
   */
  method Run(c: Channel, events: seq<Event>) returns (ghost taken: Bytes, ghost cut: bool)
    requires c.Valid() && c.open && forall i :: 0 <= i < |events| ==> Possible(events[i])
    modifies c
    ensures Reached(c, old(c.receive), old(c.send), taken, Arrived(events)) && AllTold(c)
    ensures QueueOk(c.send) && Sourced(c.send) && Sources(Everything(c.send))
    ensures Uncut(old(c.send), 0) && !cut ==> Buffered(c.send.stream) <= Wants(Everything(c.send))
    ensures c.open ==> (Uncut(c.send, |old(c.send.retired)|) <==> !cut)
    ensures AllSmooth(events, |events|, |old(c.send.buffers)|) ==> !cut
  {
    ghost var s := c.send;
    taken, cut := GoAll(c, events);
    ValidTold(c);
    if Uncut(s, 0) && !cut { StreamIsPrefix(c.send); }
  }
}
