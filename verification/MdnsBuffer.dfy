/** The mDNS buffers: packets are written and checked in place, with a remaining length that is -1 after an error. */
module MdnsBuffer {
  import opened Wrappers
  import opened CStrings
  import opened Mdns

  // ----- writing

  /** Adding the bytes e under a condition: they follow what was written, or the buffer is invalid. */
  ghost predicate Adds(ok: bool, out: Bytes, room: int, out': Bytes, room': int, e: Bytes) {
    if ok && room >= |e| then out' == out + e && room' == room - |e| else room' == -1
  }

  lemma AddsBoth(a: bool, b: bool, o0: Bytes, r0: int, o1: Bytes, r1: int, o2: Bytes, r2: int, d: Bytes, e: Bytes)
    requires r0 >= -1 && Adds(a, o0, r0, o1, r1, d) && Adds(b, o1, r1, o2, r2, e)
    ensures Adds(a && b, o0, r0, o2, r2, d + e)
  {
    assert o0 + d + e == o0 + (d + e);
  }

  function LabelOr(s: Bytes): Bytes { if LabelFits(s) then Label(s) else [] }

  function UlabelOr(s: Bytes): Bytes { if |s| + 1 < 256 then Ulabel(s) else [] }

  /** The first n pairs fit in labels. */
  predicate PairsFit(keys: seq<Bytes>, values: seq<Bytes>, n: nat)
    requires n <= |keys| == |values|
  {
    n == 0 || (PairsFit(keys, values, n - 1) && LabelFits(Pair(keys[n - 1], values[n - 1])))
  }

  lemma {:induction false} PairsFitAll(keys: seq<Bytes>, values: seq<Bytes>, n: nat)
    requires n <= |keys| == |values|
    ensures PairsFit(keys, values, n) <==> forall i :: 0 <= i < n ==> LabelFits(Pair(keys[i], values[i]))
  {
    if n > 0 { PairsFitAll(keys, values, n - 1); }
  }

  class Writer {
    var out: Bytes
    var room: int

    constructor (size: nat)
      ensures out == [] && room == size
    {
      out, room := [], size;
    }

    method Add(b: Bytes)
      requires room >= -1
      modifies this
      ensures room >= -1 && Adds(true, old(out), old(room), out, room, b)
    {
      if room >= |b| {
        out, room := out + b, room - |b|;
      } else {
        room := -1;
      }
    }

    /** Two things in a row. */
    method AddTwo(a: Bytes, b: Bytes)
      requires room >= -1
      modifies this
      ensures room >= -1 && Adds(true, old(out), old(room), out, room, a + b)
    {
      ghost var o0, r0 := out, room;
      Add(a);
      ghost var o1, r1 := out, room;
      Add(b);
      AddsBoth(true, true, o0, r0, o1, r1, out, room, a, b);
    }

    method AddLabel(s: Bytes)
      requires room >= -1
      modifies this
      ensures room >= -1 && Adds(LabelFits(s), old(out), old(room), out, room, LabelOr(s))
    {
      if |s| < 256 {
        AddTwo([|s|], s);
      } else {
        room := -1;
      }
    }

    method AddUlabel(s: Bytes)
      requires room >= -1
      modifies this
      ensures room >= -1 && Adds(|s| + 1 < 256, old(out), old(room), out, room, UlabelOr(s))
    {
      if |s| + 1 < 256 {
        ghost var o0, r0 := out, room;
        AddTwo([|s| + 1], [0x5f]);
        ghost var o1, r1 := out, room;
        Add(s);
        AddsBoth(true, true, o0, r0, o1, r1, out, room, [|s| + 1] + [0x5f], s);
        assert [|s| + 1] + [0x5f] + s == Ulabel(s);
      } else {
        room := -1;
      }
    }

    method AddPair(key: Bytes, value: Bytes)
      requires room >= -1
      modifies this
      ensures room >= -1 && Adds(LabelFits(Pair(key, value)), old(out), old(room), out, room, LabelOr(Pair(key, value)))
    {
      if |key| + |value| + 1 < 256 {
        ghost var o0, r0 := out, room;
        AddTwo([|key| + |value| + 1], key);
        ghost var o1, r1 := out, room;
        AddTwo([0x3d], value);
        AddsBoth(true, true, o0, r0, o1, r1, out, room, [|key| + |value| + 1] + key, [0x3d] + value);
        assert [|key| + |value| + 1] + key + ([0x3d] + value) == Label(Pair(key, value));
      } else {
        room := -1;
      }
    }

    /** Leave space for a length. */
    method LenStart() returns (p: int)
      requires room >= -1
      modifies this
      ensures room >= -1 && p == |old(out)|
      ensures if old(room) >= 2 then room == old(room) - 2 && |out| == |old(out)| + 2 && old(out) <= out else room == -1
    {
      p := |out|;
      if room < 2 {
        room := -1;
      } else {
        out, room := out + [0, 0], room - 2;
      }
    }

    /** Fill in the length of what was written since the start, when out was o1. */
    method LenEnd(p: int, ghost o: Bytes, ghost r: int, ghost o1: Bytes, ghost r1: int, ghost ok: bool, ghost b: Bytes)
      requires r >= -1 && room >= -1 && p == |o|
      requires if r >= 2 then r1 == r - 2 && |o1| == |o| + 2 && o <= o1 else r1 == -1
      requires Adds(ok, o1, r1, out, room, b)
      modifies this
      ensures room >= -1 && Adds(ok, o, r, out, room, Counted(b))
    {
      if room < 0 { return; }
      var len := |out| - p - 2;
      out := out[p := Be16(len)[0]][p + 1 := Be16(len)[1]];
      assert out == o + Counted(b);
    }

    /** Four things in a row. */
    method AddFour(a: Bytes, b: Bytes, c: Bytes, d: Bytes)
      requires room >= -1
      modifies this
      ensures room >= -1 && Adds(true, old(out), old(room), out, room, a + b + c + d)
    {
      ghost var o0, r0 := out, room;
      AddTwo(a, b);
      ghost var o1, r1 := out, room;
      Add(c);
      AddsBoth(true, true, o0, r0, o1, r1, out, room, a + b, c);
      ghost var o2, r2 := out, room;
      Add(d);
      AddsBoth(true, true, o0, r0, o2, r2, out, room, a + b + c, d);
    }

    method AddNext(keys: seq<Bytes>, values: seq<Bytes>, i: nat, ghost o: Bytes, ghost r: int)
      requires i < |keys| == |values| && r >= -1 && room >= -1
               && Adds(PairsFit(keys, values, i), o, r, out, room, PairsOr(keys, values, i))
      modifies this
      ensures room >= -1 && Adds(PairsFit(keys, values, i + 1), o, r, out, room, PairsOr(keys, values, i + 1))
    {
      ghost var o1, r1 := out, room;
      AddPair(keys[i], values[i]);
      ghost var l := LabelOr(Pair(keys[i], values[i]));
      AddsBoth(PairsFit(keys, values, i), LabelFits(Pair(keys[i], values[i])), o, r, o1, r1, out, room,
          PairsOr(keys, values, i), l);
      assert PairsOr(keys, values, i + 1) == PairsOr(keys, values, i) + l;
    }

    method AddPairs(keys: seq<Bytes>, values: seq<Bytes>)
      requires |keys| == |values| && room >= -1
      modifies this
      ensures room >= -1 && Adds(PairsFit(keys, values, |keys|), old(out), old(room), out, room,
              PairsOr(keys, values, |keys|))
    {
      ghost var o0, r0 := out, room;
      var i := 0;
      assert out + [] == out;
      while i < |keys|
        invariant 0 <= i <= |keys| && room >= -1
                  && Adds(PairsFit(keys, values, i), o0, r0, out, room, PairsOr(keys, values, i))
      {
        AddNext(keys, values, i, o0, r0);
        i := i + 1;
      }
    }

    method AddHeader()
      requires room >= -1
      modifies this
      ensures room >= -1 && Adds(true, old(out), old(room), out, room, RESPONSE_HEADER)
    {
      ghost var o0, r0 := out, room;
      AddFour(Be16(0), Be16(0x8400), Be16(0), Be16(3));
      ghost var o1, r1 := out, room;
      AddTwo(Be16(0), Be16(0));
      AddsBoth(true, true, o0, r0, o1, r1, out, room, Be16(0) + Be16(0x8400) + Be16(0) + Be16(3), Be16(0) + Be16(0));
    }

    /** The service and the fixed fields of the TXT record. */
    method AddTxtHead(protocol: Bytes, transport: Bytes) returns (local: nat)
      requires room >= -1
      modifies this
      ensures room >= -1 && Adds(Service(protocol, transport), old(out), old(room), out, room,
              TxtHeadOr(protocol, transport))
      ensures room >= 0 ==> local == |old(out)| + |protocol| + 2 + |transport| + 2
    {
      ghost var o0, r0 := out, room;
      AddUlabel(protocol);
      ghost var o1, r1 := out, room;
      AddUlabel(transport);
      AddsBoth(|protocol| + 1 < 256, |transport| + 1 < 256, o0, r0, o1, r1, out, room, UlabelOr(protocol),
          UlabelOr(transport));
      local := |out|;
      ghost var o2, r2 := out, room;
      AddTwo(LOCAL, Be16(0x10));
      ghost var o3, r3 := out, room;
      AddTwo(Be16(0x1), Be32(3600));
      AddsBoth(true, true, o2, r2, o3, r3, out, room, LOCAL + Be16(0x10), Be16(0x1) + Be32(3600));
      assert LOCAL + Be16(0x10) + (Be16(0x1) + Be32(3600)) == LOCAL + TXT_IN;
      AddsBoth(Service(protocol, transport), true, o0, r0, o2, r2, out, room, UlabelOr(protocol) + UlabelOr(transport),
          LOCAL + TXT_IN);
      if Service(protocol, transport) {
        assert Ulabel(protocol) + Ulabel(transport) + (LOCAL + TXT_IN) == TxtHead(protocol, transport);
      }
    }

    method AddTxtData(keys: seq<Bytes>, values: seq<Bytes>)
      requires |keys| == |values| && room >= -1
      modifies this
      ensures room >= -1 && Adds(PairsFit(keys, values, |keys|), old(out), old(room), out, room,
              Counted(PairsOr(keys, values, |keys|)))
    {
      ghost var o, r := out, room;
      var p := LenStart();
      ghost var o1, r1 := out, room;
      AddPairs(keys, values);
      LenEnd(p, o, r, o1, r1, PairsFit(keys, values, |keys|), PairsOr(keys, values, |keys|));
    }

    method AddPtr(full: nat, protocolOffset: nat)
      requires room >= -1
      modifies this
      ensures room >= -1 && Adds(true, old(out), old(room), out, room,
                Pointer(protocolOffset) + Be16(0xc) + Be16(0x8001) + Be32(3600) + Counted(Pointer(full)))
    {
      ghost var o0, r0 := out, room;
      AddFour(Pointer(protocolOffset), Be16(0xc), Be16(0x8001), Be32(3600));
      ghost var o, r := out, room;
      var p := LenStart();
      ghost var o1, r1 := out, room;
      Add(Pointer(full));
      LenEnd(p, o, r, o1, r1, true, Pointer(full));
      AddsBoth(true, true, o0, r0, o, r, out, room, Pointer(protocolOffset) + Be16(0xc) + Be16(0x8001) + Be32(3600),
          Counted(Pointer(full)));
    }

    method AddSrvData(name: Bytes, port: nat, local: nat)
      requires room >= -1
      modifies this
      ensures room >= -1 && Adds(LabelFits(name), old(out), old(room), out, room,
                Be16(0) + Be16(0) + (Be16(port) + (LabelOr(name) + Pointer(local))))
    {
      ghost var o0, r0 := out, room;
      AddTwo(Be16(0), Be16(0));
      ghost var o1, r1 := out, room;
      Add(Be16(port));
      AddsBoth(true, true, o0, r0, o1, r1, out, room, Be16(0) + Be16(0), Be16(port));
      ghost var o2, r2 := out, room;
      AddLabel(name);
      ghost var o3, r3 := out, room;
      Add(Pointer(local));
      AddsBoth(LabelFits(name), true, o2, r2, o3, r3, out, room, LabelOr(name), Pointer(local));
      AddsBoth(true, LabelFits(name), o0, r0, o2, r2, out, room, Be16(0) + Be16(0) + Be16(port),
          LabelOr(name) + Pointer(local));
      assert Be16(0) + Be16(0) + Be16(port) + (LabelOr(name) + Pointer(local)) ==
             Be16(0) + Be16(0) + (Be16(port) + (LabelOr(name) + Pointer(local)));
    }

    method AddSrv(full: nat, name: Bytes, port: nat, local: nat)
      requires room >= -1
      modifies this
      ensures room >= -1 && Adds(LabelFits(name), old(out), old(room), out, room,
                Pointer(full) + Be16(0x21) + Be16(0x8001) + Be32(120)
                    + Counted(Be16(0) + Be16(0) + (Be16(port) + (LabelOr(name) + Pointer(local)))))
    {
      ghost var o0, r0 := out, room;
      AddFour(Pointer(full), Be16(0x21), Be16(0x8001), Be32(120));
      ghost var o, r := out, room;
      var p := LenStart();
      ghost var o1, r1 := out, room;
      AddSrvData(name, port, local);
      ghost var d := Be16(0) + Be16(0) + (Be16(port) + (LabelOr(name) + Pointer(local)));
      LenEnd(p, o, r, o1, r1, LabelFits(name), d);
      AddsBoth(true, LabelFits(name), o0, r0, o, r, out, room, Pointer(full) + Be16(0x21) + Be16(0x8001) + Be32(120),
          Counted(d));
    }
  }

  function TxtHeadOr(protocol: Bytes, transport: Bytes): Bytes {
    if Service(protocol, transport) then TxtHead(protocol, transport)
    else UlabelOr(protocol) + UlabelOr(transport) + (LOCAL + TXT_IN)
  }

  /** The first n pairs as labels. */
  function PairsOr(keys: seq<Bytes>, values: seq<Bytes>, n: nat): Bytes
    requires n <= |keys| == |values|
  {
    if n == 0 then [] else PairsOr(keys, values, n - 1) + LabelOr(Pair(keys[n - 1], values[n - 1]))
  }

  lemma PairsMore(keys: seq<Bytes>, values: seq<Bytes>, n: nat)
    requires n < |keys| == |values| && forall i :: 0 <= i < |keys| ==> LabelFits(Pair(keys[i], values[i]))
    ensures Pairs(keys[n..], values[n..]) == Label(Pair(keys[n], values[n])) + Pairs(keys[n + 1..], values[n + 1..])
  {
    assert keys[n..][1..] == keys[n + 1..] && values[n..][1..] == values[n + 1..];
  }

  lemma {:induction false} PairsOrFrom(keys: seq<Bytes>, values: seq<Bytes>, n: nat)
    requires n <= |keys| == |values| && forall i :: 0 <= i < |keys| ==> LabelFits(Pair(keys[i], values[i]))
    ensures PairsOr(keys, values, n) + Pairs(keys[n..], values[n..]) == Pairs(keys, values)
    decreases n
  {
    if n == 0 {
      assert keys[0..] == keys && values[0..] == values;
    } else {
      PairsOrFrom(keys, values, n - 1);
      PairsMore(keys, values, n - 1);
      var a, l, b := PairsOr(keys, values, n - 1), Label(Pair(keys[n - 1], values[n - 1])),
          Pairs(keys[n..], values[n..]);
      assert a + (l + b) == a + l + b;
    }
  }

  lemma PairsOrAll(keys: seq<Bytes>, values: seq<Bytes>)
    requires |keys| == |values| && PairsFit(keys, values, |keys|)
    ensures forall i :: 0 <= i < |keys| ==> LabelFits(Pair(keys[i], values[i]))
    ensures PairsOr(keys, values, |keys|) == Pairs(keys, values)
  {
    PairsFitAll(keys, values, |keys|);
    PairsOrFrom(keys, values, |keys|);
    assert PairsOr(keys, values, |keys|) + [] == PairsOr(keys, values, |keys|);
  }

  lemma Regroup(a: Bytes, b: Bytes, c: Bytes, d: Bytes, e: Bytes)
    ensures a + (b + (c + (d + e))) == a + b + c + d + e
  {
  }

  /** The packet up to the PTR record. */
  ghost function Front(name: Bytes, protocol: Bytes, transport: Bytes, keys: seq<Bytes>, values: seq<Bytes>): Bytes
    requires |keys| == |values|
  {
    RESPONSE_HEADER + LabelOr(name) + TxtHeadOr(protocol, transport) + Counted(PairsOr(keys, values, |keys|))
  }

  ghost function Back(name: Bytes, protocol: Bytes, transport: Bytes, port: nat): Bytes
    requires LabelFits(name)
  {
    PtrRecord(name) + (SRV_HEAD + Counted(SrvData(name, protocol, transport, port)))
  }

  lemma ResponseParts(name: Bytes, protocol: Bytes, transport: Bytes, port: nat, keys: seq<Bytes>, values: seq<Bytes>)
    requires |keys| == |values|
    ensures Sendable(name, protocol, transport, keys, values) <==>
              LabelFits(name) && Service(protocol, transport) && PairsFit(keys, values, |keys|)
    ensures Sendable(name, protocol, transport, keys, values) ==>
              Response(name, protocol, transport, port, keys, values) ==
                  Front(name, protocol, transport, keys, values) + Back(name, protocol, transport, port)
  {
    PairsFitAll(keys, values, |keys|);
    if Sendable(name, protocol, transport, keys, values) {
      PairsOrAll(keys, values);
      Regroup(RESPONSE_HEADER, Label(name), TxtHead(protocol, transport), Counted(Pairs(keys, values)),
          Back(name, protocol, transport, port));
    }
  }

  /** The packet up to the PTR record. */
  method PrepareFront(w: Writer, name: Bytes, protocol: Bytes, transport: Bytes, keys: seq<Bytes>, values: seq<Bytes>)
    returns (full: nat, protocolOffset: nat, local: nat)
    requires w.room >= -1 && w.out == [] && |keys| == |values|
    modifies w
    ensures w.room >= -1
    ensures var fits := LabelFits(name) && Service(protocol, transport) && PairsFit(keys, values, |keys|);
            Adds(fits, [], old(w.room), w.out, w.room, Front(name, protocol, transport, keys, values))
    ensures w.room >= 0 ==>
              && full == FULL_NAME && protocolOffset == ProtocolOffset(name)
              && local == LocalOffset(name, protocol, transport)
  {
    ghost var r0 := w.room;
    w.AddHeader();
    full := |w.out|;
    ghost var o1, r1 := w.out, w.room;
    w.AddLabel(name);
    protocolOffset := |w.out|;
    ghost var o2, r2 := w.out, w.room;
    AddsBoth(true, LabelFits(name), [], r0, o1, r1, o2, r2, RESPONSE_HEADER, LabelOr(name));
    local := w.AddTxtHead(protocol, transport);
    ghost var o3, r3 := w.out, w.room;
    AddsBoth(LabelFits(name), Service(protocol, transport), [], r0, o2, r2, o3, r3, RESPONSE_HEADER + LabelOr(name),
        TxtHeadOr(protocol, transport));
    w.AddTxtData(keys, values);
    ghost var head := RESPONSE_HEADER + LabelOr(name) + TxtHeadOr(protocol, transport);
    AddsBoth(LabelFits(name) && Service(protocol, transport), PairsFit(keys, values, |keys|), [], r0, o3, r3, w.out,
        w.room, head, Counted(PairsOr(keys, values, |keys|)));
  }

  /** The PTR and SRV records. */
  method PrepareBack(w: Writer, full: nat, protocolOffset: nat, local: nat, name: Bytes, port: nat,
      ghost protocol: Bytes, ghost transport: Bytes)
    requires w.room >= -1 && (w.room >= 0 ==> LabelFits(name))
    requires w.room >= 0 ==>
               && full == FULL_NAME && protocolOffset == ProtocolOffset(name)
               && local == LocalOffset(name, protocol, transport)
    modifies w
    ensures w.room >= -1
    ensures if old(w.room) >= 0
            then Adds(true, old(w.out), old(w.room), w.out, w.room, Back(name, protocol, transport, port))
            else w.room == -1
  {
    ghost var o1, r1 := w.out, w.room;
    w.AddPtr(full, protocolOffset);
    ghost var o2, r2 := w.out, w.room;
    w.AddSrv(full, name, port, local);
    if r1 >= 0 {
      AddsBoth(true, true, o1, r1, o2, r2, w.out, w.room, PtrRecord(name),
          SRV_HEAD + Counted(SrvData(name, protocol, transport, port)));
    }
  }

  /** prepare_response: the packet, unless a label is too long or it does not fit. */
  method PrepareResponse(size: nat, name: Bytes, protocol: Bytes, transport: Bytes, port: nat, keys: seq<Bytes>,
      values: seq<Bytes>)
    returns (packet: Option<Bytes>)
    requires |keys| == |values| && port < 0x1_0000
    ensures packet == if && Sendable(name, protocol, transport, keys, values)
                         && |Response(name, protocol, transport, port, keys, values)| <= size
                      then Some(Response(name, protocol, transport, port, keys, values)) else None
  {
    var w := new Writer(size);
    var full, protocolOffset, local := PrepareFront(w, name, protocol, transport, keys, values);
    ghost var front := Front(name, protocol, transport, keys, values);
    assert [] + front == front;
    PrepareBack(w, full, protocolOffset, local, name, port, protocol, transport);
    ResponseParts(name, protocol, transport, port, keys, values);
    packet := if w.room < 0 then None else Some(w.out);
  }

  // ----- reading

  lemma PrefixBoth(a: Bytes, b: Bytes, t: Bytes)
    ensures a + b <= a + t <==> b <= t
    ensures b <= t ==> (a + t)[|a + b|..] == t[|b|..]
  {
    if a + b <= a + t {
      assert forall i :: 0 <= i < |b| ==> b[i] == (a + b)[|a| + i] == (a + t)[|a| + i] == t[i];
    }
    if b <= t {
      assert t == b + t[|b|..];
      assert a + t == a + b + t[|b|..];
    }
  }

  lemma CheckBoth(s: Rest, a: Bytes, b: Bytes)
    ensures Check(Check(s, a), b) == Check(s, a + b)
  {
    if s.Some? && a <= s.value {
      assert s.value == a + s.value[|a|..];
      PrefixBoth(a, b, s.value[|a|..]);
    }
  }

  class Reader {
    const data: Bytes
    var at: nat
    var len: int

    ghost predicate Valid()
      reads this
    {
      len >= -1 && at <= |data| && (len >= 0 ==> at + len == |data|)
    }

    ghost function Remaining(): Rest
      requires Valid()
      reads this
    {
      if len < 0 then None else Some(data[at..])
    }

    constructor (data: Bytes)
      ensures Valid() && Remaining() == Some(data) && this.data == data && at == 0
    {
      this.data := data;
      at, len := 0, |data|;
    }

    method CheckBytes(b: Bytes)
      requires Valid()
      modifies this
      ensures Valid() && Remaining() == Check(old(Remaining()), b) && at >= old(at)
              && (len >= 0 ==> at == old(at) + |b|)
    {
      assert len >= |b| ==> data[at..][..|b|] == data[at..at + |b|] && data[at..][|b|..] == data[at + |b|..];
      if len >= |b| && data[at..at + |b|] == b {
        at, len := at + |b|, len - |b|;
      } else {
        len := -1;
      }
    }

    method CheckTwo(a: Bytes, b: Bytes)
      requires Valid()
      modifies this
      ensures Valid() && Remaining() == Check(old(Remaining()), a + b) && at >= old(at)
              && (len >= 0 ==> at == old(at) + |a + b|)
    {
      CheckBoth(Remaining(), a, b);
      CheckBytes(a);
      CheckBytes(b);
    }

    method CheckFour(a: Bytes, b: Bytes, c: Bytes, d: Bytes)
      requires Valid()
      modifies this
      ensures Valid() && Remaining() == Check(old(Remaining()), a + b + c + d)
              && (len >= 0 ==> at == old(at) + |a + b + c + d|)
    {
      CheckBoth(Remaining(), a + b, c);
      CheckBoth(Remaining(), a + b + c, d);
      CheckTwo(a, b);
      CheckBytes(c);
      CheckBytes(d);
    }

    method GetBytes(n: nat) returns (b: Bytes)
      requires Valid()
      modifies this
      ensures Valid() && (b, Remaining()) == Take(old(Remaining()), n) && at >= old(at)
              && (len >= 0 ==> at == old(at) + n && old(len) >= 0)
    {
      if len >= n {
        assert data[at..][..n] == data[at..at + n] && data[at..][n..] == data[at + n..];
        b := data[at..at + n];
        at, len := at + n, len - n;
      } else {
        b := [];
        len := -1;
      }
    }

    method ReadLabel() returns (l: Bytes)
      requires Valid()
      modifies this
      ensures Valid() && (l, Remaining()) == GetLabel(old(Remaining())) && at >= old(at)
              && (len >= 0 ==> at == old(at) + 1 + |l|)
    {
      if len < 1 {
        len := -1;
        return [];
      }
      var n := data[at];
      assert data[at..][1..] == data[at + 1..];
      at, len := at + 1, len - 1;
      l := GetBytes(n);
    }

    /** Compare the length found at position p with the number of bytes read since. */
    method LenEnd(p: nat, count: Bytes, ghost s: Rest)
      requires Valid() && (len >= 0 ==>
                 s.Some? && p + 2 <= at && |s.value| == |data| - p - 2 && count == data[p..p + 2])
      modifies this
      ensures Valid() && at == old(at)
      ensures old(Remaining()).Some? ==> s.Some? && |old(Remaining()).value| <= |s.value|
      ensures Remaining() == CheckLength(s, old(Remaining()), count)
    {
      if len < 0 { return; }
      if count != Be16(at - p - 2) { len := -1; }
    }

    method ReadPair(key: Bytes) returns (raw: Bytes)
      requires Valid()
      modifies this
      ensures Valid() && at >= old(at) && (raw, Remaining()) == ScanOne(old(Remaining()), key)
    {
      raw := ReadLabel();
      if len >= 0 && ValueOf(raw, key).None? { len := -1; }
    }

    method ReadPairs(keys: seq<Bytes>) returns (labels: seq<Bytes>)
      requires Valid()
      modifies this
      ensures Valid() && at >= old(at) && Remaining() == GetPairs(old(Remaining()), keys).1
      ensures len >= 0 ==> labels == GetPairs(old(Remaining()), keys).0
    {
      labels := [];
      var i := 0;
      ghost var s := Remaining();
      while i < |keys|
        invariant 0 <= i <= |keys| && Valid() && at >= old(at)
        invariant Scan(labels, Remaining(), keys, i) == Scan([], s, keys, 0)
      {
        var raw := ReadPair(keys[i]);
        labels := labels + [raw];
        i := i + 1;
      }
      ScanPairs([], s, keys, 0);
      assert keys[0..] == keys;
    }

    method CheckUlabel(s: Bytes)
      requires Valid()
      modifies this
      ensures Valid() && Remaining() == (if |s| + 1 < 256 then Check(old(Remaining()), Ulabel(s)) else None)
      ensures len >= 0 ==> at == old(at) + |s| + 2
    {
      if |s| + 1 < 256 {
        assert [|s| + 1, 0x5f] + s == [|s| + 1] + [0x5f] + s;
        CheckBoth(Remaining(), [|s| + 1] + [0x5f], s);
        CheckTwo([|s| + 1], [0x5f]);
        CheckBytes(s);
      } else {
        len := -1;
      }
    }

    /** The service and the fixed fields of the TXT record. */
    method CheckTxtHead(protocol: Bytes, transport: Bytes) returns (local: nat)
      requires Valid()
      modifies this
      ensures Valid() && Remaining() ==
              (if Service(protocol, transport) then Check(old(Remaining()), TxtHead(protocol, transport)) else None)
      ensures len >= 0 ==> local == old(at) + |protocol| + 2 + |transport| + 2
    {
      ghost var s := Remaining();
      CheckUlabel(protocol);
      CheckUlabel(transport);
      local := at;
      ghost var t := Remaining();
      CheckTwo(LOCAL, Be16(0x10));
      CheckTwo(Be16(0x1), Be32(3600));
      CheckBoth(t, LOCAL + Be16(0x10), Be16(0x1) + Be32(3600));
      assert LOCAL + Be16(0x10) + (Be16(0x1) + Be32(3600)) == LOCAL + TXT_IN;
      if Service(protocol, transport) {
        CheckBoth(s, Ulabel(protocol), Ulabel(transport));
        CheckBoth(s, Ulabel(protocol) + Ulabel(transport), LOCAL + TXT_IN);
        assert Ulabel(protocol) + Ulabel(transport) + (LOCAL + TXT_IN) == TxtHead(protocol, transport);
      }
    }

    method CheckHeader()
      requires Valid()
      modifies this
      ensures Valid() && Remaining() == Check(old(Remaining()), RESPONSE_HEADER) && (len >= 0 ==> at == old(at) + 12)
    {
      CheckBoth(Remaining(), Be16(0) + Be16(0x8400) + Be16(0) + Be16(3), Be16(0) + Be16(0));
      assert Be16(0) + Be16(0x8400) + Be16(0) + Be16(3) + (Be16(0) + Be16(0)) == RESPONSE_HEADER;
      CheckFour(Be16(0), Be16(0x8400), Be16(0), Be16(3));
      CheckTwo(Be16(0), Be16(0));
    }

    method ReadTxt(protocol: Bytes, transport: Bytes, keys: seq<Bytes>) returns (labels: seq<Bytes>, local: nat)
      requires Valid()
      modifies this
      ensures Valid() && Remaining() == ParseTxt(old(Remaining()), protocol, transport, keys).1
      ensures len >= 0 ==> labels == ParseTxt(old(Remaining()), protocol, transport, keys).0
      ensures len >= 0 ==> local == old(at) + |protocol| + 2 + |transport| + 2
    {
      local := CheckTxtHead(protocol, transport);
      var p := at;
      var count := GetBytes(2);
      ghost var t := Remaining();
      labels := ReadPairs(keys);
      LenEnd(p, count, t);
    }

    method CheckPtr(full: nat, protocolOffset: nat)
      requires Valid()
      modifies this
      ensures Valid() && Remaining() == Check(old(Remaining()),
                Pointer(protocolOffset) + Be16(0xc) + Be16(0x8001) + Be32(3600) + Counted(Pointer(full)))
    {
      ghost var s := Remaining();
      CheckFour(Pointer(protocolOffset), Be16(0xc), Be16(0x8001), Be32(3600));
      ghost var r := Remaining();
      var p := at;
      var count := GetBytes(2);
      ghost var t := Remaining();
      CheckBytes(Pointer(full));
      LenEnd(p, count, t);
      CheckCounted(r, Pointer(full));
      CheckBoth(s, Pointer(protocolOffset) + Be16(0xc) + Be16(0x8001) + Be32(3600), Counted(Pointer(full)));
    }

    /** The name and the pointer at the end of the SRV record. */
    method CheckTarget(name: Bytes, local: nat)
      requires Valid()
      modifies this
      ensures Valid() && at >= old(at)
              && Remaining() == (if LabelFits(name)
              then Check(old(Remaining()), Label(name) + Pointer(local)) else None)
    {
      if |name| < 256 {
        CheckBoth(Remaining(), Label(name), Pointer(local));
        CheckTwo([|name|], name);
        CheckBytes(Pointer(local));
      } else {
        len := -1;
      }
    }

    method ReadSrv(full: nat, raw: Bytes, local: nat, ghost protocol: Bytes, ghost transport: Bytes) returns (port: nat)
      requires Valid() && full == FULL_NAME && local == LocalOffset(raw, protocol, transport)
      modifies this
      ensures Valid() && Remaining() == ParseSrv(old(Remaining()), raw, protocol, transport).1
      ensures len >= 0 ==> port == ParseSrv(old(Remaining()), raw, protocol, transport).0
    {
      CheckFour(Pointer(full), Be16(0x21), Be16(0x8001), Be32(120));
      var p := at;
      var count := GetBytes(2);
      ghost var t := Remaining();
      CheckTwo(Be16(0), Be16(0));
      var word := GetBytes(2);
      port := if len >= 0 then Word(word) else 0;
      CheckTarget(UpToNul(raw), local);
      LenEnd(p, count, t);
    }
  }

  /** Reading a length and comparing it afterwards is checking the counted bytes. */
  lemma CheckCounted(r: Rest, b: Bytes)
    requires |b| < 0x1_0000
    ensures var (count, t) := Take(r, 2); var u := Check(t, b);
            (u.Some? ==> t.Some? && |u.value| <= |t.value|) && CheckLength(t, u, count) == Check(r, Counted(b))
  {
    if r.Some? && |r.value| >= 2 {
      assert r.value == r.value[..2] + r.value[2..];
      CheckBoth(r, Be16(|b|), b);
      assert Be16(|b|) <= r.value <==> r.value[..2] == Be16(|b|);
    }
  }

  function ScanOne(s: Rest, key: Bytes): (Bytes, Rest) {
    var (raw, t) := GetLabel(s);
    (raw, if t.Some? && ValueOf(raw, key).None? then None else t)
  }

  /** The loop over the keys, which goes on after an error. */
  function Scan(labels: seq<Bytes>, s: Rest, keys: seq<Bytes>, i: nat): (seq<Bytes>, Rest)
    requires i <= |keys|
    decreases |keys| - i
  {
    if i == |keys| then (labels, s) else Scan(labels + [ScanOne(s, keys[i]).0], ScanOne(s, keys[i]).1, keys, i + 1)
  }

  lemma {:induction false} ScanNone(labels: seq<Bytes>, keys: seq<Bytes>, i: nat)
    requires i <= |keys|
    ensures Scan(labels, None, keys, i).1 == None
    decreases |keys| - i
  {
    if i < |keys| { ScanNone(labels + [[]], keys, i + 1); }
  }

  lemma PairsOne(s: Rest, keys: seq<Bytes>)
    requires keys != []
    ensures var (raw, t) := ScanOne(s, keys[0]); var (more, u) := GetPairs(t, keys[1..]);
            if t.None? || u.None? then GetPairs(s, keys).1 == None else GetPairs(s, keys) == ([raw] + more, u)
  {
  }

  /** A loop that stopped reading at the first error would find the same. */
  ghost predicate Agrees(labels: seq<Bytes>, scanned: (seq<Bytes>, Rest), got: (seq<Bytes>, Rest)) {
    scanned.1 == got.1 && (got.1.Some? ==> scanned.0 == labels + got.0)
  }

  lemma AgreesMore(labels: seq<Bytes>, raw: Bytes, scanned: (seq<Bytes>, Rest), got: (seq<Bytes>, Rest))
    requires Agrees(labels + [raw], scanned, got)
    ensures Agrees(labels, scanned, ([raw] + got.0, got.1))
  {
    assert labels + [raw] + got.0 == labels + ([raw] + got.0);
  }

  lemma {:induction false} ScanPairs(labels: seq<Bytes>, s: Rest, keys: seq<Bytes>, i: nat)
    requires i <= |keys|
    ensures Agrees(labels, Scan(labels, s, keys, i), GetPairs(s, keys[i..]))
    decreases |keys| - i
  {
    if i == |keys| {
      assert labels + [] == labels;
    } else {
      var (raw, t) := ScanOne(s, keys[i]);
      assert keys[i..][1..] == keys[i + 1..];
      PairsOne(s, keys[i..]);
      if t.None? {
        ScanNone(labels + [raw], keys, i + 1);
      } else {
        ScanPairs(labels + [raw], t, keys, i + 1);
        AgreesMore(labels, raw, Scan(labels + [raw], t, keys, i + 1), GetPairs(t, keys[i + 1..]));
      }
    }
  }

  /** The header and the TXT record. */
  method ParseFront(r: Reader, protocol: Bytes, transport: Bytes, keys: seq<Bytes>)
    returns (full: nat, name: Bytes, protocolOffset: nat, labels: seq<Bytes>, local: nat)
    requires r.Valid() && r.at == 0
    modifies r
    ensures r.Valid()
    ensures var (n, s) := GetLabel(Check(old(r.Remaining()), RESPONSE_HEADER));
            var (l, t) := ParseTxt(s, protocol, transport, keys);
            && r.Remaining() == t
            && (t.Some? ==> && name == n && labels == l && full == FULL_NAME && protocolOffset == ProtocolOffset(n)
                            && local == LocalOffset(n, protocol, transport))
  {
    full, name, protocolOffset, labels, local := 0, [], 0, [], 0;
    r.CheckHeader();
    if r.len == -1 { return; }
    full := r.at;
    name := r.ReadLabel();
    protocolOffset := r.at;
    labels, local := r.ReadTxt(protocol, transport, keys);
  }

  /** parse_response: the name, port and labels found, if the whole packet is as expected. */
  method ParseResponse(data: Bytes, protocol: Bytes, transport: Bytes, keys: seq<Bytes>) returns (found: Option<Found>)
    ensures found == Parse(data, protocol, transport, keys)
  {
    var r := new Reader(data);
    NothingFound(data, protocol, transport, keys);
    var full, name, protocolOffset, labels, local := ParseFront(r, protocol, transport, keys);
    if r.len == -1 { return None; }
    r.CheckPtr(full, protocolOffset);
    if r.len == -1 { return None; }
    var port := r.ReadSrv(full, name, local, protocol, transport);
    found := if r.len == 0 then Some(Found(name, port, labels)) else None;
  }

  /** An error in one part of the packet is an error in all that follows. */
  lemma NothingFound(b: Bytes, protocol: Bytes, transport: Bytes, keys: seq<Bytes>)
    ensures var s := Check(Some(b), RESPONSE_HEADER);
            var (name, t) := GetLabel(s);
            var u := ParseTxt(t, protocol, transport, keys).1;
            && (s.None? ==> t.None?) && (t.None? ==> u.None?)
            && (u.None? || Check(u, PtrRecord(name)).None? ==> Parse(b, protocol, transport, keys).None?)
  {
  }
}
