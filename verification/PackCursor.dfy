/** The packmsg cursors: input and output buffers with a remaining length that is -1 after an error. */
module PackCursor {
  import opened Wrappers
  import opened PackMsg

  /** packmsg_input_t: the next byte is data[at]; the remaining length is -1 once invalid. */
  class Input {
    const data: Bytes
    var at: nat
    var len: int

    ghost predicate Valid()
      reads this
    {
      len >= -1 && at <= |data| && (len >= 0 ==> at + len == |data|)
    }

    ghost function Remaining(): Rest
      requires Valid()
      reads this
    {
      if len < 0 then None else Some(data[at..])
    }

    constructor (data: Bytes)
      ensures Valid() && Remaining() == Some(data) && this.data == data
    {
      this.data := data;
      at, len := 0, |data|;
    }

    method Invalidate()
      requires Valid()
      modifies this
      ensures Valid() && Remaining() == None
    {
      len := -1;
    }

    method ReadHdr() returns (hdr: byte)
      requires Valid()
      modifies this
      ensures Valid() && (hdr, Remaining()) == Header(old(Remaining()))
    {
      if len > 0 {
        hdr := data[at];
        at, len := at + 1, len - 1;
      } else {
        Invalidate();
        hdr := 0xc1;
      }
    }

    method ReadData(n: nat) returns (b: Bytes)
      requires Valid()
      modifies this
      ensures Valid() && (b, Remaining()) == Data(old(Remaining()), n)
    {
      if len >= 0 && len % 0x1_0000_0000 >= n {
        Remainder(len);
        assert data[at..][..n] == data[at..at + n] && data[at..][n..] == data[at + n..];
        b := data[at..at + n];
        at, len := at + n, len - n;
      } else {
        Invalidate();
        b := [];
      }
    }

    method ReadNumber(n: nat) returns (v: nat)
      requires Valid()
      modifies this
      ensures Valid() && (v, Remaining()) == Number(old(Remaining()), n)
    {
      var b := ReadData(n);
      v := Unlittle(b);
    }

    method PeekHdr() returns (hdr: byte)
      requires Valid()
      ensures hdr == Peek(Remaining())
    {
      hdr := if len > 0 then data[at] else 0xc1;
    }

    /** packmsg_get_uint8, 16, 32 and 64. */
    method GetUint(w: nat) returns (v: int)
      requires Valid() && Width(w)
      modifies this
      ensures Valid() && (v, Remaining()) == PackMsg.GetUint(old(Remaining()), w)
    {
      var hdr := ReadHdr();
      if hdr < 0x80 {
        v := hdr;
      } else if hdr == 0xcc {
        v := ReadHdr();
      } else if hdr == 0xcd && w >= 2 {
        v := ReadNumber(2);
      } else if hdr == 0xce && w >= 4 {
        v := ReadNumber(4);
      } else if hdr == 0xcf && w >= 8 {
        v := ReadNumber(8);
      } else {
        Invalidate();
        v := 0;
      }
    }

    /** packmsg_get_int8, 16, 32 and 64. */
    method GetInt(w: nat) returns (v: int)
      requires Valid() && Width(w)
      modifies this
      ensures Valid() && (v, Remaining()) == PackMsg.GetInt(old(Remaining()), w)
    {
      var hdr := ReadHdr();
      if hdr < 0x80 || hdr >= 0xe0 {
        v := Signed(hdr, 1);
      } else if hdr == 0xd0 {
        hdr := ReadHdr();
        v := Signed(hdr, 1);
      } else if hdr == 0xd1 && w >= 2 {
        v := ReadNumber(2);
        v := Signed(v, 2);
      } else if hdr == 0xd2 && w >= 4 {
        v := ReadNumber(4);
        v := Signed(v, 4);
      } else if hdr == 0xd3 && w >= 8 {
        v := ReadNumber(8);
        v := Signed(v, 8);
      } else {
        Invalidate();
        v := 0;
      }
    }

    method GetBool() returns (v: bool)
      requires Valid()
      modifies this
      ensures Valid() && (v, Remaining()) == PackMsg.GetBool(old(Remaining()))
    {
      var hdr := ReadHdr();
      v := hdr == 0xc3;
      if hdr != 0xc2 && hdr != 0xc3 { Invalidate(); }
    }

    method GetStr() returns (b: Bytes)
      requires Valid()
      modifies this
      ensures Valid() && (b, Remaining()) == PackMsg.GetStr(old(Remaining()))
    {
      var hdr := ReadHdr();
      var n := 0;
      if 0xa0 <= hdr < 0xc0 {
        n := hdr - 0xa0;
      } else if hdr == 0xd9 {
        n := ReadNumber(1);
      } else if hdr == 0xda {
        n := ReadNumber(2);
      } else if hdr == 0xdb {
        n := ReadNumber(4);
      } else {
        Invalidate();
        return [];
      }
      b := ReadData(n);
    }

    method GetBin() returns (b: Bytes)
      requires Valid()
      modifies this
      ensures Valid() && (b, Remaining()) == PackMsg.GetBin(old(Remaining()))
    {
      var hdr := ReadHdr();
      var n := 0;
      if hdr == 0xc4 {
        n := ReadNumber(1);
      } else if hdr == 0xc5 {
        n := ReadNumber(2);
      } else if hdr == 0xc6 {
        n := ReadNumber(4);
      } else {
        Invalidate();
        return [];
      }
      b := ReadData(n);
    }

    method GetExt() returns (tag: int, b: Bytes)
      requires Valid()
      modifies this
      ensures Valid() && (tag, b, Remaining()) == PackMsg.GetExt(old(Remaining()))
    {
      var hdr := ReadHdr();
      var n := 0;
      if hdr == 0xc7 {
        n := ReadNumber(1);
      } else if hdr == 0xc8 {
        n := ReadNumber(2);
      } else if hdr == 0xc9 {
        n := ReadNumber(4);
      } else if 0xd4 <= hdr <= 0xd8 {
        n := if hdr == 0xd4 then 1
             else if hdr == 0xd5 then 2 else if hdr == 0xd6 then 4 else if hdr == 0xd7 then 8 else 16;
      } else {
        Invalidate();
        return 0, [];
      }
      var t := ReadHdr();
      tag := Signed(t, 1);
      b := ReadData(n);
      if len < 0 { return 0, []; }
    }

    method GetMap() returns (n: nat)
      requires Valid()
      modifies this
      ensures Valid() && (n, Remaining()) == PackMsg.GetMap(old(Remaining()))
    {
      var hdr := ReadHdr();
      if 0x80 <= hdr < 0x90 {
        n := hdr - 0x80;
      } else if hdr == 0xde {
        n := ReadNumber(2);
      } else if hdr == 0xdf {
        n := ReadNumber(4);
      } else {
        Invalidate();
        n := 0;
      }
    }

    method GetArray() returns (n: nat)
      requires Valid()
      modifies this
      ensures Valid() && (n, Remaining()) == PackMsg.GetArray(old(Remaining()))
    {
      var hdr := ReadHdr();
      if 0x90 <= hdr < 0xa0 {
        n := hdr - 0x90;
      } else if hdr == 0xdc {
        n := ReadNumber(2);
      } else if hdr == 0xdd {
        n := ReadNumber(4);
      } else {
        Invalidate();
        n := 0;
      }
    }

    method SkipElement()
      requires Valid()
      modifies this
      ensures Valid() && Remaining() == PackMsg.SkipElement(old(Remaining()))
    {
      var hdr := ReadHdr();
      var skip := SkipBy(hdr);
      var n := 0;
      if skip < 0 {
        n := ReadNumber(-skip);
        if 0xc7 <= hdr <= 0xc9 { n := Next32(n); }
      } else {
        n := skip;
      }
      var b := ReadData(n);
    }

    /** The elements of an array, one by one. */
    method SkipArray(n: nat, ghost size: nat)
      requires Valid() && Size(Remaining()) < size
      modifies this
      ensures Valid() && Remaining() == SkipObjects(old(Remaining()), n)
      decreases size, 0
    {
      ghost var s := Remaining();
      var count := n;
      while count > 0 && len >= 0
        invariant Valid() && 0 <= count <= n && Size(Remaining()) < size
                  && SkipObjects(Remaining(), count) == SkipObjects(s, n)
        decreases count
      {
        SkipObject(size - 1);
        count := count - 1;
      }
    }

    /** The entries of a map, a key and a value at a time. */
    method SkipMap(n: nat, ghost size: nat)
      requires Valid() && Size(Remaining()) < size
      modifies this
      ensures Valid() && Remaining() == SkipObjects(old(Remaining()), 2 * n)
      decreases size, 0
    {
      ghost var s := Remaining();
      var count := n;
      while count > 0 && len >= 0
        invariant Valid() && 0 <= count <= n && Size(Remaining()) < size
                  && SkipObjects(Remaining(), 2 * count) == SkipObjects(s, 2 * n)
        decreases count
      {
        SkipTwo(Remaining(), 2 * (count - 1));
        SkipObject(size - 1);
        SkipObject(size - 1);
        count := count - 1;
      }
    }

    method SkipObject(ghost size: nat)
      requires Valid() && Size(Remaining()) <= size
      modifies this
      ensures Valid() && Remaining() == PackMsg.SkipObject(old(Remaining()))
              && Size(Remaining()) <= old(Size(Remaining()))
      decreases size, 1
    {
      var hdr := PeekHdr();
      if IsArray(hdr) {
        var count := GetArray();
        SkipArray(count, size);
      } else if IsMap(hdr) {
        var count := GetMap();
        SkipMap(count, size);
      } else {
        SkipElement();
      }
    }
  }

  /** Adding the bytes e: they fit and follow what was written, or the cursor is invalid. */
  ghost predicate Wrote(bytes: Bytes, room: int, bytes': Bytes, room': int, e: Bytes) {
    if room >= |e| then bytes' == bytes + e && room' == room - |e| else room' == -1
  }

  lemma WroteBoth(b0: Bytes, r0: int, b1: Bytes, r1: int, b2: Bytes, r2: int, d: Bytes, e: Bytes)
    requires r0 >= -1 && Wrote(b0, r0, b1, r1, d) && Wrote(b1, r1, b2, r2, e)
    ensures Wrote(b0, r0, b2, r2, d + e)
  {
    assert b0 + d + e == b0 + (d + e);
  }

  /** packmsg_output_t: what was written, and the room left. */
  class Output {
    var bytes: Bytes
    var room: int

    /** In a buffer of less than 2^32 bytes the comparisons in 32 bits are exact. */
    ghost predicate Valid()
      reads this
    {
      -1 <= room < 0x1_0000_0000
    }

    constructor (size: nat)
      ensures bytes == [] && room == size && (size < 0x1_0000_0000 ==> Valid())
    {
      bytes, room := [], size;
    }

    method Invalidate()
      modifies this
      ensures Valid() && room == -1 && bytes == old(bytes)
    {
      room := -1;
    }

    method WriteHdr(hdr: byte)
      requires room >= -1
      modifies this
      ensures Wrote(old(bytes), old(room), bytes, room, [hdr]) && (old(Valid()) ==> Valid())
    {
      if room > 0 {
        bytes, room := bytes + [hdr], room - 1;
      } else {
        Invalidate();
      }
    }

    method WriteData(data: Bytes)
      requires room >= -1
      modifies this
      ensures if old(room) >= 0 && old(room) % 0x1_0000_0000 >= |data|
              then bytes == old(bytes) + data && room == old(room) - |data|
              else room == -1 && bytes == old(bytes)
      ensures old(Valid()) ==> Valid() && Wrote(old(bytes), old(room), bytes, room, data)
    {
      if room >= 0 && room % 0x1_0000_0000 >= |data| {
        bytes, room := bytes + data, room - |data|;
      } else {
        Invalidate();
      }
    }

    method WriteHdrData(hdr: byte, data: Bytes)
      requires room >= -1
      modifies this
      ensures if old(room) > 0 && old(room) % 0x1_0000_0000 > |data|
              then bytes == old(bytes) + ([hdr] + data) && room == old(room) - 1 - |data|
              else room == -1 && bytes == old(bytes)
      ensures old(Valid()) ==> Valid() && Wrote(old(bytes), old(room), bytes, room, [hdr] + data)
    {
      if room > 0 && room % 0x1_0000_0000 > |data| {
        bytes, room := bytes + ([hdr] + data), room - 1 - |data|;
      } else {
        Invalidate();
      }
    }

    method AddBool(v: bool)
      requires Valid()
      modifies this
      ensures Valid() && Wrote(old(bytes), old(room), bytes, room, Encode(Bool(v)))
    {
      WriteHdr(if v then 0xc3 else 0xc2);
    }

    /** packmsg_add_uint8, 16, 32 and 64. */
    method AddUint(v: nat, w: nat)
      requires Valid() && Width(w) && v < Power(w)
      modifies this
      ensures Valid() && Wrote(old(bytes), old(room), bytes, room, EncodeUint(v))
    {
      Powers();
      if w >= 8 && v >= 0x1_0000_0000 {
        WriteHdrData(0xcf, Little(v, 8));
      } else if w >= 4 && v >= 0x1_0000 {
        WriteHdrData(0xce, Little(v, 4));
      } else if w >= 2 && v >= 0x100 {
        WriteHdrData(0xcd, Little(v, 2));
      } else if v >= 0x80 {
        WriteHdrData(0xcc, Little(v, 1));
      } else {
        WriteHdr(v);
      }
    }

    /** packmsg_add_int8, 16, 32 and 64. */
    method AddInt(v: int, w: nat)
      requires Valid() && Width(w) && IntFits(v, w) && IntFits(v, 8)
      modifies this
      ensures Valid() && Wrote(old(bytes), old(room), bytes, room, EncodeInt(v))
    {
      Powers();
      if w >= 8 && !IntFits(v, 4) {
        WriteHdrData(0xd3, Little(Complement(v, 8), 8));
      } else if w >= 4 && !IntFits(v, 2) {
        WriteHdrData(0xd2, Little(Complement(v, 4), 4));
      } else if w >= 2 && !IntFits(v, 1) {
        WriteHdrData(0xd1, Little(Complement(v, 2), 2));
      } else if v < -32 {
        WriteHdrData(0xd0, Little(Complement(v, 1), 1));
      } else {
        WriteHdr(Complement(v, 1));
      }
    }

    method AddStr(s: Bytes)
      requires Valid()
      modifies this
      ensures Valid() && (|s| < 0x1_0000_0000 ==> Wrote(old(bytes), old(room), bytes, room, StrHeader(|s|) + s))
      ensures |s| >= 0x1_0000_0000 ==> room == -1
    {
      if |s| >= 0x1_0000_0000 {
        Invalidate();
        return;
      }
      ghost var b, r := bytes, room;
      if |s| < 32 {
        WriteHdr(0xa0 + |s|);
      } else if |s| <= 0xff {
        WriteHdrData(0xd9, Little(|s|, 1));
      } else if |s| <= 0xffff {
        WriteHdrData(0xda, Little(|s|, 2));
      } else {
        WriteHdrData(0xdb, Little(|s|, 4));
      }
      ghost var b1, r1 := bytes, room;
      WriteData(s);
      WroteBoth(b, r, b1, r1, bytes, room, StrHeader(|s|), s);
    }

    method AddBin(s: Bytes)
      requires Valid() && |s| < 0x1_0000_0000
      modifies this
      ensures Valid() && Wrote(old(bytes), old(room), bytes, room, BinHeader(|s|) + s)
    {
      ghost var b, r := bytes, room;
      if |s| <= 0xff {
        WriteHdrData(0xc4, Little(|s|, 1));
      } else if |s| <= 0xffff {
        WriteHdrData(0xc5, Little(|s|, 2));
      } else {
        WriteHdrData(0xc6, Little(|s|, 4));
      }
      ghost var b1, r1 := bytes, room;
      WriteData(s);
      WroteBoth(b, r, b1, r1, bytes, room, BinHeader(|s|), s);
    }

    /** The type of an extension whose length is stored. */
    method AddCountedExt(hdr: byte, width: nat, t: byte, n: nat)
      requires Valid()
      modifies this
      ensures Valid() && Wrote(old(bytes), old(room), bytes, room, [hdr] + Little(n, width) + [t])
    {
      ghost var b, r := bytes, room;
      WriteHdrData(hdr, Little(n, width));
      ghost var b1, r1 := bytes, room;
      WriteData([t]);
      WroteBoth(b, r, b1, r1, bytes, room, [hdr] + Little(n, width), [t]);
    }

    method AddExt(tag: int, s: Bytes)
      requires Valid() && IntFits(tag, 1) && |s| < 0x1_0000_0000
      modifies this
      ensures Valid() && Wrote(old(bytes), old(room), bytes, room, ExtHeader(tag, |s|) + s)
    {
      Powers();
      ghost var b, r := bytes, room;
      var t: byte := Complement(tag, 1);
      if |s| == 16 {
        WriteHdrData(0xd8, [t]);
      } else if |s| == 8 {
        WriteHdrData(0xd7, [t]);
      } else if |s| == 4 {
        WriteHdrData(0xd6, [t]);
      } else if |s| == 2 {
        WriteHdrData(0xd5, [t]);
      } else if |s| == 1 {
        WriteHdrData(0xd4, [t]);
      } else if |s| <= 0xff {
        AddCountedExt(0xc7, 1, t, |s|);
      } else if |s| <= 0xffff {
        AddCountedExt(0xc8, 2, t, |s|);
      } else {
        AddCountedExt(0xc9, 4, t, |s|);
      }
      ghost var b1, r1 := bytes, room;
      assert Wrote(b, r, b1, r1, ExtHeader(tag, |s|));
      WriteData(s);
      WroteBoth(b, r, b1, r1, bytes, room, ExtHeader(tag, |s|), s);
    }

    method AddMap(n: nat)
      requires Valid() && n < 0x1_0000_0000
      modifies this
      ensures Valid() && Wrote(old(bytes), old(room), bytes, room, MapHeader(n))
    {
      if n <= 0xf {
        WriteHdr(0x80 + n);
      } else if n <= 0xffff {
        WriteHdrData(0xde, Little(n, 2));
      } else {
        WriteHdrData(0xdf, Little(n, 4));
      }
    }

    method AddArray(n: nat)
      requires Valid() && n < 0x1_0000_0000
      modifies this
      ensures Valid() && Wrote(old(bytes), old(room), bytes, room, ArrayHeader(n))
    {
      if n <= 0xf {
        WriteHdr(0x90 + n);
      } else if n <= 0xffff {
        WriteHdrData(0xdc, Little(n, 2));
      } else {
        WriteHdrData(0xdd, Little(n, 4));
      }
    }
  }

  lemma SkipTwo(s: Rest, n: nat)
    requires s.Some?
    ensures SkipObjects(s, n + 2) == SkipObjects(PackMsg.SkipObject(PackMsg.SkipObject(s)), n)
  {
    var t := PackMsg.SkipObject(s);
    assert SkipObjects(s, n + 2) == SkipObjects(t, n + 1);
  }

  lemma Remainder(n: nat)
    ensures n % 0x1_0000_0000 <= n
  {
  }
}
