/**
 * packmsg: little-endian MessagePack, written and read through cursors that become invalid at the first
 * error and stay invalid.
 */
module PackMsg {
  import opened Wrappers

  type Bytes = seq<byte>

  // ----- numbers as bytes

  function Power(n: nat): nat { if n == 0 then 1 else 256 * Power(n - 1) }

  lemma Powers()
    ensures Power(1) == 0x100 && Power(2) == 0x1_0000 && Power(4) == 0x1_0000_0000
            && Power(8) == 0x1_0000_0000_0000_0000
  {
    assert Power(3) == 256 * Power(2);
    assert Power(5) == 256 * Power(4);
    assert Power(6) == 256 * Power(5);
    assert Power(7) == 256 * Power(6);
  }

  /** The n lowest bytes of v, lowest first. */
  function Little(v: nat, n: nat): (b: Bytes)
    ensures |b| == n
  {
    if n == 0 then [] else [v % 256] + Little(v / 256, n - 1)
  }

  function Unlittle(b: Bytes): nat {
    if b == [] then 0 else b[0] + 256 * Unlittle(b[1..])
  }

  lemma {:induction false} LittleUnlittle(v: nat, n: nat)
    requires v < Power(n)
    ensures Unlittle(Little(v, n)) == v
  {
    if n > 0 {
      LittleUnlittle(v / 256, n - 1);
      assert Little(v, n)[1..] == Little(v / 256, n - 1);
    }
  }

  /** Numbers of every width are written lowest byte first. */
  lemma {:induction false} LittleBytes(v: nat)
    ensures Little(v, 1) == [v % 256] && Little(v, 2) == [v % 256, v / 0x100 % 256]
    ensures Little(v, 4) == [v % 256, v / 0x100 % 256] + [v / 0x1_0000 % 256, v / 0x100_0000 % 256]
    ensures Little(v, 8) == Little(v, 4) + Little(v / 0x1_0000_0000, 4)
  {
    LittleTwo(v);
    LittleFour(v);
    LittleMore(v, 4, 4);
  }

  lemma {:induction false} LittleFour(v: nat)
    ensures Little(v, 4) == [v % 256, v / 0x100 % 256] + [v / 0x1_0000 % 256, v / 0x100_0000 % 256]
  {
    LittleTwo(v);
    var b := v / 0x1_0000;
    LittleTwo(b);
    LittleMore(v, 2, 2);
    assert b / 0x100 == v / 0x100_0000;
  }

  lemma {:induction false} LittleTwo(v: nat)
    ensures Little(v, 1) == [v % 256] && Little(v, 2) == [v % 256, v / 0x100 % 256]
  {
    assert Little(v, 1) == [v % 256] + Little(v / 256, 0);
    assert Little(v, 2) == [v % 256] + Little(v / 256, 1);
    assert Little(v / 256, 1) == [v / 256 % 256] + Little(v / 256 / 256, 0);
  }

  lemma {:induction false} LittleMore(v: nat, n: nat, m: nat)
    requires n == 2 || n == 4
    ensures Little(v, n + m) == Little(v, n) + Little(v / (if n == 2 then 0x1_0000 else 0x1_0000_0000), m)
  {
    var a, b := v / 256, v / 256 / 256;
    assert Little(v, n) == [v % 256] + ([a % 256] + Little(b, n - 2));
    assert Little(v, n + m) == [v % 256] + ([a % 256] + Little(b, n - 2 + m));
    if n == 4 {
      LittleMore(b, 2, m);
      assert b / 0x1_0000 == v / 0x1_0000_0000;
    } else {
      assert b == v / 0x1_0000;
    }
  }

  /** Two's complement in n bytes. */
  function Complement(v: int, n: nat): nat
    requires -(Power(n) as int) <= v
  {
    if v < 0 then v + Power(n) else v
  }

  function Signed(u: nat, n: nat): int { if 2 * u >= Power(n) then u - Power(n) else u }

  // ----- encodings

  predicate Width(w: nat) { w == 1 || w == 2 || w == 4 || w == 8 }

  function EncodeUint(v: nat): Bytes {
    if v < 0x80 then [v]
    else if v < 0x100 then [0xcc] + Little(v, 1)
    else if v < 0x1_0000 then [0xcd] + Little(v, 2)
    else if v < 0x1_0000_0000 then [0xce] + Little(v, 4)
    else [0xcf] + Little(v, 8)
  }

  predicate IntFits(v: int, w: nat)
    requires Width(w)
  {
    match w
    case 1 => -0x80 <= v < 0x80
    case 2 => -0x8000 <= v < 0x8000
    case 4 => -0x8000_0000 <= v < 0x8000_0000
    case _ => -0x8000_0000_0000_0000 <= v < 0x8000_0000_0000_0000
  }

  function EncodeInt(v: int): Bytes
    requires IntFits(v, 8)
  {
    Powers();
    if IntFits(v, 1) then (if v >= -32 then [Complement(v, 1)] else [0xd0] + Little(Complement(v, 1), 1))
    else if IntFits(v, 2) then [0xd1] + Little(Complement(v, 2), 2)
    else if IntFits(v, 4) then [0xd2] + Little(Complement(v, 4), 4)
    else [0xd3] + Little(Complement(v, 8), 8)
  }

  function StrHeader(n: nat): Bytes {
    if n < 32 then [0xa0 + n]
    else if n <= 0xff then [0xd9] + Little(n, 1)
    else if n <= 0xffff then [0xda] + Little(n, 2)
    else [0xdb] + Little(n, 4)
  }

  function BinHeader(n: nat): Bytes {
    if n <= 0xff then [0xc4] + Little(n, 1)
    else if n <= 0xffff then [0xc5] + Little(n, 2)
    else [0xc6] + Little(n, 4)
  }

  function ExtHeader(tag: int, n: nat): Bytes
    requires IntFits(tag, 1)
  {
    Powers();
    var t := [Complement(tag, 1)];
    if n == 16 then [0xd8] + t
    else if n == 8 then [0xd7] + t
    else if n == 4 then [0xd6] + t
    else if n == 2 then [0xd5] + t
    else if n == 1 then [0xd4] + t
    else if n <= 0xff then [0xc7] + Little(n, 1) + t
    else if n <= 0xffff then [0xc8] + Little(n, 2) + t
    else [0xc9] + Little(n, 4) + t
  }

  function MapHeader(n: nat): Bytes {
    if n <= 0xf then [0x80 + n] else if n <= 0xffff then [0xde] + Little(n, 2) else [0xdf] + Little(n, 4)
  }

  function ArrayHeader(n: nat): Bytes {
    if n <= 0xf then [0x90 + n] else if n <= 0xffff then [0xdc] + Little(n, 2) else [0xdd] + Little(n, 4)
  }

  /** A nested value; the entries of a map are its keys and values in turn. */
  datatype Value =
    | Nil | Bool(b: bool) | Uint(n: nat) | Int(i: int) | Float(bits: Bytes) | Double(bits: Bytes)
    | Str(s: Bytes) | Bin(s: Bytes) | Ext(tag: int, s: Bytes) | Arr(items: seq<Value>) | Map(items: seq<Value>)

  predicate Packable(v: Value) {
    match v
    case Nil => true
    case Bool(_) => true
    case Uint(n) => n < 0x1_0000_0000_0000_0000
    case Int(i) => IntFits(i, 8)
    case Float(bits) => |bits| == 4
    case Double(bits) => |bits| == 8
    case Str(s) => |s| < 0x1_0000_0000
    case Bin(s) => |s| < 0x1_0000_0000
    case Ext(tag, s) => IntFits(tag, 1) && |s| < 0x1_0000_0000
    case Arr(items) => |items| < 0x1_0000_0000 && forall i :: 0 <= i < |items| ==> Packable(items[i])
    case Map(items) => |items| % 2 == 0 && |items| / 2 < 0x1_0000_0000 && forall i :: 0 <= i < |items| ==>
          Packable(items[i])
  }

  function Encode(v: Value): (b: Bytes)
    requires Packable(v)
    ensures |b| > 0
  {
    match v
    case Nil => [0xc0]
    case Bool(b) => [if b then 0xc3 else 0xc2]
    case Uint(n) => EncodeUint(n)
    case Int(i) => EncodeInt(i)
    case Float(bits) => [0xca] + bits
    case Double(bits) => [0xcb] + bits
    case Str(s) => StrHeader(|s|) + s
    case Bin(s) => BinHeader(|s|) + s
    case Ext(tag, s) => ExtHeader(tag, |s|) + s
    case Arr(items) => ArrayHeader(|items|) + EncodeAll(items)
    case Map(items) => MapHeader(|items| / 2) + EncodeAll(items)
  }

  function EncodeAll(items: seq<Value>): Bytes
    requires forall i :: 0 <= i < |items| ==> Packable(items[i])
  {
    if items == [] then [] else Encode(items[0]) + EncodeAll(items[1..])
  }

  // ----- reading, as functions of the bytes that remain; None once invalid

  type Rest = Option<Bytes>

  /** The comparison in the source truncates the remaining length to 32 bits. */
  predicate Has(b: Bytes, n: nat) { |b| % 0x1_0000_0000 >= n }

  function Header(s: Rest): (r: (byte, Rest)) {
    if s.Some? && s.value != [] then (s.value[0], Some(s.value[1..])) else (0xc1, None)
  }

  function Peek(s: Rest): byte { if s.Some? && s.value != [] then s.value[0] else 0xc1 }

  /** The next n bytes, or nothing. */
  function Data(s: Rest, n: nat): (r: (Bytes, Rest))
    ensures r.1.Some? ==> s.Some? && s.value == r.0 + r.1.value && |r.0| == n
  {
    if s.Some? && Has(s.value, n) then (s.value[..n], Some(s.value[n..])) else ([], None)
  }

  /** A number of n bytes; 0 when they are not there. */
  function Number(s: Rest, n: nat): (r: (nat, Rest)) { (Unlittle(Data(s, n).0), Data(s, n).1) }

  function GetUint(s: Rest, w: nat): (r: (int, Rest))
    requires Width(w)
  {
    var (h, t) := Header(s);
    if h < 0x80 then (h as int, t)
    else if h == 0xcc then (Header(t).0 as int, Header(t).1)
    else if h == 0xcd && w >= 2 then (Number(t, 2).0, Number(t, 2).1)
    else if h == 0xce && w >= 4 then (Number(t, 4).0, Number(t, 4).1)
    else if h == 0xcf && w >= 8 then (Number(t, 8).0, Number(t, 8).1)
    else (0, None)
  }

  function GetInt(s: Rest, w: nat): (r: (int, Rest))
    requires Width(w)
  {
    var (h, t) := Header(s);
    if h < 0x80 || h >= 0xe0 then (Signed(h, 1), t)
    else if h == 0xd0 then (Signed(Header(t).0, 1), Header(t).1)
    else if h == 0xd1 && w >= 2 then (Signed(Number(t, 2).0, 2), Number(t, 2).1)
    else if h == 0xd2 && w >= 4 then (Signed(Number(t, 4).0, 4), Number(t, 4).1)
    else if h == 0xd3 && w >= 8 then (Signed(Number(t, 8).0, 8), Number(t, 8).1)
    else (0, None)
  }

  lemma UintRoundTrip(v: nat, w: nat, rest: Bytes)
    requires Width(w) && v < Power(w) && |EncodeUint(v) + rest| < 0x1_0000_0000
    ensures GetUint(Some(EncodeUint(v) + rest), w) == (v, Some(rest))
  {
    Powers();
    var b := EncodeUint(v) + rest;
    assert b[1..] == EncodeUint(v)[1..] + rest;
    if v >= 0x80 {
      var n := if v < 0x100 then 1 else if v < 0x1_0000 then 2 else if v < 0x1_0000_0000 then 4 else 8;
      LittleUnlittle(v, n);
      assert b[1..] == Little(v, n) + rest;
      assert b[1..][..n] == Little(v, n) && b[1..][n..] == rest;
    }
  }

  /** A reading that fails gives 0, except for an unsigned integer cut off just after its header. */
  lemma TruncatedUint(s: Rest, w: nat)
    requires Width(w) && GetUint(s, w).1.None?
    ensures GetUint(s, w).0 == if s == Some([0xcc]) then 0xc1 else 0
  {
    if s.Some? && s.value != [] && s.value[0] == 0xcc && |s.value| == 1 { assert s.value == [0xcc]; }
  }

  /** The same for a signed integer, where the byte that stands for a missing one is negative. */
  lemma TruncatedInt(s: Rest, w: nat)
    requires Width(w) && GetInt(s, w).1.None?
    ensures GetInt(s, w).0 == if s == Some([0xd0]) then -63 else 0
  {
    Powers();
    if s.Some? && s.value != [] && s.value[0] == 0xd0 && |s.value| == 1 { assert s.value == [0xd0]; }
  }

  function GetBool(s: Rest): (r: (bool, Rest)) {
    var (h, t) := Header(s);
    if h == 0xc2 then (false, t) else if h == 0xc3 then (true, t) else (false, None)
  }

  /** The length of a string, and what follows it. */
  function StrLength(s: Rest): (r: (nat, Rest)) {
    var (h, t) := Header(s);
    if 0xa0 <= h < 0xc0 then (h - 0xa0, t)
    else if h == 0xd9 then Number(t, 1)
    else if h == 0xda then Number(t, 2)
    else if h == 0xdb then Number(t, 4)
    else (0, None)
  }

  function GetStr(s: Rest): (r: (Bytes, Rest)) { Data(StrLength(s).1, StrLength(s).0) }

  function BinLength(s: Rest): (r: (nat, Rest)) {
    var (h, t) := Header(s);
    if h == 0xc4 then Number(t, 1)
    else if h == 0xc5 then Number(t, 2)
    else if h == 0xc6 then Number(t, 4)
    else (0, None)
  }

  function GetBin(s: Rest): (r: (Bytes, Rest)) { Data(BinLength(s).1, BinLength(s).0) }

  function ExtLength(s: Rest): (r: (nat, Rest)) {
    var (h, t) := Header(s);
    if h == 0xc7 then Number(t, 1)
    else if h == 0xc8 then Number(t, 2)
    else if h == 0xc9 then Number(t, 4)
    else if h == 0xd4 then (1, t)
    else if h == 0xd5 then (2, t)
    else if h == 0xd6 then (4, t)
    else if h == 0xd7 then (8, t)
    else if h == 0xd8 then (16, t)
    else (0, None)
  }

  /** The type of an extension and its data; both empty on an error. */
  function GetExt(s: Rest): (r: (int, Bytes, Rest)) {
    var (n, t) := ExtLength(s);
    var (tag, u) := Header(t);
    var (b, x) := Data(u, n);
    if x.Some? then (Signed(tag, 1), b, x) else (0, [], None)
  }

  function GetMap(s: Rest): (r: (nat, Rest)) {
    var (h, t) := Header(s);
    if 0x80 <= h < 0x90 then (h - 0x80, t)
    else if h == 0xde then Number(t, 2)
    else if h == 0xdf then Number(t, 4)
    else (0, None)
  }

  function GetArray(s: Rest): (r: (nat, Rest)) {
    var (h, t) := Header(s);
    if 0x90 <= h < 0xa0 then (h - 0x90, t)
    else if h == 0xdc then Number(t, 2)
    else if h == 0xdd then Number(t, 4)
    else (0, None)
  }

  // ----- types and sizes

  /** The formats of MessagePack. A small positive number may be read as signed or unsigned. */
  datatype Format =
    | PositiveFix | NegativeFix | UintFormat | IntFormat | NilFormat | NeverUsed | BoolFormat | StrFormat | BinFormat
    | ExtFormat | FloatFormat | DoubleFormat | ArrayFormat | MapFormat

  function FormatOf(h: byte): Format {
    if h <= 0x7f then PositiveFix
    else if h <= 0x8f then MapFormat
    else if h <= 0x9f then ArrayFormat
    else if h <= 0xbf then StrFormat
    else if h == 0xc0 then NilFormat
    else if h == 0xc1 then NeverUsed
    else if h <= 0xc3 then BoolFormat
    else if h <= 0xc6 then BinFormat
    else if h <= 0xc9 then ExtFormat
    else if h == 0xca then FloatFormat
    else if h == 0xcb then DoubleFormat
    else if h <= 0xcf then UintFormat
    else if h <= 0xd3 then IntFormat
    else if h <= 0xd8 then ExtFormat
    else if h <= 0xdb then StrFormat
    else if h <= 0xdd then ArrayFormat
    else if h <= 0xdf then MapFormat
    else NegativeFix
  }

  /** A value that is not a number of the right kind is refused. */
  lemma NumbersChecked(s: Rest, w: nat)
    requires Width(w)
    ensures GetUint(s, w).1.Some? ==> FormatOf(Peek(s)) in {PositiveFix, UintFormat}
    ensures GetInt(s, w).1.Some? ==> FormatOf(Peek(s)) in {PositiveFix, NegativeFix, IntFormat}
  {
  }

  /** So is a value of another type than a string, a list and so on. */
  lemma FormatsChecked(s: Rest)
    ensures GetBool(s).1.Some? ==> FormatOf(Peek(s)) == BoolFormat && (GetBool(s).0 <==> Peek(s) == 0xc3)
    ensures GetStr(s).1.Some? ==> FormatOf(Peek(s)) == StrFormat
    ensures GetBin(s).1.Some? ==> FormatOf(Peek(s)) == BinFormat
    ensures GetExt(s).2.Some? ==> FormatOf(Peek(s)) == ExtFormat
    ensures GetMap(s).1.Some? ==> FormatOf(Peek(s)) == MapFormat
    ensures GetArray(s).1.Some? ==> FormatOf(Peek(s)) == ArrayFormat
  {
  }

  /** Every value is written under a header of its format. */
  lemma {:induction false} EncodeTyped(v: Value)
    requires Packable(v)
    ensures var f := FormatOf(Encode(v)[0]);
            match v {
              case Nil => f == NilFormat
              case Bool(b) => f == BoolFormat && Encode(v) == [if b then 0xc3 else 0xc2]
              case Uint(_) => f in {PositiveFix, UintFormat}
              case Int(_) => f in {PositiveFix, NegativeFix, IntFormat}
              case Float(_) => f == FloatFormat
              case Double(_) => f == DoubleFormat
              case Str(_) => f == StrFormat
              case Bin(_) => f == BinFormat
              case Ext(_, _) => f == ExtFormat
              case Arr(_) => f == ArrayFormat
              case Map(_) => f == MapFormat
            }
  {
    Powers();
  }

  /** Lengths and numbers are written in as few bytes as their format allows. */
  lemma Shortest(n: nat)
    ensures |StrHeader(n)| == (if n < 32 then 1 else if n < 0x100 then 2 else if n < 0x1_0000 then 3 else 5)
    ensures |BinHeader(n)| == (if n < 0x100 then 2 else if n < 0x1_0000 then 3 else 5)
    ensures |MapHeader(n)| == |ArrayHeader(n)| == (if n < 16 then 1 else if n < 0x1_0000 then 3 else 5)
    ensures |ExtHeader(0, n)| == (if n in {1, 2, 4, 8, 16} then 2 else if n < 0x100 then 3
                                  else if n < 0x1_0000 then 4 else 6)
    ensures |EncodeUint(n)| == (if n < 0x80 then 1 else if n < 0x100 then 2 else if n < 0x1_0000 then 3
                                else if n < 0x1_0000_0000 then 5 else 9)
  {
  }

  lemma ShortestInt(v: int)
    requires IntFits(v, 8)
    ensures |EncodeInt(v)| == (if -32 <= v < 0x80 then 1 else if -0x80 <= v < 0x80 then 2
                               else if -0x8000 <= v < 0x8000 then 3
                               else if -0x8000_0000 <= v < 0x8000_0000 then 5 else 9)
  {
    Powers();
  }

  lemma HeaderRead(h: byte, rest: Bytes)
    ensures Header(Some([h] + rest)) == (h, Some(rest))
  {
    assert ([h] + rest)[1..] == rest;
  }

  lemma DataRead(b: Bytes, rest: Bytes)
    requires |b + rest| < 0x1_0000_0000
    ensures Data(Some(b + rest), |b|) == (b, Some(rest))
  {
    assert (b + rest)[..|b|] == b && (b + rest)[|b|..] == rest;
    assert |b + rest| % 0x1_0000_0000 == |b + rest|;
  }

  /** Reading back n bytes of a number that follow a header. */
  lemma {:induction false} NumberRead(h: byte, v: nat, n: nat, rest: Bytes)
    requires v < Power(n) && n + |rest| + 1 < 0x1_0000_0000
    ensures var s := Some([h] + Little(v, n) + rest);
            Header(s) == (h, Some(Little(v, n) + rest)) && Number(Header(s).1, n) == (v, Some(rest))
  {
    assert [h] + Little(v, n) + rest == [h] + (Little(v, n) + rest);
    HeaderRead(h, Little(v, n) + rest);
    DataRead(Little(v, n), rest);
    LittleUnlittle(v, n);
  }

  lemma SignedComplement(v: int, n: nat)
    requires Width(n) && IntFits(v, n)
    ensures -(Power(n) as int) <= v && Complement(v, n) < Power(n) && Signed(Complement(v, n), n) == v
  {
    Powers();
  }

  /** How many bytes follow the header of an integer. */
  function IntWidth(v: int): nat {
    if IntFits(v, 1) then (if v >= -32 then 0 else 1) else if IntFits(v, 2) then 2 else if IntFits(v, 4) then 4 else 8
  }

  lemma IntWide(v: int, w: nat, rest: Bytes)
    requires Width(w) && IntFits(v, w) && IntFits(v, 8) && IntWidth(v) > 1 && |EncodeInt(v) + rest| < 0x1_0000_0000
    ensures GetInt(Some(EncodeInt(v) + rest), w) == (v, Some(rest))
  {
    var n := IntWidth(v);
    SignedComplement(v, n);
    assert n <= w;
    NumberRead(EncodeInt(v)[0], Complement(v, n), n, rest);
  }

  lemma IntRoundTrip(v: int, w: nat, rest: Bytes)
    requires Width(w) && IntFits(v, w) && IntFits(v, 8) && |EncodeInt(v) + rest| < 0x1_0000_0000
    ensures GetInt(Some(EncodeInt(v) + rest), w) == (v, Some(rest))
  {
    if IntWidth(v) > 1 {
      IntWide(v, w, rest);
    } else {
      Powers();
      var c := Complement(v, 1);
      SignedComplement(v, 1);
      if v >= -32 {
        HeaderRead(c, rest);
      } else {
        assert Little(c, 1) == [c];
        assert EncodeInt(v) + rest == [0xd0] + ([c] + rest);
        HeaderRead(0xd0, [c] + rest);
        HeaderRead(c, rest);
      }
    }
  }

  lemma StrRoundTrip(b: Bytes, rest: Bytes)
    requires |StrHeader(|b|) + b + rest| < 0x1_0000_0000
    ensures StrLength(Some(StrHeader(|b|) + b + rest)) == (|b|, Some(b + rest))
    ensures GetStr(Some(StrHeader(|b|) + b + rest)) == (b, Some(rest))
  {
    Powers();
    var n, hdr := |b|, StrHeader(|b|);
    assert hdr + b + rest == hdr + (b + rest);
    if n < 32 { HeaderRead(hdr[0], b + rest); } else { NumberRead(hdr[0], n, |hdr| - 1, b + rest); }
    DataRead(b, rest);
  }

  lemma BinRoundTrip(b: Bytes, rest: Bytes)
    requires |BinHeader(|b|) + b + rest| < 0x1_0000_0000
    ensures BinLength(Some(BinHeader(|b|) + b + rest)) == (|b|, Some(b + rest))
    ensures GetBin(Some(BinHeader(|b|) + b + rest)) == (b, Some(rest))
  {
    Powers();
    var n, hdr := |b|, BinHeader(|b|);
    assert hdr + b + rest == hdr + (b + rest);
    NumberRead(hdr[0], n, |hdr| - 1, b + rest);
    DataRead(b, rest);
  }

  lemma ExtHeaderRead(tag: int, n: nat, rest: Bytes)
    requires IntFits(tag, 1) && n < 0x1_0000_0000 && |ExtHeader(tag, n) + rest| < 0x1_0000_0000
    ensures -(Power(1) as int) <= tag && Complement(tag, 1) < 0x100
    ensures ExtLength(Some(ExtHeader(tag, n) + rest)) == (n, Some([Complement(tag, 1)] + rest))
  {
    Powers();
    var hdr, t := ExtHeader(tag, n), [Complement(tag, 1)];
    if n == 1 || n == 2 || n == 4 || n == 8 || n == 16 {
      assert hdr + rest == [hdr[0]] + (t + rest);
      HeaderRead(hdr[0], t + rest);
    } else {
      assert hdr + rest == [hdr[0]] + Little(n, |hdr| - 2) + (t + rest);
      NumberRead(hdr[0], n, |hdr| - 2, t + rest);
    }
  }

  lemma ExtRoundTrip(tag: int, b: Bytes, rest: Bytes)
    requires IntFits(tag, 1) && |ExtHeader(tag, |b|) + b + rest| < 0x1_0000_0000
    ensures GetExt(Some(ExtHeader(tag, |b|) + b + rest)) == (tag, b, Some(rest))
  {
    ExtHeaderRead(tag, |b|, b + rest);
    assert ExtHeader(tag, |b|) + b + rest == ExtHeader(tag, |b|) + (b + rest);
    HeaderRead(Complement(tag, 1), b + rest);
    SignedComplement(tag, 1);
    DataRead(b, rest);
  }

  /** Reading n bytes back, however many follow. */
  lemma {:induction false} NumberReads(h: byte, v: nat, n: nat, rest: Bytes)
    requires v < Power(n)
    ensures var s := Header(Some([h] + Little(v, n) + rest));
            s.0 == h && Number(s.1, n).1 == (if Has(Little(v, n) + rest, n) then Some(rest) else None)
    ensures Has(Little(v, n) + rest, n) ==> Number(Header(Some([h] + Little(v, n) + rest)).1, n) == (v, Some(rest))
  {
    assert [h] + Little(v, n) + rest == [h] + (Little(v, n) + rest);
    HeaderRead(h, Little(v, n) + rest);
    assert (Little(v, n) + rest)[..n] == Little(v, n) && (Little(v, n) + rest)[n..] == rest;
    LittleUnlittle(v, n);
  }

  /**
   * The 32-bit comparison loses a string exactly when the bytes from its length or from its contents on seem too few.
   */
  lemma StrExactly(b: Bytes, rest: Bytes)
    requires |b| < 0x1_0000_0000
    ensures var hdr := StrHeader(|b|);
            GetStr(Some(hdr + b + rest)) == (b, Some(rest)) <==>
                  Has(hdr[1..] + (b + rest), |hdr| - 1) && Has(b + rest, |b|)
  {
    Powers();
    var n, hdr := |b|, StrHeader(|b|);
    assert hdr + b + rest == hdr + (b + rest);
    assert (b + rest)[..n] == b && (b + rest)[n..] == rest;
    if n < 32 { HeaderRead(hdr[0], b + rest); } else { NumberReads(hdr[0], n, |hdr| - 1, b + rest); }
  }

  lemma BinExactly(b: Bytes, rest: Bytes)
    requires |b| < 0x1_0000_0000
    ensures var hdr := BinHeader(|b|);
            GetBin(Some(hdr + b + rest)) == (b, Some(rest)) <==>
                  Has(hdr[1..] + (b + rest), |hdr| - 1) && Has(b + rest, |b|)
  {
    Powers();
    var n, hdr := |b|, BinHeader(|b|);
    assert hdr + b + rest == hdr + (b + rest);
    assert (b + rest)[..n] == b && (b + rest)[n..] == rest;
    NumberReads(hdr[0], n, |hdr| - 1, b + rest);
  }

  /** A string of one byte in a buffer of 4 GiB is not read back. */
  lemma StrFails()
    ensures exists b: Bytes, rest: Bytes :: |b| == 1 && GetStr(Some(StrHeader(|b|) + b + rest)) != (b, Some(rest))
  {
    var b: Bytes := [7];
    var rest: Bytes := seq(0xffff_ffff, _ => 0);
    assert |b + rest| == 0x1_0000_0000;
    StrExactly(b, rest);
    assert !Has(b + rest, |b|);
  }

  lemma MapRoundTrip(n: nat, rest: Bytes)
    requires n < 0x1_0000_0000 && |MapHeader(n) + rest| < 0x1_0000_0000
    ensures GetMap(Some(MapHeader(n) + rest)) == (n, Some(rest))
  {
    Powers();
    var hdr := MapHeader(n);
    if n <= 0xf { HeaderRead(hdr[0], rest); } else { NumberRead(hdr[0], n, |hdr| - 1, rest); }
  }

  lemma ArrayRoundTrip(n: nat, rest: Bytes)
    requires n < 0x1_0000_0000 && |ArrayHeader(n) + rest| < 0x1_0000_0000
    ensures GetArray(Some(ArrayHeader(n) + rest)) == (n, Some(rest))
  {
    Powers();
    var hdr := ArrayHeader(n);
    if n <= 0xf { HeaderRead(hdr[0], rest); } else { NumberRead(hdr[0], n, |hdr| - 1, rest); }
  }

  // ----- skipping

  /** How many bytes follow a header; a negative number of bytes says how many. */
  function SkipBy(h: byte): int {
    if h < 0xa0 then 0
    else if h < 0xc0 then h - 0xa0
    else if h < 0xc4 then 0
    else if h == 0xc4 || h == 0xc7 || h == 0xd9 then -1
    else if h == 0xc5 || h == 0xc8 || h == 0xda then -2
    else if h == 0xc6 || h == 0xc9 || h == 0xdb then -4
    else if h == 0xcc || h == 0xd0 then 1
    else if h == 0xcd || h == 0xd1 || h == 0xd4 || h == 0xdc || h == 0xde then 2
    else if h == 0xd5 then 3
    else if h == 0xca || h == 0xce || h == 0xd2 || h == 0xdd || h == 0xdf then 4
    else if h == 0xd6 then 5
    else if h == 0xcb || h == 0xcf || h == 0xd3 then 8
    else if h == 0xd7 then 9
    else if h == 0xd8 then 17
    else 0
  }

  /** A 32-bit increment. */
  function Next32(n: nat): nat { if n == 0xffff_ffff then 0 else n + 1 }

  function SkipElement(s: Rest): (r: Rest)
    ensures r.Some? ==> s.Some? && |r.value| < |s.value|
  {
    var (h, t) := Header(s);
    var k := SkipBy(h);
    if k >= 0 then Data(t, k).1
    else
      var (n, u) := Number(t, -k);
      Data(u, if 0xc7 <= h <= 0xc9 then Next32(n) else n).1
  }

  predicate IsArray(h: byte) { 0x90 <= h < 0xa0 || h == 0xdc || h == 0xdd }

  predicate IsMap(h: byte) { 0x80 <= h < 0x90 || h == 0xde || h == 0xdf }

  function Size(s: Rest): nat { if s.Some? then |s.value| else 0 }

  function SkipObject(s: Rest): (r: Rest)
    ensures r.Some? ==> s.Some? && |r.value| < |s.value|
    decreases Size(s), 0, 0
  {
    if IsArray(Peek(s)) then SkipObjects(GetArray(s).1, GetArray(s).0)
    else if IsMap(Peek(s)) then SkipObjects(GetMap(s).1, 2 * GetMap(s).0)
    else SkipElement(s)
  }

  function SkipObjects(s: Rest, n: nat): (r: Rest)
    ensures r.Some? ==> s.Some? && |r.value| <= |s.value|
    decreases Size(s), 1, n
  {
    if n == 0 || s.None? then s else SkipObjects(SkipObject(s), n - 1)
  }

  lemma SkipFixed(h: byte, b: Bytes, rest: Bytes)
    requires |b + rest| + 1 < 0x1_0000_0000 && SkipBy(h) == |b|
    ensures SkipElement(Some([h] + b + rest)) == Some(rest)
  {
    assert [h] + b + rest == [h] + (b + rest);
    HeaderRead(h, b + rest);
    DataRead(b, rest);
  }

  lemma SkipCounted(h: byte, n: nat, k: nat, b: Bytes, rest: Bytes)
    requires SkipBy(h) == -(k as int) && k > 0 && n < Power(k) && 1 + k + |b + rest| < 0x1_0000_0000
    requires |b| == if 0xc7 <= h <= 0xc9 then n + 1 else n
    ensures SkipElement(Some([h] + Little(n, k) + b + rest)) == Some(rest)
  {
    var s := Some([h] + Little(n, k) + (b + rest));
    assert [h] + Little(n, k) + b + rest == s.value;
    NumberRead(h, n, k, b + rest);
    DataRead(b, rest);
    assert SkipElement(s) == Data(Some(b + rest), |b|).1;
  }

  // ----- skipping what was encoded

  ghost predicate Short(b: Bytes) { |b| < 0x1_0000_0000 }

  lemma SkipUint(n: nat, rest: Bytes)
    requires n < 0x1_0000_0000_0000_0000 && Short(EncodeUint(n) + rest)
    ensures SkipObject(Some(EncodeUint(n) + rest)) == Some(rest)
  {
    var e := EncodeUint(n);
    assert e == [e[0]] + e[1..];
    SkipFixed(e[0], e[1..], rest);
  }

  lemma SkipInt(v: int, rest: Bytes)
    requires IntFits(v, 8) && Short(EncodeInt(v) + rest)
    ensures SkipObject(Some(EncodeInt(v) + rest)) == Some(rest)
  {
    Powers();
    var e := EncodeInt(v);
    assert e == [e[0]] + e[1..];
    SkipFixed(e[0], e[1..], rest);
  }

  lemma SkipStr(b: Bytes, rest: Bytes)
    requires Short(StrHeader(|b|) + b + rest)
    ensures SkipObject(Some(StrHeader(|b|) + b + rest)) == Some(rest)
  {
    Powers();
    var e := StrHeader(|b|);
    if |b| < 32 { SkipFixed(e[0], b, rest); } else { SkipCounted(e[0], |b|, |e| - 1, b, rest); }
  }

  lemma SkipBin(b: Bytes, rest: Bytes)
    requires Short(BinHeader(|b|) + b + rest)
    ensures SkipObject(Some(BinHeader(|b|) + b + rest)) == Some(rest)
  {
    Powers();
    var e := BinHeader(|b|);
    SkipCounted(e[0], |b|, |e| - 1, b, rest);
  }

  lemma SkipShortExt(tag: int, b: Bytes, rest: Bytes)
    requires IntFits(tag, 1) && Short(ExtHeader(tag, |b|) + b + rest)
             && (|b| == 1 || |b| == 2 || |b| == 4 || |b| == 8 || |b| == 16)
    ensures SkipObject(Some(ExtHeader(tag, |b|) + b + rest)) == Some(rest)
  {
    Powers();
    var e, t := ExtHeader(tag, |b|), [Complement(tag, 1)];
    assert e + b + rest == [e[0]] + (t + b) + rest;
    SkipFixed(e[0], t + b, rest);
  }

  lemma {:induction false} SkipExt(tag: int, b: Bytes, rest: Bytes)
    requires IntFits(tag, 1) && Short(ExtHeader(tag, |b|) + b + rest)
    ensures SkipObject(Some(ExtHeader(tag, |b|) + b + rest)) == Some(rest)
  {
    Powers();
    var e, n, t := ExtHeader(tag, |b|), |b|, [Complement(tag, 1)];
    if n == 1 || n == 2 || n == 4 || n == 8 || n == 16 {
      SkipShortExt(tag, b, rest);
    } else {
      assert e + b + rest == [e[0]] + Little(n, |e| - 2) + (t + b) + rest;
      SkipCounted(e[0], n, |e| - 2, t + b, rest);
    }
  }

  lemma SkipArr(n: nat, rest: Bytes)
    requires n < 0x1_0000_0000 && Short(ArrayHeader(n) + rest)
    ensures SkipObject(Some(ArrayHeader(n) + rest)) == SkipObjects(Some(rest), n)
  {
    ArrayRoundTrip(n, rest);
  }

  lemma SkipMap(n: nat, rest: Bytes)
    requires n < 0x1_0000_0000 && Short(MapHeader(n) + rest)
    ensures SkipObject(Some(MapHeader(n) + rest)) == SkipObjects(Some(rest), 2 * n)
  {
    MapRoundTrip(n, rest);
  }

  /** A value without parts. */
  lemma {:induction false} SkipScalar(v: Value, rest: Bytes)
    requires Packable(v) && Short(Encode(v) + rest) && !v.Arr? && !v.Map?
    ensures SkipObject(Some(Encode(v) + rest)) == Some(rest)
  {
    match v
    case Nil => SkipFixed(0xc0, [], rest);
    case Bool(b) => SkipFixed(if b then 0xc3 else 0xc2, [], rest);
    case Uint(n) => SkipUint(n, rest);
    case Int(i) => SkipInt(i, rest);
    case Float(bits) => SkipFixed(0xca, bits, rest);
    case Double(bits) => SkipFixed(0xcb, bits, rest);
    case Str(s) => SkipStr(s, rest);
    case Bin(s) => SkipBin(s, rest);
    case Ext(tag, s) => SkipExt(tag, s, rest);
  }

  /** An array or a map, when its parts are skipped as they should. */
  lemma {:induction false} SkipArray(items: seq<Value>, rest: Bytes)
    requires Packable(Arr(items)) && Short(Encode(Arr(items)) + rest)
    requires SkipObjects(Some(EncodeAll(items) + rest), |items|) == Some(rest)
    ensures SkipObject(Some(Encode(Arr(items)) + rest)) == Some(rest)
  {
    assert Encode(Arr(items)) + rest == ArrayHeader(|items|) + (EncodeAll(items) + rest);
    SkipArr(|items|, EncodeAll(items) + rest);
  }

  lemma {:induction false} SkipEntries(items: seq<Value>, rest: Bytes)
    requires Packable(Map(items)) && Short(Encode(Map(items)) + rest)
    requires SkipObjects(Some(EncodeAll(items) + rest), |items|) == Some(rest)
    ensures SkipObject(Some(Encode(Map(items)) + rest)) == Some(rest)
  {
    assert Encode(Map(items)) + rest == MapHeader(|items| / 2) + (EncodeAll(items) + rest);
    SkipMap(|items| / 2, EncodeAll(items) + rest);
  }

  /** Skipping an object on the encoding of any value stops exactly at its end. */
  lemma {:induction false} SkipEncoded(v: Value, rest: Bytes)
    requires Packable(v) && Short(Encode(v) + rest)
    ensures SkipObject(Some(Encode(v) + rest)) == Some(rest)
    decreases v, 0
  {
    match v
    case Arr(items) =>
      SkipAllEncoded(items, rest);
      SkipArray(items, rest);
    case Map(items) =>
      SkipAllEncoded(items, rest);
      SkipEntries(items, rest);
    case _ => SkipScalar(v, rest);
  }

  lemma {:induction false} SkipAllEncoded(items: seq<Value>, rest: Bytes)
    requires forall i :: 0 <= i < |items| ==> Packable(items[i])
    requires Short(EncodeAll(items) + rest)
    ensures SkipObjects(Some(EncodeAll(items) + rest), |items|) == Some(rest)
    decreases items, 1
  {
    if items == [] {
      assert EncodeAll(items) + rest == rest;
    } else {
      var more := EncodeAll(items[1..]) + rest;
      assert EncodeAll(items) + rest == Encode(items[0]) + more;
      SkipEncoded(items[0], more);
      SkipAllEncoded(items[1..], rest);
    }
  }

  // ----- skipping arbitrary bytes

  /** What a step leaves of the bytes is a tail of them; an invalid cursor stays invalid. */
  ghost predicate Tail(t: Rest, s: Rest) {
    t.Some? ==> s.Some? && |t.value| <= |s.value| && t.value == s.value[|s.value| - |t.value|..]
  }

  lemma TailTrans(u: Rest, t: Rest, s: Rest)
    requires Tail(u, t) && Tail(t, s)
    ensures Tail(u, s)
  {
    if u.Some? {
      var k, l := |s.value| - |t.value|, |t.value| - |u.value|;
      assert s.value[k..][l..] == s.value[k + l..];
    }
  }

  lemma HeaderTail(s: Rest)
    ensures Tail(Header(s).1, s)
  {
  }

  lemma DataTail(s: Rest, n: nat)
    ensures Tail(Data(s, n).1, s)
  {
  }

  lemma SkipElementTail(s: Rest)
    ensures Tail(SkipElement(s), s)
  {
    var (h, t) := Header(s);
    HeaderTail(s);
    var k := SkipBy(h);
    if k >= 0 {
      DataTail(t, k);
      TailTrans(SkipElement(s), t, s);
    } else {
      var (n, u) := Number(t, -k);
      DataTail(t, -k);
      DataTail(u, if 0xc7 <= h <= 0xc9 then Next32(n) else n);
      TailTrans(SkipElement(s), u, t);
      TailTrans(SkipElement(s), t, s);
    }
  }

  lemma CountTail(s: Rest)
    ensures Tail(GetArray(s).1, s) && Tail(GetMap(s).1, s)
  {
    var t := Header(s).1;
    HeaderTail(s);
    DataTail(t, 2);
    DataTail(t, 4);
    TailTrans(Data(t, 2).1, t, s);
    TailTrans(Data(t, 4).1, t, s);
  }

  /** Whatever the bytes are, skipping an object ends within them or invalidates the cursor. */
  lemma {:induction false} SkipObjectTail(s: Rest)
    ensures Tail(SkipObject(s), s) && (SkipObject(s).Some? ==> Size(SkipObject(s)) < Size(s))
    decreases Size(s), 0, 0
  {
    CountTail(s);
    SkipElementTail(s);
    if IsArray(Peek(s)) {
      SkipObjectsTail(GetArray(s).1, GetArray(s).0);
      TailTrans(SkipObject(s), GetArray(s).1, s);
    } else if IsMap(Peek(s)) {
      SkipObjectsTail(GetMap(s).1, 2 * GetMap(s).0);
      TailTrans(SkipObject(s), GetMap(s).1, s);
    }
  }

  lemma {:induction false} SkipObjectsTail(s: Rest, n: nat)
    ensures Tail(SkipObjects(s, n), s)
    decreases Size(s), 1, n
  {
    if n > 0 && s.Some? {
      SkipObjectTail(s);
      SkipObjectsTail(SkipObject(s), n - 1);
      TailTrans(SkipObjects(s, n), SkipObject(s), s);
    }
  }
}
