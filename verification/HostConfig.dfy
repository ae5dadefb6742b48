/** Host configuration files: what node_write_config writes, node_read_from_config restores. */
module HostConfig {
  import opened Wrappers
  import opened CStrings
  import opened PackMsg
  import opened PackCursor

  const CONFIG_VERSION := 2
  const MAX_RECENT := 5
  const BUFFER := 4096
  const CORE_MESH: Bytes := [0x2e]

  /** A socket address: port and address in network byte order. */
  datatype Address = Unspec | Inet(port: Bytes, ip: Bytes) | Inet6(port: Bytes, ip: Bytes) | Unknown

  predicate Sized(a: Address) {
    match a
    case Inet(port, ip) => |port| == 2 && |ip| == 4
    case Inet6(port, ip) => |port| == 2 && |ip| == 16
    case _ => true
  }

  /** The fields of a node that are stored. Strings are C strings. */
  datatype Host = Host(name: Bytes, submesh: Option<Bytes>, devclass: int, blacklisted: bool, key: Option<Bytes>,
                       canonical: Option<Bytes>, recent: seq<Address>, lastReachable: int, lastUnreachable: int)

  ghost predicate CString(s: Bytes) { |s| < 0x1_0000_0000 && 0 !in s }

  ghost predicate Storable(h: Host) {
    && CString(h.name) && IntFits(h.devclass, 4)
    && (h.submesh.Some? ==> CString(h.submesh.value) && h.submesh.value != CORE_MESH)
    && (h.key.Some? ==> |h.key.value| == 32)
    && (h.canonical.Some? ==> CString(h.canonical.value) && h.canonical.value != [])
    && |h.recent| == MAX_RECENT && (forall i :: 0 <= i < |h.recent| ==> Sized(h.recent[i]))
    && IntFits(h.lastReachable, 8) && IntFits(h.lastUnreachable, 8)
  }

  /** The recent addresses up to the first unused entry. */
  function Used(recent: seq<Address>): (u: seq<Address>)
    ensures |u| <= |recent| && u == recent[..|u|]
    ensures (forall i :: 0 <= i < |u| ==> u[i] != Unspec) && (|u| < |recent| ==> recent[|u|] == Unspec)
  {
    if recent == [] || recent[0] == Unspec then [] else [recent[0]] + Used(recent[1..])
  }

  function EncodeAddress(a: Address): Bytes
    requires Sized(a)
  {
    match a
    case Inet(port, ip) => ExtHeader(4, 6) + (port + ip)
    case Inet6(port, ip) => ExtHeader(6, 18) + (port + ip)
    case _ => []
  }

  function EncodeAddresses(s: seq<Address>): Bytes
    requires forall i :: 0 <= i < |s| ==> Sized(s[i])
  {
    if s == [] then [] else EncodeAddress(s[0]) + EncodeAddresses(s[1..])
  }

  function Text(s: Bytes): Bytes { StrHeader(|s|) + s }

  function Key(k: Option<Bytes>): Bytes { if k.Some? then BinHeader(|k.value|) + k.value else BinHeader(0) + [] }

  // The encoding from each field on.

  ghost function Times(h: Host): Bytes
    requires Storable(h)
  {
    EncodeInt(h.lastReachable) + EncodeInt(h.lastUnreachable)
  }

  ghost function FromRecent(h: Host): Bytes
    requires Storable(h)
  {
    ArrayHeader(|Used(h.recent)|) + (EncodeAddresses(Used(h.recent)) + Times(h))
  }

  ghost function FromKey(h: Host): Bytes
    requires Storable(h)
  {
    Key(h.key) + (Text(if h.canonical.Some? then h.canonical.value else []) + FromRecent(h))
  }

  ghost function FromClass(h: Host): Bytes
    requires Storable(h)
  {
    EncodeInt(h.devclass) + (Encode(Bool(h.blacklisted)) + FromKey(h))
  }

  ghost function Encoding(h: Host): Bytes
    requires Storable(h)
  {
    EncodeUint(CONFIG_VERSION)
        + (Text(h.name) + (Text(if h.submesh.Some? then h.submesh.value else CORE_MESH) + FromClass(h)))
  }

  /** A host file begins with the version, 2, and the two names; the core mesh is written as ".". */
  lemma FileBegins(h: Host)
    requires Storable(h)
    ensures var m := if h.submesh.Some? then h.submesh.value else [0x2e];
            Encoding(h) == [2] + (Text(h.name) + (Text(m) + FromClass(h)))
  {
  }

  /** Every address that is used is of a family that can be stored. */
  ghost predicate KnownFamilies(h: Host) { KnownUpTo(Used(h.recent), |Used(h.recent)|) }

  ghost predicate KnownUpTo(u: seq<Address>, n: nat)
    requires n <= |u|
  {
    forall i :: 0 <= i < n ==> u[i].Inet? || u[i].Inet6?
  }

  // ----- reading

  function GetAddress(s: Rest): (r: (Address, Rest)) {
    var (tag, b, t) := GetExt(s);
    if tag == 4 && |b| == 6 then (Inet(b[..2], b[2..]), t)
    else if tag == 6 && |b| == 18 then (Inet6(b[..2], b[2..]), t)
    else (Unspec, None)
  }

  /** `count` entries of the array, from entry i on: the first MAX_RECENT are kept. */
  function GetAddresses(s: Rest, recent: seq<Address>, i: nat, count: nat): (r: (seq<Address>, Rest))
    requires |recent| == MAX_RECENT && i <= count
    ensures |r.0| == MAX_RECENT
    decreases count - i
  {
    if i == count then (recent, s)
    else if i < MAX_RECENT then GetAddresses(GetAddress(s).1, recent[i := GetAddress(s).0], i + 1, count)
    else GetAddresses(SkipElement(s), recent, i + 1, count)
  }

  const NONE_RECENT: seq<Address> := [Unspec, Unspec, Unspec, Unspec, Unspec]

  function ParseTimes(h: Host, s: Rest): (r: Option<Host>)
    ensures r.Some? ==> r.value.name == h.name
  {
    var (reachable, t) := GetInt(s, 8);
    var (unreachable, u) := GetInt(t, 8);
    if u == Some([]) then Some(h.(lastReachable := reachable, lastUnreachable := unreachable)) else None
  }

  function ParseRecent(h: Host, s: Rest): (r: Option<Host>)
    requires |h.recent| == MAX_RECENT
    ensures r.Some? ==> r.value.name == h.name
  {
    var (count, t) := GetArray(s);
    var (recent, u) := GetAddresses(t, h.recent, 0, count);
    ParseTimes(h.(recent := recent), u)
  }

  /** A key that the node has already is kept. */
  function ParseKey(h: Host, s: Rest): (r: Option<Host>)
    requires |h.recent| == MAX_RECENT
    ensures r.Some? ==> r.value.name == h.name
  {
    var (key, t) := GetBin(s);
    var (canonical, u) := GetStr(t);
    if (key != [] && |key| != 32) || u.None? then None
    else
      var c := UpToNul(canonical);
      var k := if key == [] || h.key.Some? then h.key else Some(key);
      ParseRecent(h.(key := k, canonical := if c == [] then None else Some(c)), u)
  }

  function ParseClass(h: Host, s: Rest): (r: Option<Host>)
    requires |h.recent| == MAX_RECENT
    ensures r.Some? ==> r.value.name == h.name
  {
    var (devclass, t) := GetInt(s, 4);
    var (blacklisted, u) := GetBool(t);
    ParseKey(h.(devclass := devclass, blacklisted := blacklisted), u)
  }

  /** A node with a name, and the key and the addresses it has already. */
  function Known(name: Bytes, submesh: Option<Bytes>, key: Option<Bytes>, recent: seq<Address>): Host {
    Host(name, submesh, 0, false, key, None, recent, 0, 0)
  }

  function ParseSubmesh(name: Bytes, s: Rest, key: Option<Bytes>, recent: seq<Address>): (r: Option<Host>)
    requires |recent| == MAX_RECENT
    ensures r.Some? ==> r.value.name == name
  {
    var (submesh, t) := GetStr(s);
    if t.None? then None
    else
      var m := UpToNul(submesh);
      ParseClass(Known(name, if m == CORE_MESH then None else Some(m), key, recent), t)
  }

  /** What node_read_from_config makes of a file for a node with this key and these recent addresses. */
  function Parse(b: Bytes, key: Option<Bytes>, recent: seq<Address>): Option<Host>
    requires |recent| == MAX_RECENT
  {
    var (version, s) := GetUint(Some(b), 4);
    if version != CONFIG_VERSION then None
    else
      var (name, t) := GetStr(s);
      ParseSubmesh(UpToNul(name), t, key, recent)
  }

  // ----- the round trip

  /** The first i of the addresses u, and unused entries after them. */
  ghost function Padded(u: seq<Address>, i: nat): (p: seq<Address>)
    requires i <= |u| <= MAX_RECENT
    ensures |p| == MAX_RECENT
  {
    u[..i] + NONE_RECENT[i..]
  }

  lemma AddressRoundTrip(a: Address, rest: Bytes)
    requires Sized(a) && (a.Inet? || a.Inet6?) && |EncodeAddress(a) + rest| < 0x1_0000_0000
    ensures GetAddress(Some(EncodeAddress(a) + rest)) == (a, Some(rest))
  {
    var b := a.port + a.ip;
    ExtRoundTrip(if a.Inet? then 4 else 6, b, rest);
    assert b[..2] == a.port && b[2..] == a.ip;
  }

  lemma PaddedMore(u: seq<Address>, i: nat)
    requires i < |u| <= MAX_RECENT
    ensures Padded(u, i)[i := u[i]] == Padded(u, i + 1)
  {
  }

  lemma EncodedMore(u: seq<Address>, i: nat, rest: Bytes)
    requires i < |u| && forall j :: 0 <= j < |u| ==> Sized(u[j])
    ensures EncodeAddresses(u[i..]) + rest == EncodeAddress(u[i]) + (EncodeAddresses(u[i + 1..]) + rest)
  {
    assert u[i..][1..] == u[i + 1..];
  }

  lemma {:induction false} AddressesRoundTrip(u: seq<Address>, i: nat, rest: Bytes)
    requires i <= |u| <= MAX_RECENT && forall j :: 0 <= j < |u| ==> Sized(u[j]) && (u[j].Inet? || u[j].Inet6?)
    requires |EncodeAddresses(u[i..]) + rest| < 0x1_0000_0000
    ensures GetAddresses(Some(EncodeAddresses(u[i..]) + rest), Padded(u, i), i, |u|) == (Padded(u, |u|), Some(rest))
    decreases |u| - i
  {
    if i == |u| {
      assert EncodeAddresses(u[i..]) + rest == rest;
    } else {
      EncodedMore(u, i, rest);
      AddressRoundTrip(u[i], EncodeAddresses(u[i + 1..]) + rest);
      PaddedMore(u, i);
      AddressesRoundTrip(u, i + 1, rest);
    }
  }

  ghost predicate Fits(b: Bytes) { |b| < 0x1_0000_0000 }

  lemma TimesRoundTrip(h: Host, g: Host)
    requires Storable(h) && Fits(Times(h))
    ensures ParseTimes(g, Some(Times(h))) ==
            Some(g.(lastReachable := h.lastReachable, lastUnreachable := h.lastUnreachable))
  {
    IntRoundTrip(h.lastReachable, 8, EncodeInt(h.lastUnreachable));
    assert EncodeInt(h.lastUnreachable) == EncodeInt(h.lastUnreachable) + [];
    IntRoundTrip(h.lastUnreachable, 8, []);
  }

  /** A file with anything behind its last field is refused. */
  lemma TrailingRefused(h: Host, g: Host, rest: Bytes)
    requires Storable(h) && Fits(Times(h) + rest) && rest != []
    ensures ParseTimes(g, Some(Times(h) + rest)) == None
  {
    IntRoundTrip(h.lastReachable, 8, EncodeInt(h.lastUnreachable) + rest);
    assert Times(h) + rest == EncodeInt(h.lastReachable) + (EncodeInt(h.lastUnreachable) + rest);
    IntRoundTrip(h.lastUnreachable, 8, rest);
  }

  ghost function Restored(h: Host): Host
    requires |h.recent| == MAX_RECENT
  {
    h.(recent := Padded(Used(h.recent), |Used(h.recent)|))
  }

  ghost predicate Compact(recent: seq<Address>) {
    forall i, j :: 0 <= i < j < |recent| && recent[j] != Unspec ==> recent[i] != Unspec
  }

  lemma RestoredAt(h: Host, k: nat)
    requires |h.recent| == MAX_RECENT && k < MAX_RECENT
    ensures Restored(h).recent[k] == if k < |Used(h.recent)| then h.recent[k] else Unspec
  {
    var u := Used(h.recent);
    assert u[..|u|] == u;
    if k >= |u| { assert NONE_RECENT[|u|..][k - |u|] == NONE_RECENT[k] == Unspec; }
  }

  /** Everything is restored exactly if no recent address is used after an unused one. */
  lemma RestoredExactly(h: Host)
    requires |h.recent| == MAX_RECENT
    ensures Restored(h) == h <==> Compact(h.recent)
  {
    var u := Used(h.recent);
    forall k | 0 <= k < MAX_RECENT
      ensures Restored(h).recent[k] == if k < |u| then h.recent[k] else Unspec
    {
      RestoredAt(h, k);
    }
    if Compact(h.recent) {
      forall k | |u| <= k < MAX_RECENT ensures h.recent[k] == Unspec { assert h.recent[|u|] == Unspec; }
      assert Restored(h).recent == h.recent;
    }
    if Restored(h) == h {
      forall i, j | 0 <= i < j < MAX_RECENT && h.recent[j] != Unspec ensures h.recent[i] != Unspec {
        assert Restored(h).recent[j] == h.recent[j];
      }
    }
  }

  lemma RecentRoundTrip(h: Host, g: Host)
    requires Storable(h) && KnownFamilies(h) && Fits(FromRecent(h)) && g.recent == NONE_RECENT
    ensures ParseRecent(g, Some(FromRecent(h)))
            == Some(g.(recent := Restored(h).recent, lastReachable := h.lastReachable,
                lastUnreachable := h.lastUnreachable))
  {
    var u := Used(h.recent);
    ArrayRoundTrip(|u|, EncodeAddresses(u) + Times(h));
    assert Padded(u, 0) == NONE_RECENT && u[0..] == u;
    AddressesRoundTrip(u, 0, Times(h));
    TimesRoundTrip(h, g.(recent := Restored(h).recent));
  }

  lemma KeyRoundTrip(h: Host, g: Host)
    requires Storable(h) && KnownFamilies(h) && Fits(FromKey(h)) && g.recent == NONE_RECENT && g.key.None?
    ensures ParseKey(g, Some(FromKey(h)))
            == Some(g.(key := h.key, canonical := h.canonical, recent := Restored(h).recent,
                lastReachable := h.lastReachable, lastUnreachable := h.lastUnreachable))
  {
    var c := if h.canonical.Some? then h.canonical.value else [];
    BinRoundTrip(if h.key.Some? then h.key.value else [], Text(c) + FromRecent(h));
    StrRoundTrip(c, FromRecent(h));
    UpToNulAll(c);
    RecentRoundTrip(h, g.(key := h.key, canonical := h.canonical));
  }

  lemma ClassRoundTrip(h: Host, g: Host)
    requires Storable(h) && KnownFamilies(h) && Fits(FromClass(h)) && g.recent == NONE_RECENT && g.key.None?
    ensures ParseClass(g, Some(FromClass(h)))
            == Some(Restored(h).(name := g.name, submesh := g.submesh))
  {
    IntRoundTrip(h.devclass, 4, Encode(Bool(h.blacklisted)) + FromKey(h));
    HeaderRead(if h.blacklisted then 0xc3 else 0xc2, FromKey(h));
    KeyRoundTrip(h, g.(devclass := h.devclass, blacklisted := h.blacklisted));
  }

  /** Reading back what was written restores the node, with nothing left over. */
  lemma RoundTrip(h: Host)
    requires Storable(h) && KnownFamilies(h) && Fits(Encoding(h))
    ensures Parse(Encoding(h), None, NONE_RECENT) == Some(Restored(h))
  {
    var m := if h.submesh.Some? then h.submesh.value else CORE_MESH;
    Powers();
    UintRoundTrip(CONFIG_VERSION, 4, Text(h.name) + (Text(m) + FromClass(h)));
    StrRoundTrip(h.name, Text(m) + FromClass(h));
    StrRoundTrip(m, FromClass(h));
    UpToNulAll(h.name);
    UpToNulAll(m);
    ClassRoundTrip(h, Known(h.name, h.submesh, None, NONE_RECENT));
  }

  // ----- writing

  /** What was written so far is E without R, or it does not fit, or an address is of an unknown family. */
  ghost predicate Progress(out: Output, e: Bytes, r: Bytes, bad: bool)
    reads out
  {
    && out.Valid()
    && (out.room >= 0 ==> out.bytes + r == e && out.room == BUFFER - |out.bytes| && !bad)
    && (out.room < 0 ==> bad || |e| > BUFFER)
  }

  lemma Advance(b: Bytes, b': Bytes, room: int, room': int, d: Bytes, e: Bytes, r: Bytes)
    requires Wrote(b, room, b', room', d) && room >= 0 && b + (d + r) == e && room == BUFFER - |b|
    ensures room' >= 0 ==> b' + r == e && room' == BUFFER - |b'|
    ensures room' < 0 ==> |e| > BUFFER
  {
    assert b + d + r == b + (d + r);
  }

  method AddAddress(out: Output, a: Address, ghost e: Bytes, ghost r: Bytes, ghost bad: bool)
    requires Sized(a) && Progress(out, e, EncodeAddress(a) + r, bad)
    modifies out
    ensures Progress(out, e, r, bad || !(a.Inet? || a.Inet6?))
  {
    ghost var b, room := out.bytes, out.room;
    match a {
      case Inet(port, ip) => out.AddExt(4, port + ip);
      case Inet6(port, ip) => out.AddExt(6, port + ip);
      case _ => out.Invalidate();
    }
    if room >= 0 && (a.Inet? || a.Inet6?) { Advance(b, out.bytes, room, out.room, EncodeAddress(a), e, r); }
  }

  method AddText(out: Output, s: Bytes, ghost e: Bytes, ghost r: Bytes)
    requires |s| < 0x1_0000_0000 && Progress(out, e, Text(s) + r, false)
    modifies out
    ensures Progress(out, e, r, false)
  {
    ghost var b, room := out.bytes, out.room;
    out.AddStr(s);
    if room >= 0 { Advance(b, out.bytes, room, out.room, Text(s), e, r); }
  }

  method AddNumber(out: Output, v: int, w: nat, ghost e: Bytes, ghost r: Bytes, ghost bad: bool)
    requires Width(w) && IntFits(v, w) && IntFits(v, 8) && Progress(out, e, EncodeInt(v) + r, bad)
    modifies out
    ensures Progress(out, e, r, bad)
  {
    ghost var b, room := out.bytes, out.room;
    out.AddInt(v, w);
    if room >= 0 { Advance(b, out.bytes, room, out.room, EncodeInt(v), e, r); }
  }

  method AddAddresses(out: Output, u: seq<Address>, ghost e: Bytes, ghost r: Bytes)
    requires forall i :: 0 <= i < |u| ==> Sized(u[i])
    requires Progress(out, e, EncodeAddresses(u) + r, false)
    modifies out
    ensures Progress(out, e, r, !KnownUpTo(u, |u|))
  {
    var i := 0;
    assert u[0..] == u;
    while i < |u|
      invariant 0 <= i <= |u| && Progress(out, e, EncodeAddresses(u[i..]) + r, !KnownUpTo(u, i))
    {
      EncodedMore(u, i, r);
      AddAddress(out, u[i], e, EncodeAddresses(u[i + 1..]) + r, !KnownUpTo(u, i));
      i := i + 1;
    }
    assert EncodeAddresses(u[i..]) + r == r;
  }

  /** The addresses up to the first unused one, preceded by their number. */
  method AddRecent(out: Output, recent: seq<Address>, ghost e: Bytes, ghost r: Bytes)
    requires |recent| == MAX_RECENT && forall i :: 0 <= i < |recent| ==> Sized(recent[i])
    requires Progress(out, e, ArrayHeader(|Used(recent)|) + (EncodeAddresses(Used(recent)) + r), false)
    modifies out
    ensures Progress(out, e, r, !KnownUpTo(Used(recent), |Used(recent)|))
  {
    var count := CountUsed(recent);
    assert recent[..count] == Used(recent);
    ghost var b, room := out.bytes, out.room;
    out.AddArray(count);
    if room >= 0 { Advance(b, out.bytes, room, out.room, ArrayHeader(count), e, EncodeAddresses(Used(recent)) + r); }
    AddAddresses(out, recent[..count], e, r);
  }

  method CountUsed(recent: seq<Address>) returns (count: nat)
    ensures count == |Used(recent)|
  {
    count := 0;
    while count < |recent| && recent[count] != Unspec
      invariant 0 <= count <= |recent| && |Used(recent)| == count + |Used(recent[count..])|
    {
      assert recent[count..][1..] == recent[count + 1..];
      count := count + 1;
    }
  }

  method AddVersion(out: Output, ghost e: Bytes, ghost r: Bytes)
    requires Progress(out, e, EncodeUint(CONFIG_VERSION) + r, false)
    modifies out
    ensures Progress(out, e, r, false)
  {
    Powers();
    ghost var b, room := out.bytes, out.room;
    out.AddUint(CONFIG_VERSION, 4);
    if room >= 0 { Advance(b, out.bytes, room, out.room, EncodeUint(CONFIG_VERSION), e, r); }
  }

  method AddFlag(out: Output, v: bool, ghost e: Bytes, ghost r: Bytes)
    requires Progress(out, e, Encode(Bool(v)) + r, false)
    modifies out
    ensures Progress(out, e, r, false)
  {
    ghost var b, room := out.bytes, out.room;
    out.AddBool(v);
    if room >= 0 { Advance(b, out.bytes, room, out.room, Encode(Bool(v)), e, r); }
  }

  method AddKey(out: Output, key: Option<Bytes>, ghost e: Bytes, ghost r: Bytes)
    requires (key.Some? ==> |key.value| == 32) && Progress(out, e, Key(key) + r, false)
    modifies out
    ensures Progress(out, e, r, false)
  {
    ghost var b, room := out.bytes, out.room;
    out.AddBin(if key.Some? then key.value else []);
    if room >= 0 { Advance(b, out.bytes, room, out.room, Key(key), e, r); }
  }

  /** node_write_config: the file, unless it does not fit its buffer or an address cannot be stored. */
  method WriteConfig(h: Host) returns (config: Option<Bytes>)
    requires Storable(h)
    ensures config == if |Encoding(h)| <= BUFFER && KnownFamilies(h) then Some(Encoding(h)) else None
  {
    var out := new Output(BUFFER);
    ghost var e := Encoding(h);
    var m := if h.submesh.Some? then h.submesh.value else CORE_MESH;
    var c := if h.canonical.Some? then h.canonical.value else [];
    assert [] + e == e;
    AddVersion(out, e, Text(h.name) + (Text(m) + FromClass(h)));
    AddText(out, h.name, e, Text(m) + FromClass(h));
    AddText(out, m, e, FromClass(h));
    AddNumber(out, h.devclass, 4, e, Encode(Bool(h.blacklisted)) + FromKey(h), false);
    AddFlag(out, h.blacklisted, e, FromKey(h));
    AddKey(out, h.key, e, Text(c) + FromRecent(h));
    AddText(out, c, e, FromRecent(h));
    AddRecent(out, h.recent, e, Times(h));
    AddNumber(out, h.lastReachable, 8, e, EncodeInt(h.lastUnreachable), !KnownFamilies(h));
    assert EncodeInt(h.lastUnreachable) + [] == EncodeInt(h.lastUnreachable);
    AddNumber(out, h.lastUnreachable, 8, e, [], !KnownFamilies(h));
    assert out.bytes + [] == out.bytes;
    config := if out.room >= 0 then Some(out.bytes) else None;
  }

  // ----- loading

  /** The fields of a node, which may have no name yet. */
  datatype Stored = Stored(name: Option<Bytes>, submesh: Option<Bytes>, devclass: int, blacklisted: bool,
      key: Option<Bytes>, canonical: Option<Bytes>, recent: seq<Address>, lastReachable: int, lastUnreachable: int)

  /** A node that is being loaded. */
  class Node {
    var name: Option<Bytes>
    var submesh: Option<Bytes>
    var devclass: int
    var blacklisted: bool
    var key: Option<Bytes>
    var canonical: Option<Bytes>
    var recent: seq<Address>
    var lastReachable: int
    var lastUnreachable: int

    constructor (name: Option<Bytes>)
      ensures View() == Stored(name, None, 0, false, None, None, NONE_RECENT, 0, 0)
    {
      this.name := name;
      submesh, devclass, blacklisted, key, canonical := None, 0, false, None, None;
      recent := NONE_RECENT;
      lastReachable, lastUnreachable := 0, 0;
    }

    ghost function View(): Stored
      reads this
    {
      Stored(name, submesh, devclass, blacklisted, key, canonical, recent, lastReachable, lastUnreachable)
    }

    ghost predicate Holds(h: Host)
      reads this
    {
      && name == Some(h.name) && submesh == h.submesh && devclass == h.devclass && blacklisted == h.blacklisted
          && key == h.key
      && canonical == h.canonical && recent == h.recent && lastReachable == h.lastReachable
          && lastUnreachable == h.lastUnreachable
    }

    method ReadRecent(input: Input, count: nat)
      requires input.Valid() && |recent| == MAX_RECENT
      modifies this`recent, input
      ensures input.Valid()
              && (recent, input.Remaining()) == GetAddresses(old(input.Remaining()), old(recent), 0, count)
    {
      var i := 0;
      ghost var s, r := input.Remaining(), recent;
      while i < count
        invariant 0 <= i <= count && input.Valid() && |recent| == MAX_RECENT
        invariant GetAddresses(input.Remaining(), recent, i, count) == GetAddresses(s, r, 0, count)
      {
        if i < MAX_RECENT {
          var a := ReadAddress(input);
          recent := recent[i := a];
        } else {
          input.SkipElement();
        }
        i := i + 1;
      }
    }

    /** The outcome of a reading step: what Parse makes of the rest. */
    ghost predicate Loaded(ok: bool, parsed: Option<Host>)
      reads this
    {
      ok == parsed.Some? && (ok ==> Holds(parsed.value))
    }

    method ReadFromRecent(input: Input, ghost h: Host) returns (ok: bool)
      requires input.Valid() && Holds(h) && |recent| == MAX_RECENT
      modifies this, input
      ensures Loaded(ok, ParseRecent(h, old(input.Remaining())))
    {
      var count := input.GetArray();
      ReadRecent(input, count);
      lastReachable := input.GetInt(8);
      lastUnreachable := input.GetInt(8);
      ok := input.len == 0;
    }

    method ReadFromKey(input: Input, ghost h: Host) returns (ok: bool)
      requires input.Valid() && Holds(h) && |recent| == MAX_RECENT
      modifies this, input
      ensures Loaded(ok, ParseKey(h, old(input.Remaining())))
    {
      var k := input.GetBin();
      if k != [] {
        if |k| != 32 { return false; }
        if key.None? { key := Some(k); }
      }
      var c := input.GetStr();
      if input.len < 0 { return false; }
      c := UpToNul(c);
      canonical := if c == [] then None else Some(c);
      ok := ReadFromRecent(input, h.(key := key, canonical := canonical));
    }

    method ReadFromClass(input: Input, ghost h: Host) returns (ok: bool)
      requires input.Valid() && Holds(h) && |recent| == MAX_RECENT
      modifies this, input
      ensures Loaded(ok, ParseClass(h, old(input.Remaining())))
    {
      devclass := input.GetInt(4);
      blacklisted := input.GetBool();
      ok := ReadFromKey(input, h.(devclass := devclass, blacklisted := blacklisted));
    }

    /** Read and check the version and the name. */
    method ReadName(input: Input) returns (ok: bool)
      requires input.Valid()
      modifies this`name, input
      ensures input.Valid()
      ensures var (version, s) := GetUint(old(input.Remaining()), 4); var (n, t) := GetStr(s);
              && ok == (version == CONFIG_VERSION && t.Some? && (old(name).None? || old(name).value == UpToNul(n)))
              && (ok ==> name == Some(UpToNul(n)) && input.Remaining() == t)
    {
      var version := input.GetUint(4);
      if version != CONFIG_VERSION { return false; }
      var n := input.GetStr();
      if input.len < 0 { return false; }
      n := UpToNul(n);
      if name.Some? && name.value != n { return false; }
      name := Some(n);
      ok := true;
    }

    method ReadFromSubmesh(input: Input) returns (ok: bool)
      requires input.Valid() && name.Some? && |recent| == MAX_RECENT
      modifies this, input
      ensures Loaded(ok, ParseSubmesh(old(name).value, old(input.Remaining()), old(key), old(recent)))
    {
      var m := input.GetStr();
      if input.len < 0 { return false; }
      m := UpToNul(m);
      submesh := if m == CORE_MESH then None else Some(m);
      ghost var h := Host(name.value, submesh, devclass, blacklisted, key, canonical, recent, lastReachable,
          lastUnreachable);
      ParseOverwrites(h, input.Remaining());
      ok := ReadFromClass(input, h);
    }

    method Load(config: Bytes) returns (ok: bool)
      requires |recent| == MAX_RECENT
      modifies this
      ensures Loaded(ok, Named(old(name), Parse(config, old(key), old(recent))))
    {
      var input := new Input(config);
      ghost var n := name;
      ok := ReadName(input);
      ParseNamed(config, n, key, recent);
      if ok { ok := ReadFromSubmesh(input); }
    }

    /** node_read_from_config: a node with a canonical address is complete and stays as it is. */
    method ReadFromConfig(config: Bytes) returns (ok: bool)
      requires |recent| == MAX_RECENT
      modifies this
      ensures if old(canonical).Some? then ok && View() == old(View())
              else Loaded(ok, Named(old(name), Parse(config, old(key), old(recent))))
    {
      if canonical.Some? { return true; }
      ok := Load(config);
    }
  }

  /** A file that was written, read into a new node, restores all that is stored. */
  method WriteAndRead(h: Host, named: bool) returns (config: Option<Bytes>, ok: bool, node: Node)
    requires Storable(h)
    ensures config.Some? <==> |Encoding(h)| <= BUFFER && KnownFamilies(h)
    ensures config.Some? ==> ok && node.Holds(Restored(h))
  {
    node := new Node(if named then Some(h.name) else None);
    ok := false;
    config := WriteConfig(h);
    if config.Some? {
      RoundTrip(h);
      ok := node.ReadFromConfig(config.value);
    }
  }

  /** A node that has a name already takes only a file with that name. */
  function Named(name: Option<Bytes>, parsed: Option<Host>): Option<Host> {
    if parsed.Some? && (name.None? || name.value == parsed.value.name) then parsed else None
  }

  lemma ParseNamed(b: Bytes, name: Option<Bytes>, key: Option<Bytes>, recent: seq<Address>)
    requires |recent| == MAX_RECENT
    ensures var (version, s) := GetUint(Some(b), 4); var (n, t) := GetStr(s);
            Named(name, Parse(b, key, recent)) ==
              if version == CONFIG_VERSION && t.Some? && (name.None? || name.value == UpToNul(n))
              then ParseSubmesh(UpToNul(n), t, key, recent) else None
  {
  }

  /** What is not read from the file does not matter. */
  lemma ParseOverwrites(h: Host, s: Rest)
    requires |h.recent| == MAX_RECENT
    ensures ParseClass(h, s) == ParseClass(Known(h.name, h.submesh, h.key, h.recent), s)
  {
  }

  method ReadAddress(input: Input) returns (a: Address)
    requires input.Valid()
    modifies input
    ensures input.Valid() && (a, input.Remaining()) == GetAddress(old(input.Remaining()))
  {
    var tag, b := input.GetExt();
    if tag == 4 && |b| == 6 {
      a := Inet(b[..2], b[2..]);
    } else if tag == 6 && |b| == 18 {
      a := Inet6(b[..2], b[2..]);
    } else {
      input.Invalidate();
      a := Unspec;
    }
  }
}
