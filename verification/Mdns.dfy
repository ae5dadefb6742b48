/**
 * The mDNS service discovery packets, in the layout of sections 4.1.1 and 4.1.4 of RFC 1035 with the SRV
 * record of RFC 2782 and the TXT pairs of section 6 of RFC 6763. Names are compressed with fixed pointers.
 */
module Mdns {
  import opened Wrappers
  import opened CStrings

  type Bytes = seq<byte>

  // ----- the parts of a packet

  function Be16(v: nat): Bytes { [v / 256 % 256, v % 256] }

  function Word(b: Bytes): nat
    requires |b| == 2
  {
    256 * (b[0] as int) + b[1]
  }

  function Be32(v: nat): Bytes { Be16(v / 0x1_0000) + Be16(v) }

  predicate LabelFits(s: Bytes) { |s| < 256 }

  function Label(s: Bytes): Bytes
    requires LabelFits(s)
  {
    [|s|] + s
  }

  /** A label that starts with an underscore. */
  function Ulabel(s: Bytes): Bytes
    requires |s| + 1 < 256
  {
    [|s| + 1, 0x5f] + s
  }

  function Pair(key: Bytes, value: Bytes): Bytes { key + [0x3d] + value }

  /** Key-value pairs, each as one label. */
  function Pairs(keys: seq<Bytes>, values: seq<Bytes>): Bytes
    requires |keys| == |values| && forall i :: 0 <= i < |keys| ==> LabelFits(Pair(keys[i], values[i]))
  {
    if keys == [] then [] else Label(Pair(keys[0], values[0])) + Pairs(keys[1..], values[1..])
  }

  /** Data preceded by its length. */
  function Counted(b: Bytes): Bytes { Be16(|b|) + b }

  const LOCAL: Bytes := [5, 0x6c, 0x6f, 0x63, 0x61, 0x6c, 0]
  const RESPONSE_HEADER: Bytes := Be16(0) + Be16(0x8400) + Be16(0) + Be16(3) + Be16(0) + Be16(0)
  const TXT_IN: Bytes := Be16(0x10) + Be16(0x1) + Be32(3600)
  const FULL_NAME: nat := 12

  predicate Service(protocol: Bytes, transport: Bytes) { |protocol| + 1 < 256 && |transport| + 1 < 256 }

  /** From the service to the data of the TXT record. */
  function TxtHead(protocol: Bytes, transport: Bytes): Bytes
    requires Service(protocol, transport)
  {
    Ulabel(protocol) + Ulabel(transport) + LOCAL + TXT_IN
  }

  function ProtocolOffset(name: Bytes): nat { FULL_NAME + 1 + |name| }

  function LocalOffset(name: Bytes, protocol: Bytes, transport: Bytes): nat {
    ProtocolOffset(name) + |protocol| + 2 + |transport| + 2
  }

  function Pointer(offset: nat): Bytes { Be16(0xc000 + offset) }

  function PtrRecord(name: Bytes): Bytes {
    Pointer(ProtocolOffset(name)) + Be16(0xc) + Be16(0x8001) + Be32(3600) + Counted(Pointer(FULL_NAME))
  }

  const SRV_HEAD: Bytes := Pointer(FULL_NAME) + Be16(0x21) + Be16(0x8001) + Be32(120)

  function SrvData(name: Bytes, protocol: Bytes, transport: Bytes, port: nat): Bytes
    requires LabelFits(name)
  {
    Be16(0) + Be16(0) + (Be16(port) + (Label(name) + Pointer(LocalOffset(name, protocol, transport))))
  }

  ghost predicate Sendable(name: Bytes, protocol: Bytes, transport: Bytes, keys: seq<Bytes>, values: seq<Bytes>) {
    && LabelFits(name) && Service(protocol, transport)
    && |keys| == |values| && forall i :: 0 <= i < |keys| ==> LabelFits(Pair(keys[i], values[i]))
  }

  /** The packet of prepare_response. */
  ghost function Response(name: Bytes, protocol: Bytes, transport: Bytes, port: nat, keys: seq<Bytes>,
      values: seq<Bytes>): Bytes
    requires Sendable(name, protocol, transport, keys, values)
  {
    RESPONSE_HEADER + (Label(name) + (TxtHead(protocol, transport) + (Counted(Pairs(keys, values))
      + (PtrRecord(name) + (SRV_HEAD + Counted(SrvData(name, protocol, transport, port)))))))
  }

  // ----- reading, as functions of the bytes that remain; None after an error

  type Rest = Option<Bytes>

  function Check(s: Rest, b: Bytes): Rest {
    if s.Some? && b <= s.value then Some(s.value[|b|..]) else None
  }

  function Take(s: Rest, n: nat): (r: (Bytes, Rest)) {
    if s.Some? && |s.value| >= n then (s.value[..n], Some(s.value[n..])) else ([], None)
  }

  /** A label as it is in the packet. */
  function GetLabel(s: Rest): (r: (Bytes, Rest)) {
    if s.None? || s.value == [] then ([], None) else Take(Some(s.value[1..]), s.value[0])
  }

  /** Where the first '=' is, or the end. */
  function Split(s: Bytes): (n: nat)
    ensures n <= |s| && 0x3d !in s[..n] && (n < |s| ==> s[n] == 0x3d)
  {
    if s == [] || s[0] == 0x3d then 0 else 1 + Split(s[1..])
  }

  /** The value of a label that holds the pair of a key. */
  function ValueOf(raw: Bytes, key: Bytes): Option<Bytes> {
    var s := UpToNul(raw);
    var n := Split(s);
    if n < |s| && s[..n] == key then Some(s[n + 1..]) else None
  }

  /** Each label holds the pair of its key. */
  predicate Answers(labels: seq<Bytes>, keys: seq<Bytes>) {
    |labels| == |keys| && forall i :: 0 <= i < |keys| ==> ValueOf(labels[i], keys[i]).Some?
  }

  lemma AnswersMore(raw: Bytes, more: seq<Bytes>, keys: seq<Bytes>)
    requires keys != [] && ValueOf(raw, keys[0]).Some? && Answers(more, keys[1..])
    ensures Answers([raw] + more, keys)
  {
  }

  /** The labels of the TXT record, one for each key. */
  function GetPairs(s: Rest, keys: seq<Bytes>): (r: (seq<Bytes>, Rest))
    ensures r.1.Some? ==> s.Some? && |r.1.value| <= |s.value| && Answers(r.0, keys)
    decreases |keys|
  {
    if keys == [] then ([], s)
    else
      var (raw, t) := GetLabel(s);
      if t.None? || ValueOf(raw, keys[0]).None? then ([], None)
      else
        var (more, u) := GetPairs(t, keys[1..]);
        if u.None? then ([], None) else AnswersMore(raw, more, keys); ([raw] + more, u)
  }

  /** Between s and t lie as many bytes as `count` says. */
  function CheckLength(s: Rest, t: Rest, count: Bytes): Rest
    requires t.Some? ==> s.Some? && |t.value| <= |s.value|
  {
    if t.Some? && count == Be16(|s.value| - |t.value|) then t else None
  }

  /** What parse_response finds: the labels are those of the packet. */
  datatype Found = Found(name: Bytes, port: nat, labels: seq<Bytes>)

  function ParseSrv(s: Rest, name: Bytes, protocol: Bytes, transport: Bytes): (r: (nat, Rest)) {
    var (count, t) := Take(Check(s, SRV_HEAD), 2);
    var (port, u) := Take(Check(t, Be16(0) + Be16(0)), 2);
    var c := UpToNul(name);
    var e := if LabelFits(c) then Check(u, Label(c) + Pointer(LocalOffset(name, protocol, transport))) else None;
    if e.Some? then (Word(port), CheckLength(t, e, count)) else (0, None)
  }

  function ParseTxt(s: Rest, protocol: Bytes, transport: Bytes, keys: seq<Bytes>): (r: (seq<Bytes>, Rest))
    ensures r.1.Some? ==> Answers(r.0, keys)
  {
    if !Service(protocol, transport) then ([], None)
    else
      var (count, t) := Take(Check(s, TxtHead(protocol, transport)), 2);
      var (labels, u) := GetPairs(t, keys);
      (labels, CheckLength(t, u, count))
  }

  /**
   * The packet that parse_response accepts. The name is compared as a C string, its offsets are those in the packet.
   */
  function Parse(b: Bytes, protocol: Bytes, transport: Bytes, keys: seq<Bytes>): (f: Option<Found>)
    ensures f.Some? ==> Answers(f.value.labels, keys)
  {
    var (name, s) := GetLabel(Check(Some(b), RESPONSE_HEADER));
    var (labels, t) := ParseTxt(s, protocol, transport, keys);
    var u := Check(t, PtrRecord(name));
    var (port, v) := ParseSrv(u, name, protocol, transport);
    if v == Some([]) then Some(Found(name, port, labels)) else None
  }

  /** The values of the keys, in order. */
  function Values(labels: seq<Bytes>, keys: seq<Bytes>): (v: seq<Bytes>)
    requires Answers(labels, keys)
    ensures |v| == |keys|
  {
    seq(|keys|, i requires 0 <= i < |keys| => ValueOf(labels[i], keys[i]).value)
  }

  // ----- reading undoes writing, and the other way round

  lemma WordBe16(v: nat)
    requires v < 0x1_0000
    ensures Word(Be16(v)) == v
  {
  }

  lemma Be16Word(b: Bytes)
    requires |b| == 2
    ensures Word(b) < 0x1_0000 && Be16(Word(b)) == b
  {
  }

  lemma CheckRead(b: Bytes, rest: Bytes)
    ensures Check(Some(b + rest), b) == Some(rest)
  {
    assert (b + rest)[|b|..] == rest;
  }

  lemma CheckSplits(s: Rest, b: Bytes)
    requires Check(s, b).Some?
    ensures s.Some? && s.value == b + Check(s, b).value
  {
  }

  lemma TakeRead(b: Bytes, rest: Bytes)
    ensures Take(Some(b + rest), |b|) == (b, Some(rest))
  {
    assert (b + rest)[..|b|] == b && (b + rest)[|b|..] == rest;
  }

  lemma LabelRead(l: Bytes, rest: Bytes)
    requires LabelFits(l)
    ensures GetLabel(Some(Label(l) + rest)) == (l, Some(rest))
  {
    assert (Label(l) + rest)[1..] == l + rest;
    TakeRead(l, rest);
  }

  lemma LabelSplits(s: Rest)
    requires GetLabel(s).1.Some?
    ensures s.Some? && LabelFits(GetLabel(s).0) && s.value == Label(GetLabel(s).0) + GetLabel(s).1.value
  {
    var l := s.value[1..];
    assert s.value == [s.value[0]] + l;
    assert l == l[..s.value[0]] + l[s.value[0]..];
  }

  lemma {:induction false} SplitAt(key: Bytes, value: Bytes)
    requires 0x3d !in key
    ensures Split(Pair(key, value)) == |key|
  {
    if key != [] {
      assert Pair(key, value)[1..] == Pair(key[1..], value);
      SplitAt(key[1..], value);
    }
  }

  lemma PairValue(key: Bytes, value: Bytes)
    requires 0x3d !in key && 0 !in key && 0 !in value
    ensures ValueOf(Pair(key, value), key) == Some(value)
  {
    UpToNulAll(Pair(key, value));
    SplitAt(key, value);
    assert Pair(key, value)[..|key|] == key && Pair(key, value)[|key| + 1..] == value;
  }

  lemma ValuePair(raw: Bytes, key: Bytes)
    requires 0 !in raw && ValueOf(raw, key).Some?
    ensures raw == Pair(key, ValueOf(raw, key).value)
  {
    UpToNulAll(raw);
    var n := Split(raw);
    assert raw == raw[..n] + [raw[n]] + raw[n + 1..];
  }

  ghost predicate Plain(key: Bytes, value: Bytes) {
    0x3d !in key && 0 !in key && 0 !in value && LabelFits(Pair(key, value))
  }

  ghost predicate AllPlain(keys: seq<Bytes>, values: seq<Bytes>) {
    |keys| == |values| && forall i :: 0 <= i < |keys| ==> Plain(keys[i], values[i])
  }

  ghost function Labels(keys: seq<Bytes>, values: seq<Bytes>): seq<Bytes>
    requires |keys| == |values|
  {
    if keys == [] then [] else [Pair(keys[0], values[0])] + Labels(keys[1..], values[1..])
  }

  lemma {:induction false} PairsRead(keys: seq<Bytes>, values: seq<Bytes>, rest: Bytes)
    requires AllPlain(keys, values)
    ensures GetPairs(Some(Pairs(keys, values) + rest), keys) == (Labels(keys, values), Some(rest))
    decreases |keys|
  {
    if keys == [] {
      assert Pairs(keys, values) + rest == rest;
    } else {
      var more := Pairs(keys[1..], values[1..]) + rest;
      assert Plain(keys[0], values[0]);
      assert Pairs(keys, values) + rest == Label(Pair(keys[0], values[0])) + more;
      LabelRead(Pair(keys[0], values[0]), more);
      PairValue(keys[0], values[0]);
      PairsRead(keys[1..], values[1..], rest);
    }
  }

  lemma {:induction false} LabelsValues(keys: seq<Bytes>, values: seq<Bytes>, i: nat)
    requires AllPlain(keys, values) && i < |keys|
    ensures |Labels(keys, values)| == |keys| && ValueOf(Labels(keys, values)[i], keys[i]) == Some(values[i])
    decreases |keys|
  {
    assert Plain(keys[0], values[0]);
    PairValue(keys[0], values[0]);
    if |keys| > 1 {
      LabelsValues(keys[1..], values[1..], if i == 0 then 0 else i - 1);
    }
  }

  ghost predicate AllFit(labels: seq<Bytes>) { forall i :: 0 <= i < |labels| ==> LabelFits(labels[i]) }

  ghost function Joined(labels: seq<Bytes>): Bytes
    requires AllFit(labels)
  {
    if labels == [] then [] else Label(labels[0]) + Joined(labels[1..])
  }

  lemma JoinedMore(raw: Bytes, more: seq<Bytes>, rest: Bytes)
    requires LabelFits(raw) && AllFit(more)
    ensures AllFit([raw] + more) && Label(raw) + (Joined(more) + rest) == Joined([raw] + more) + rest
  {
    assert ([raw] + more)[1..] == more;
    assert Label(raw) + (Joined(more) + rest) == Label(raw) + Joined(more) + rest;
  }

  /** t is what remains of s behind the labels. */
  ghost predicate Behind(s: Rest, labels: seq<Bytes>, t: Rest) {
    s.Some? && t.Some? && AllFit(labels) && s.value == Joined(labels) + t.value
  }

  lemma {:induction false} PairsSplit(s: Rest, keys: seq<Bytes>)
    requires GetPairs(s, keys).1.Some?
    ensures Behind(s, GetPairs(s, keys).0, GetPairs(s, keys).1)
    decreases |keys|
  {
    if keys == [] {
      assert s.value == Joined([]) + s.value;
    } else {
      var (raw, t) := GetLabel(s);
      var (more, u) := GetPairs(t, keys[1..]);
      LabelSplits(s);
      PairsSplit(t, keys[1..]);
      JoinedMore(raw, more, u.value);
      assert GetPairs(s, keys) == ([raw] + more, u);
    }
  }

  ghost predicate Matched(labels: seq<Bytes>, keys: seq<Bytes>) {
    |labels| == |keys| && forall i :: 0 <= i < |keys| ==>
          LabelFits(labels[i]) && 0 !in labels[i] && ValueOf(labels[i], keys[i]).Some?
  }

  lemma MatchedPair(labels: seq<Bytes>, keys: seq<Bytes>, i: nat)
    requires Matched(labels, keys) && i < |keys|
    ensures labels[i] == Pair(keys[i], Values(labels, keys)[i])
  {
    ValuePair(labels[i], keys[i]);
  }

  lemma {:induction false} JoinedPairs(labels: seq<Bytes>, keys: seq<Bytes>)
    requires Matched(labels, keys)
    ensures forall i :: 0 <= i < |keys| ==> LabelFits(Pair(keys[i], Values(labels, keys)[i]))
    ensures AllFit(labels) && Joined(labels) == Pairs(keys, Values(labels, keys))
    decreases |keys|
  {
    forall i | 0 <= i < |keys| ensures LabelFits(Pair(keys[i], Values(labels, keys)[i])) {
      MatchedPair(labels, keys, i);
    }
    if keys != [] {
      MatchedPair(labels, keys, 0);
      JoinedPairs(labels[1..], keys[1..]);
      assert Values(labels, keys)[1..] == Values(labels[1..], keys[1..]);
    }
  }

  // ----- the round trip

  /** The name in the SRV record is compared as a C string. */
  lemma SrvReads(name: Bytes, protocol: Bytes, transport: Bytes, port: nat)
    requires LabelFits(name) && port < 0x1_0000
    ensures LabelFits(UpToNul(name))
    ensures var e := Label(UpToNul(name)) + Pointer(LocalOffset(name, protocol, transport));
            ParseSrv(Some(SRV_HEAD + Counted(Be16(0) + Be16(0) + (Be16(port) + e))), name, protocol, transport) ==
                (port, Some([]))
  {
    var e := Label(UpToNul(name)) + Pointer(LocalOffset(name, protocol, transport));
    var d := Be16(0) + Be16(0) + (Be16(port) + e);
    CheckRead(SRV_HEAD, Counted(d));
    TakeRead(Be16(|d|), d);
    CheckRead(Be16(0) + Be16(0), Be16(port) + e);
    TakeRead(Be16(port), e);
    assert e + [] == e;
    CheckRead(e, []);
    WordBe16(port);
  }

  lemma SrvRead(name: Bytes, protocol: Bytes, transport: Bytes, port: nat)
    requires LabelFits(name) && 0 !in name && port < 0x1_0000
    ensures ParseSrv(Some(SRV_HEAD + Counted(SrvData(name, protocol, transport, port))), name, protocol, transport) ==
            (port, Some([]))
  {
    UpToNulAll(name);
    SrvReads(name, protocol, transport, port);
  }

  lemma TxtRead(protocol: Bytes, transport: Bytes, keys: seq<Bytes>, values: seq<Bytes>, rest: Bytes)
    requires Service(protocol, transport) && AllPlain(keys, values)
    ensures var txt := TxtHead(protocol, transport) + (Counted(Pairs(keys, values)) + rest);
            ParseTxt(Some(txt), protocol, transport, keys) == (Labels(keys, values), Some(rest))
  {
    var p := Pairs(keys, values);
    CheckRead(TxtHead(protocol, transport), Counted(p) + rest);
    assert Counted(p) + rest == Be16(|p|) + (p + rest);
    TakeRead(Be16(|p|), p + rest);
    PairsRead(keys, values, rest);
  }

  /** Parsing what prepare_response built gives back the name, the port and the values. */
  lemma RoundTrip(name: Bytes, protocol: Bytes, transport: Bytes, port: nat, keys: seq<Bytes>, values: seq<Bytes>)
    requires LabelFits(name) && 0 !in name && Service(protocol, transport) && port < 0x1_0000 && AllPlain(keys, values)
    ensures var f := Parse(Response(name, protocol, transport, port, keys, values), protocol, transport, keys);
            && f.Some? && f.value.name == name && f.value.port == port && Values(f.value.labels, keys) == values
            && f.value.labels == Labels(keys, values)
  {
    var b := Response(name, protocol, transport, port, keys, values);
    var srv := SRV_HEAD + Counted(SrvData(name, protocol, transport, port));
    var txt := TxtHead(protocol, transport) + (Counted(Pairs(keys, values)) + (PtrRecord(name) + srv));
    CheckRead(RESPONSE_HEADER, Label(name) + txt);
    LabelRead(name, txt);
    TxtRead(protocol, transport, keys, values, PtrRecord(name) + srv);
    CheckRead(PtrRecord(name), srv);
    SrvRead(name, protocol, transport, port);
    forall i | 0 <= i < |keys| ensures ValueOf(Labels(keys, values)[i], keys[i]) ==
        Some(values[i]) { LabelsValues(keys, values, i); }
  }

  lemma SrvSplits(s: Rest, name: Bytes, protocol: Bytes, transport: Bytes)
    requires ParseSrv(s, name, protocol, transport).1 == Some([]) && LabelFits(name) && 0 !in name
    ensures var port := ParseSrv(s, name, protocol, transport).0;
            port < 0x1_0000 && s.Some? && s.value == SRV_HEAD + Counted(SrvData(name, protocol, transport, port))
  {
    UpToNulAll(name);
    var r := Check(s, SRV_HEAD);
    var (count, t) := Take(r, 2);
    var q := Check(t, Be16(0) + Be16(0));
    var (port, u) := Take(q, 2);
    var e := Label(name) + Pointer(LocalOffset(name, protocol, transport));
    CheckSplits(s, SRV_HEAD);
    CheckSplits(t, Be16(0) + Be16(0));
    CheckSplits(u, e);
    Be16Word(port);
    assert u.value == e;
    assert q.value == port + u.value;
    assert r.value == count + t.value;
  }

  lemma TxtSplits(s: Rest, protocol: Bytes, transport: Bytes, keys: seq<Bytes>)
    requires ParseTxt(s, protocol, transport, keys).1.Some?
    ensures var (labels, rest) := ParseTxt(s, protocol, transport, keys);
            && Service(protocol, transport) && AllFit(labels)
            && s.Some? && s.value == TxtHead(protocol, transport) + (Counted(Joined(labels)) + rest.value)
  {
    var r := Check(s, TxtHead(protocol, transport));
    var (count, t) := Take(r, 2);
    var (labels, u) := GetPairs(t, keys);
    CheckSplits(s, TxtHead(protocol, transport));
    PairsSplit(t, keys);
    var j := Joined(labels);
    assert r.value == count + t.value;
    assert count + (j + u.value) == count + j + u.value;
    assert |t.value| - |u.value| == |j|;
  }

  /** An accepted packet whose labels hold no NUL is the one prepare_response emits for what was found in it. */
  lemma AcceptedIsResponse(b: Bytes, protocol: Bytes, transport: Bytes, keys: seq<Bytes>)
    requires Parse(b, protocol, transport, keys).Some?
    requires var f := Parse(b, protocol, transport, keys).value;
             0 !in f.name && forall i :: 0 <= i < |keys| ==> 0 !in f.labels[i]
    ensures var f := Parse(b, protocol, transport, keys).value; var values := Values(f.labels, keys);
            && Sendable(f.name, protocol, transport, keys, values) && f.port < 0x1_0000
            && b == Response(f.name, protocol, transport, f.port, keys, values)
  {
    var r := Check(Some(b), RESPONSE_HEADER);
    var (name, s) := GetLabel(r);
    var (labels, t) := ParseTxt(s, protocol, transport, keys);
    CheckSplits(Some(b), RESPONSE_HEADER);
    LabelSplits(r);
    TxtSplits(s, protocol, transport, keys);
    CheckSplits(t, PtrRecord(name));
    SrvSplits(Check(t, PtrRecord(name)), name, protocol, transport);
    assert Matched(labels, keys);
    JoinedPairs(labels, keys);
  }

  /** C strings hold no NUL. */
  ghost predicate NulFree(s: seq<Bytes>) { forall i :: 0 <= i < |s| ==> 0 !in s[i] }

  /** For strings without NUL the round trip succeeds exactly when no key holds a '='. */
  lemma RoundTripExactly(name: Bytes, protocol: Bytes, transport: Bytes, port: nat, keys: seq<Bytes>,
      values: seq<Bytes>)
    requires Sendable(name, protocol, transport, keys, values) && port < 0x1_0000
    requires 0 !in name && NulFree(keys) && NulFree(values)
    ensures Parse(Response(name, protocol, transport, port, keys, values), protocol, transport, keys).Some?
            <==> forall i :: 0 <= i < |keys| ==> 0x3d !in keys[i]
  {
    if forall i :: 0 <= i < |keys| ==> 0x3d !in keys[i] {
      assert AllPlain(keys, values);
      RoundTrip(name, protocol, transport, port, keys, values);
    }
  }

  /** The value found in a label, and its key, are those of a pair that could have been sent. */
  lemma ValuePlain(raw: Bytes, key: Bytes)
    requires LabelFits(raw) && ValueOf(raw, key).Some?
    ensures Plain(key, ValueOf(raw, key).value)
  {
    var s := UpToNul(raw);
    UpToNulFree(raw);
    assert s == s[..Split(s)] + [s[Split(s)]] + s[Split(s) + 1..];
  }

  lemma {:induction false} LabelsNulFree(keys: seq<Bytes>, values: seq<Bytes>)
    requires AllPlain(keys, values)
    ensures NulFree(Labels(keys, values))
    decreases |keys|
  {
    if keys != [] {
      assert Plain(keys[0], values[0]);
      LabelsNulFree(keys[1..], values[1..]);
    }
  }

  /** What an accepted packet gives as C strings can be sent. */
  lemma FoundPlain(b: Bytes, protocol: Bytes, transport: Bytes, keys: seq<Bytes>)
    requires Parse(b, protocol, transport, keys).Some?
    ensures var f := Parse(b, protocol, transport, keys).value;
            && LabelFits(UpToNul(f.name)) && 0 !in UpToNul(f.name) && Service(protocol, transport) && f.port < 0x1_0000
            && AllPlain(keys, Values(f.labels, keys))
  {
    var f := Parse(b, protocol, transport, keys).value;
    var r := Check(Some(b), RESPONSE_HEADER);
    var (name, s) := GetLabel(r);
    LabelSplits(r);
    UpToNulFree(name);
    TxtSplits(s, protocol, transport, keys);
    forall i | 0 <= i < |keys| ensures Plain(keys[i], Values(f.labels, keys)[i]) { ValuePlain(f.labels[i], keys[i]); }
  }

  /**
   * An accepted packet is what prepare_response emits for the C strings found in it exactly when no label holds a NUL.
   */
  lemma AcceptedExactly(b: Bytes, protocol: Bytes, transport: Bytes, keys: seq<Bytes>)
    requires Parse(b, protocol, transport, keys).Some?
    ensures var f := Parse(b, protocol, transport, keys).value;
            var name, values := UpToNul(f.name), Values(f.labels, keys);
            && Sendable(name, protocol, transport, keys, values)
            && (b == Response(name, protocol, transport, f.port, keys, values) <==> 0 !in f.name && NulFree(f.labels))
  {
    var f := Parse(b, protocol, transport, keys).value;
    var name, values := UpToNul(f.name), Values(f.labels, keys);
    FoundPlain(b, protocol, transport, keys);
    if 0 !in f.name && NulFree(f.labels) {
      UpToNulAll(f.name);
      AcceptedIsResponse(b, protocol, transport, keys);
    } else if b == Response(name, protocol, transport, f.port, keys, values) {
      RoundTrip(name, protocol, transport, f.port, keys, values);
      UpToNulFree(f.name);
      LabelsNulFree(keys, values);
      assert false;
    }
  }

  /** A packet whose name holds a NUL: the SRV record carries the name up to there. */
  ghost function NulPacket(name: Bytes, protocol: Bytes, transport: Bytes, port: nat): Bytes
    requires LabelFits(name) && LabelFits(UpToNul(name)) && Service(protocol, transport)
  {
    var e := Label(UpToNul(name)) + Pointer(LocalOffset(name, protocol, transport));
    RESPONSE_HEADER + (Label(name) + (TxtHead(protocol, transport) + (Counted([])
      + (PtrRecord(name) + (SRV_HEAD + Counted(Be16(0) + Be16(0) + (Be16(port) + e)))))))
  }

  lemma NulAccepted(name: Bytes, protocol: Bytes, transport: Bytes, port: nat)
    requires LabelFits(name) && Service(protocol, transport) && port < 0x1_0000
    ensures LabelFits(UpToNul(name))
    ensures Parse(NulPacket(name, protocol, transport, port), protocol, transport, []) == Some(Found(name, port, []))
  {
    SrvReads(name, protocol, transport, port);
    var e := Label(UpToNul(name)) + Pointer(LocalOffset(name, protocol, transport));
    var srv := SRV_HEAD + Counted(Be16(0) + Be16(0) + (Be16(port) + e));
    var txt := TxtHead(protocol, transport) + (Counted([]) + (PtrRecord(name) + srv));
    CheckRead(RESPONSE_HEADER, Label(name) + txt);
    LabelRead(name, txt);
    TxtRead(protocol, transport, [], [], PtrRecord(name) + srv);
    CheckRead(PtrRecord(name), srv);
  }

  /** There are packets that are accepted although prepare_response never builds them from what was found in them. */
  lemma AcceptedNul()
    ensures exists b: Bytes, p: Bytes, t: Bytes :: Parse(b, p, t, []).Some?
              && var f := Parse(b, p, t, []).value;
                 Sendable(UpToNul(f.name), p, t, [], []) && b != Response(UpToNul(f.name), p, t, f.port, [], [])
  {
    var name: Bytes := [0];
    NulAccepted(name, [], [], 0);
    var b := NulPacket(name, [], [], 0);
    AcceptedExactly(b, [], [], []);
    assert Values([], []) == [];
  }

  /** A key with a '=' is written, but the packet is not accepted. */
  lemma EqualsRefused()
    ensures exists name: Bytes, keys: seq<Bytes>, values: seq<Bytes> ::
              Sendable(name, [], [], keys, values) && Parse(Response(name, [], [], 0, keys, values), [], [], keys).None?
  {
    var key: Bytes := [0x3d];
    var keys: seq<Bytes>, values: seq<Bytes> := [key], [[]];
    assert Sendable([], [], [], keys, values);
    RoundTripExactly([], [], [], 0, keys, values);
    assert 0x3d in keys[0];
  }
}
