/**
 * What other mDNS implementations make of a response: read as section 4.1 of RFC 1035 says, it consists of the TXT, PTR
 * and SRV records of the service instance, and every compressed name leads to where the name it stands for begins.
 */
module MdnsReading {
  import opened Wrappers
  import opened Mdns
  import D = DnsMessage

  // ----- parts of a packet

  /** The packet has some bytes at a position. */
  ghost predicate At(b: Bytes, i: nat, part: Bytes) { i + |part| <= |b| && b[i..i + |part|] == part }

  lemma AtSplit(b: Bytes, i: nat, j: nat, x: Bytes, y: Bytes)
    requires At(b, i, x + y) && j == i + |x|
    ensures At(b, i, x) && At(b, j, y)
  {
    var s := b[i..i + |x + y|];
    assert s[..|x|] == x && s[|x|..] == y;
    assert b[i..j] == s[..|x|] && b[j..j + |y|] == s[|x|..];
  }

  lemma ByteAt(b: Bytes, i: nat, part: Bytes, k: nat)
    requires At(b, i, part) && k < |part|
    ensures b[i + k] == part[k]
  {
    assert b[i..i + |part|][k] == b[i + k];
  }

  lemma ShortAt(b: Bytes, i: nat, v: nat)
    requires At(b, i, Be16(v))
    ensures D.Short(b, i) == v % 0x1_0000
  {
    ByteAt(b, i, Be16(v), 0);
    ByteAt(b, i, Be16(v), 1);
  }

  lemma LongAt(b: Bytes, i: nat, v: nat)
    requires At(b, i, Be32(v)) && v < 0x1_0000_0000
    ensures D.Long(b, i) == v
  {
    AtSplit(b, i, i + 2, Be16(v / 0x1_0000), Be16(v));
    ShortAt(b, i, v / 0x1_0000);
    ShortAt(b, i + 2, v);
  }

  // ----- names

  predicate Short(l: Bytes) { 0 < |l| < 64 }

  lemma LabelName(b: Bytes, start: nat, at: nat, next: nat, l: Bytes, rest: D.Name)
    requires Short(l) && At(b, at, [|l|] + l) && next == at + 1 + |l| && D.NameAt(b, start, next) == Some(rest)
    ensures D.NameAt(b, start, at) == Some(D.Name([l] + rest.labels, rest.end))
  {
    ByteAt(b, at, [|l|] + l, 0);
    AtSplit(b, at, at + 1, [|l|], l);
  }

  lemma RootName(b: Bytes, start: nat, at: nat)
    requires At(b, at, [0])
    ensures D.NameAt(b, start, at) == Some(D.Name([], at + 1))
  {
    ByteAt(b, at, [0], 0);
  }

  /** A pointer, two bytes that begin with two ones, stands for the name that begins where it points to. */
  lemma PointerName(b: Bytes, start: nat, at: nat, target: nat, rest: D.Name)
    requires At(b, at, Pointer(target)) && target < 0x4000 && target < start
    requires D.NameAt(b, target, target) == Some(rest)
    ensures D.NameAt(b, start, at) == Some(D.Name(rest.labels, at + 2))
  {
    ShortAt(b, at, 0xc000 + target);
    assert b[at] >= 0xc0;
  }

  const LOCAL_LABEL: Bytes := [0x6c, 0x6f, 0x63, 0x61, 0x6c]

  /** _protocol._transport.local */
  function ServiceName(protocol: Bytes, transport: Bytes): seq<Bytes> {
    [[0x5f] + protocol, [0x5f] + transport, LOCAL_LABEL]
  }

  lemma LocalAt(b: Bytes, start: nat, at: nat)
    requires At(b, at, LOCAL)
    ensures D.NameAt(b, start, at) == Some(D.Name([LOCAL_LABEL], at + 7))
  {
    assert LOCAL == [|LOCAL_LABEL|] + LOCAL_LABEL + [0];
    AtSplit(b, at, at + 6, [|LOCAL_LABEL|] + LOCAL_LABEL, [0]);
    RootName(b, start, at + 6);
    LabelName(b, start, at, at + 6, LOCAL_LABEL, D.Name([], at + 7));
    assert [LOCAL_LABEL] + [] == [LOCAL_LABEL];
  }

  lemma UlabelName(b: Bytes, start: nat, at: nat, next: nat, s: Bytes, rest: D.Name)
    requires |s| < 63 && At(b, at, Ulabel(s)) && next == at + 2 + |s| && D.NameAt(b, start, next) == Some(rest)
    ensures D.NameAt(b, start, at) == Some(D.Name([[0x5f] + s] + rest.labels, rest.end))
  {
    var l := [0x5f] + s;
    assert Ulabel(s) == [|l|] + l;
    LabelName(b, start, at, next, l, rest);
  }

  lemma TransportAt(b: Bytes, start: nat, q: nat, r: nat, transport: Bytes)
    requires |transport| < 63 && At(b, q, Ulabel(transport) + LOCAL) && r == q + 2 + |transport|
    ensures D.NameAt(b, start, q) == Some(D.Name([[0x5f] + transport] + [LOCAL_LABEL], r + 7)) && At(b, r, LOCAL)
  {
    AtSplit(b, q, r, Ulabel(transport), LOCAL);
    LocalAt(b, start, r);
    UlabelName(b, start, q, r, transport, D.Name([LOCAL_LABEL], r + 7));
  }

  lemma ServiceAt(b: Bytes, start: nat, p: nat, r: nat, protocol: Bytes, transport: Bytes)
    requires |protocol| < 63 && |transport| < 63 && At(b, p, Ulabel(protocol) + (Ulabel(transport) + LOCAL))
    requires r == p + |protocol| + |transport| + 4
    ensures D.NameAt(b, start, p) == Some(D.Name(ServiceName(protocol, transport), r + 7))
    ensures At(b, r, LOCAL)
  {
    var q := p + 2 + |protocol|;
    var rest := [[0x5f] + transport] + [LOCAL_LABEL];
    AtSplit(b, p, q, Ulabel(protocol), Ulabel(transport) + LOCAL);
    TransportAt(b, start, q, r, transport);
    UlabelName(b, start, p, q, protocol, D.Name(rest, r + 7));
    assert [[0x5f] + protocol] + rest == ServiceName(protocol, transport);
  }

  // ----- strings

  /** key=value for every key. */
  ghost function Strings(keys: seq<Bytes>, values: seq<Bytes>): seq<Bytes>
    requires |keys| == |values|
  {
    if keys == [] then [] else [keys[0] + [0x3d] + values[0]] + Strings(keys[1..], values[1..])
  }

  /** The space that strings take, each with its length. */
  ghost function Total(strings: seq<Bytes>): nat {
    if strings == [] then 0 else 1 + |strings[0]| + Total(strings[1..])
  }

  lemma {:induction false} FirstString(b: Bytes, at: nat, next: nat, end: nat, s: Bytes, rest: seq<Bytes>)
    requires LabelFits(s) && At(b, at, Label(s)) && next == at + 1 + |s| <= end <= |b|
    requires D.StringsIn(b, next, end) == Some(rest)
    ensures D.StringsIn(b, at, end) == Some([s] + rest)
  {
    ByteAt(b, at, Label(s), 0);
    AtSplit(b, at, at + 1, [|s|], s);
  }

  lemma {:induction false} StringsAt(b: Bytes, at: nat, end: nat, keys: seq<Bytes>, values: seq<Bytes>)
    requires |keys| == |values| && forall i :: 0 <= i < |keys| ==> LabelFits(Pair(keys[i], values[i]))
    requires At(b, at, Pairs(keys, values)) && end == at + |Pairs(keys, values)|
    ensures end == at + Total(Strings(keys, values)) && D.StringsIn(b, at, end) == Some(Strings(keys, values))
    decreases |keys|
  {
    if keys != [] {
      var s, more := Pair(keys[0], values[0]), Pairs(keys[1..], values[1..]);
      var next := at + 1 + |s|;
      assert Pairs(keys, values) == Label(s) + more;
      AtSplit(b, at, next, Label(s), more);
      StringsAt(b, next, end, keys[1..], values[1..]);
      FirstString(b, at, next, end, s, Strings(keys[1..], values[1..]));
    }
  }

  lemma {:induction false} StringsTotal(b: Bytes, at: nat, end: nat)
    requires end <= |b| && D.StringsIn(b, at, end).Some?
    ensures at + Total(D.StringsIn(b, at, end).value) == end
    decreases end - at
  {
    if at != end { StringsTotal(b, at + 1 + b[at], end); }
  }

  // ----- records

  lemma FieldsAt(b: Bytes, p: nat, kind: nat, cls: nat, ttl: nat, n: nat)
    requires At(b, p, Be16(kind) + Be16(cls) + Be32(ttl)) && At(b, p + 8, Be16(n))
    requires kind < 0x1_0000 && cls < 0x1_0000 && ttl < 0x1_0000_0000
    ensures D.Short(b, p) == kind && D.Short(b, p + 2) == cls && D.Long(b, p + 4) == ttl
    ensures D.Short(b, p + 8) == n % 0x1_0000
  {
    AtSplit(b, p, p + 4, Be16(kind) + Be16(cls), Be32(ttl));
    AtSplit(b, p, p + 2, Be16(kind), Be16(cls));
    ShortAt(b, p, kind);
    ShortAt(b, p + 2, cls);
    LongAt(b, p + 4, ttl);
    ShortAt(b, p + 8, n);
  }

  /** A record whose owner ends at p, with n bytes of data from q to `end`. */
  lemma RecordIs(b: Bytes, at: nat, owner: D.Name, kind: nat, cls: nat, ttl: nat, n: nat, q: nat, end: nat,
      data: D.Data)
    requires D.NameAt(b, at, at) == Some(owner) && n < 0x1_0000 && q == owner.end + 10 && end == q + n <= |b|
    requires At(b, owner.end, Be16(kind) + Be16(cls) + Be32(ttl)) && At(b, owner.end + 8, Be16(n))
    requires kind < 0x1_0000 && cls < 0x1_0000 && ttl < 0x1_0000_0000 && D.DataAt(b, kind, q, end) == Some(data)
    ensures D.RecordAt(b, at) == Some((D.Record(owner.labels, cls, ttl, data), end))
  {
    FieldsAt(b, owner.end, kind, cls, ttl, n);
  }

  /** What a response is about. */
  datatype Instance = Instance(name: Bytes, protocol: Bytes, transport: Bytes, port: nat, keys: seq<Bytes>,
      values: seq<Bytes>)

  ghost predicate Fits(x: Instance) { Sendable(x.name, x.protocol, x.transport, x.keys, x.values) && x.port < 0x1_0000 }

  ghost function Packet(x: Instance): Bytes
    requires Fits(x)
  {
    Response(x.name, x.protocol, x.transport, x.port, x.keys, x.values)
  }

  /** name._protocol._transport.local */
  ghost function FullName(x: Instance): seq<Bytes> { [x.name] + ServiceName(x.protocol, x.transport) }

  ghost function TextRecord(x: Instance): D.Record
    requires |x.keys| == |x.values|
  {
    D.Record(FullName(x), 1, 3600, D.Text(Strings(x.keys, x.values)))
  }

  ghost function DomainRecord(x: Instance): D.Record {
    D.Record(ServiceName(x.protocol, x.transport), 0x8001, 3600, D.Domain(FullName(x)))
  }

  ghost function ServiceRecord(x: Instance): D.Record {
    D.Record(FullName(x), 0x8001, 120, D.Service(0, 0, x.port, [x.name, LOCAL_LABEL]))
  }

  /** A response holds the three records of the instance. */
  ghost function Meant(x: Instance): D.Message
    requires |x.keys| == |x.values|
  {
    D.Message(0, 0x8400, [TextRecord(x), DomainRecord(x), ServiceRecord(x)])
  }

  /** The labels are as long as labels may be, and the length of the TXT record fits its field. */
  ghost predicate Proper(x: Instance)
    requires |x.keys| == |x.values|
  {
    Short(x.name) && |x.protocol| < 63 && |x.transport| < 63 && Total(Strings(x.keys, x.values)) < 0x1_0000
  }

  // ----- each part, wherever it is

  /** The name of the instance, with that of its service, and the label that ends it. */
  lemma FullAt(b: Bytes, p: nat, q: nat, r: nat, x: Instance)
    requires Short(x.name) && |x.protocol| < 63 && |x.transport| < 63 && At(b, p, Label(x.name))
    requires At(b, q, Ulabel(x.protocol) + (Ulabel(x.transport) + LOCAL))
    requires q == p + 1 + |x.name| && r == q + |x.protocol| + |x.transport| + 4
    ensures D.NameAt(b, p, p) == Some(D.Name(FullName(x), r + 7))
  {
    ServiceAt(b, p, q, r, x.protocol, x.transport);
    LabelName(b, p, p, q, x.name, D.Name(ServiceName(x.protocol, x.transport), r + 7));
  }

  lemma EndAt(b: Bytes, q: nat, r: nat, protocol: Bytes, transport: Bytes)
    requires |protocol| < 63 && |transport| < 63 && At(b, q, Ulabel(protocol) + (Ulabel(transport) + LOCAL))
    requires r == q + |protocol| + |transport| + 4
    ensures D.NameAt(b, r, r) == Some(D.Name([LOCAL_LABEL], r + 7))
  {
    ServiceAt(b, q, q, r, protocol, transport);
    LocalAt(b, r, r);
  }

  /** A pointer to the service, and data that points to the instance. */
  lemma DomainAt(b: Bytes, p: nat, second: nat, service: D.Name, full: D.Name)
    requires At(b, p, Pointer(second)) && At(b, p + 2, Be16(12) + Be16(0x8001) + Be32(3600))
    requires At(b, p + 10, Be16(2)) && At(b, p + 12, Pointer(12)) && 12 < p && second < p && second < 0x4000
    requires D.NameAt(b, second, second) == Some(service) && D.NameAt(b, 12, 12) == Some(full)
    ensures D.RecordAt(b, p) == Some((D.Record(service.labels, 0x8001, 3600, D.Domain(full.labels)), p + 14))
  {
    PointerName(b, p, p, second, service);
    PointerName(b, p + 12, p + 12, 12, full);
    RecordIs(b, p, D.Name(service.labels, p + 2), 12, 0x8001, 3600, 2, p + 12, p + 14, D.Domain(full.labels));
  }

  /** A label, and a pointer to where the name goes on. */
  lemma TargetAt(b: Bytes, p: nat, q: nat, end: nat, name: Bytes, last: nat, rest: D.Name)
    requires Short(name) && At(b, p, [|name|] + name) && q == p + 1 + |name| && end == q + 2 && At(b, q, Pointer(last))
    requires last < p && last < 0x4000 && D.NameAt(b, last, last) == Some(rest)
    ensures D.NameAt(b, p, p) == Some(D.Name([name] + rest.labels, end))
  {
    PointerName(b, p, q, last, rest);
    LabelName(b, p, p, q, name, D.Name(rest.labels, q + 2));
  }

  lemma ServiceData(b: Bytes, p: nat, port: nat, target: D.Name)
    requires At(b, p, Be16(0) + Be16(0)) && At(b, p + 4, Be16(port)) && port < 0x1_0000
    requires D.NameAt(b, p + 6, p + 6) == Some(target) && p + 6 <= target.end <= |b|
    ensures D.DataAt(b, 33, p, target.end) == Some(D.Service(0, 0, port, target.labels))
  {
    AtSplit(b, p, p + 2, Be16(0), Be16(0));
    ShortAt(b, p, 0);
    ShortAt(b, p + 2, 0);
    ShortAt(b, p + 4, port);
  }

  /** A pointer to the instance, and the data of a service. */
  lemma ServiceIs(b: Bytes, p: nat, n: nat, end: nat, full: D.Name, data: D.Data)
    requires At(b, p, Pointer(12)) && At(b, p + 2, Be16(33) + Be16(0x8001) + Be32(120)) && At(b, p + 10, Be16(n))
    requires 12 < p && n < 0x1_0000 && end == p + 12 + n <= |b| && D.NameAt(b, 12, 12) == Some(full)
    requires D.DataAt(b, 33, p + 12, end) == Some(data)
    ensures D.RecordAt(b, p) == Some((D.Record(full.labels, 0x8001, 120, data), end))
  {
    PointerName(b, p, p, 12, full);
    RecordIs(b, p, D.Name(full.labels, p + 2), 33, 0x8001, 120, n, p + 12, end, data);
  }

  lemma HeaderRead(b: Bytes)
    requires At(b, 0, RESPONSE_HEADER)
    ensures |b| >= 12 && D.Short(b, 0) == 0 && D.Short(b, 2) == 0x8400 && D.Short(b, 4) == 0 && D.Short(b, 6) == 3
    ensures D.Short(b, 8) == 0 && D.Short(b, 10) == 0
  {
    forall k | 0 <= k < 12 ensures b[k] == RESPONSE_HEADER[k] { ByteAt(b, 0, RESPONSE_HEADER, k); }
  }

  lemma FirstRecord(b: Bytes, at: nat, n: nat, r: D.Record, next: nat, rest: seq<D.Record>)
    requires D.RecordAt(b, at) == Some((r, next)) && D.RecordsAt(b, next, n) == Some(rest)
    ensures D.RecordsAt(b, at, n + 1) == Some([r] + rest)
  {
  }

  lemma RecordsRead(b: Bytes, p: nat, q: nat, r: D.Record, s: D.Record, t: D.Record)
    requires D.RecordAt(b, 12) == Some((r, p)) && D.RecordAt(b, p) == Some((s, q))
    requires D.RecordAt(b, q) == Some((t, |b|))
    ensures D.RecordsAt(b, 12, 3) == Some([r, s, t])
  {
    FirstRecord(b, q, 0, t, |b|, []);
    FirstRecord(b, p, 1, s, q, [t] + []);
    FirstRecord(b, 12, 2, r, p, [s] + ([t] + []));
    assert [r] + ([s] + ([t] + [])) == [r, s, t];
  }

  lemma MessageRead(b: Bytes, p: nat, r: D.Record, s: D.Record, t: D.Record)
    requires At(b, 0, RESPONSE_HEADER) && D.RecordAt(b, 12) == Some((r, p))
    requires D.RecordAt(b, p) == Some((s, p + 14)) && D.RecordAt(b, p + 14) == Some((t, |b|))
    ensures D.Read(b) == Some(D.Message(0, 0x8400, [r, s, t]))
  {
    HeaderRead(b);
    RecordsRead(b, p, p + 14, r, s, t);
  }

  // ----- the parts of a response

  /** The PTR and the SRV record. */
  ghost function Back(x: Instance): Bytes
    requires Fits(x)
  {
    PtrRecord(x.name) + (SRV_HEAD + Counted(SrvData(x.name, x.protocol, x.transport, x.port)))
  }

  /** From the name on. */
  ghost function Named(x: Instance): Bytes
    requires Fits(x)
  {
    Label(x.name) + (TxtHead(x.protocol, x.transport) + (Counted(Pairs(x.keys, x.values)) + Back(x)))
  }

  lemma TxtAt(b: Bytes, p: nat, q: nat, end: nat, protocol: Bytes, transport: Bytes, pairs: Bytes, back: Bytes)
    requires Mdns.Service(protocol, transport) && At(b, p, TxtHead(protocol, transport) + (Counted(pairs) + back))
    requires q == p + |protocol| + |transport| + 4 && end == q + 17 + |pairs|
    ensures At(b, p, Ulabel(protocol) + (Ulabel(transport) + LOCAL))
    ensures At(b, q + 7, Be16(16) + Be16(1) + Be32(3600)) && At(b, q + 15, Be16(|pairs|)) && At(b, q + 17, pairs)
    ensures At(b, end, back)
  {
    AtSplit(b, p, q + 15, TxtHead(protocol, transport), Counted(pairs) + back);
    var names := Ulabel(protocol) + Ulabel(transport) + LOCAL;
    AtSplit(b, p, q + 7, names, TXT_IN);
    assert names == Ulabel(protocol) + (Ulabel(transport) + LOCAL);
    AtSplit(b, q + 15, end, Counted(pairs), back);
    AtSplit(b, q + 15, q + 17, Be16(|pairs|), pairs);
  }

  lemma PtrAt(b: Bytes, p: nat, name: Bytes)
    requires At(b, p, PtrRecord(name))
    ensures At(b, p, Pointer(13 + |name|)) && At(b, p + 2, Be16(12) + Be16(0x8001) + Be32(3600))
    ensures At(b, p + 10, Be16(2)) && At(b, p + 12, Pointer(12))
  {
    var q, fields := Pointer(ProtocolOffset(name)), Be16(12) + Be16(0x8001) + Be32(3600);
    assert PtrRecord(name) == q + fields + Counted(Pointer(FULL_NAME));
    AtSplit(b, p, p + 10, q + fields, Counted(Pointer(FULL_NAME)));
    AtSplit(b, p, p + 2, q, fields);
    AtSplit(b, p + 10, p + 12, Be16(2), Pointer(FULL_NAME));
  }

  lemma SrvHeadAt(b: Bytes, p: nat)
    requires At(b, p, SRV_HEAD)
    ensures At(b, p, Pointer(12)) && At(b, p + 2, Be16(33) + Be16(0x8001) + Be32(120))
  {
    var fields := Be16(33) + Be16(0x8001) + Be32(120);
    assert SRV_HEAD == Pointer(12) + fields;
    AtSplit(b, p, p + 2, Pointer(12), fields);
  }

  lemma SrvDataAt(b: Bytes, p: nat, name: Bytes, protocol: Bytes, transport: Bytes, port: nat)
    requires LabelFits(name) && At(b, p, SrvData(name, protocol, transport, port))
    ensures At(b, p, Be16(0) + Be16(0)) && At(b, p + 4, Be16(port)) && At(b, p + 6, [|name|] + name)
    ensures At(b, p + 7 + |name|, Pointer(17 + |name| + |protocol| + |transport|))
  {
    var last := Pointer(LocalOffset(name, protocol, transport));
    AtSplit(b, p, p + 4, Be16(0) + Be16(0), Be16(port) + (Label(name) + last));
    AtSplit(b, p + 4, p + 6, Be16(port), Label(name) + last);
    AtSplit(b, p + 6, p + 7 + |name|, Label(name), last);
  }

  // ----- the records of a response

  lemma DomainRead(b: Bytes, p: nat, x: Instance, service: D.Name, full: D.Name)
    requires LabelFits(x.name) && At(b, p, PtrRecord(x.name)) && 13 + |x.name| < p
    requires D.NameAt(b, 12, 12) == Some(full) && D.NameAt(b, 13 + |x.name|, 13 + |x.name|) == Some(service)
    ensures D.RecordAt(b, p) == Some((D.Record(service.labels, 0x8001, 3600, D.Domain(full.labels)), p + 14))
  {
    PtrAt(b, p, x.name);
    DomainAt(b, p, 13 + |x.name|, service, full);
  }

  lemma SrvRead(b: Bytes, p: nat, q: nat, end: nat, x: Instance, last: nat, rest: D.Name)
    requires LabelFits(x.name) && Short(x.name) && x.port < 0x1_0000 && q == p + 7 + |x.name| && last < 0x4000
    requires At(b, p, SrvData(x.name, x.protocol, x.transport, x.port)) && end == q + 2
    requires last == 17 + |x.name| + |x.protocol| + |x.transport| < p && D.NameAt(b, last, last) == Some(rest)
    ensures end <= |b| && D.DataAt(b, 33, p, end) == Some(D.Service(0, 0, x.port, [x.name] + rest.labels))
  {
    SrvDataAt(b, p, x.name, x.protocol, x.transport, x.port);
    TargetAt(b, p + 6, q, end, x.name, last, rest);
    ServiceData(b, p, x.port, D.Name([x.name] + rest.labels, end));
  }

  lemma SrvParts(b: Bytes, p: nat, x: Instance)
    requires LabelFits(x.name) && At(b, p, SRV_HEAD + Counted(SrvData(x.name, x.protocol, x.transport, x.port)))
    ensures At(b, p, Pointer(12)) && At(b, p + 2, Be16(33) + Be16(0x8001) + Be32(120))
    ensures At(b, p + 10, Be16(9 + |x.name|)) && At(b, p + 12, SrvData(x.name, x.protocol, x.transport, x.port))
  {
    var srv := SrvData(x.name, x.protocol, x.transport, x.port);
    AtSplit(b, p, p + 10, SRV_HEAD, Counted(srv));
    SrvHeadAt(b, p);
    AtSplit(b, p + 10, p + 12, Be16(|srv|), srv);
  }

  lemma ServiceRead(b: Bytes, p: nat, end: nat, x: Instance, last: nat, rest: D.Name, full: D.Name)
    requires LabelFits(x.name) && Short(x.name) && x.port < 0x1_0000 && last < 0x4000
    requires At(b, p, SRV_HEAD + Counted(SrvData(x.name, x.protocol, x.transport, x.port)))
    requires end == p + 21 + |x.name| && last == 17 + |x.name| + |x.protocol| + |x.transport| < p
    requires D.NameAt(b, last, last) == Some(rest) && D.NameAt(b, 12, 12) == Some(full)
    ensures D.RecordAt(b, p)
            == Some((D.Record(full.labels, 0x8001, 120, D.Service(0, 0, x.port, [x.name] + rest.labels)), end))
  {
    SrvParts(b, p, x);
    SrvRead(b, p + 12, p + 19 + |x.name|, end, x, last, rest);
    ServiceIs(b, p, 9 + |x.name|, end, full, D.Service(0, 0, x.port, [x.name] + rest.labels));
  }

  lemma TextRead(b: Bytes, p: nat, q: nat, r: nat, end: nat, x: Instance, owner: seq<Bytes>)
    requires Fits(x) && Total(Strings(x.keys, x.values)) < 0x1_0000 && D.NameAt(b, 12, 12) == Some(D.Name(owner, p))
    requires At(b, p, Be16(16) + Be16(1) + Be32(3600)) && At(b, q, Be16(|Pairs(x.keys, x.values)|))
    requires At(b, r, Pairs(x.keys, x.values)) && q == p + 8 && r == p + 10 && end == r + |Pairs(x.keys, x.values)|
    ensures D.RecordAt(b, 12) == Some((D.Record(owner, 1, 3600, D.Text(Strings(x.keys, x.values))), end))
  {
    StringsAt(b, r, end, x.keys, x.values);
    var n := |Pairs(x.keys, x.values)|;
    RecordIs(b, 12, D.Name(owner, p), 16, 1, 3600, n, r, end, D.Text(Strings(x.keys, x.values)));
  }

  /** The parts of a response from the name on. */
  lemma NamedParts(b: Bytes, x: Instance, q: nat, last: nat, p: nat)
    requires Fits(x) && At(b, 12, Named(x)) && q == 13 + |x.name| && last == q + |x.protocol| + |x.transport| + 4
    requires p == last + 17 + |Pairs(x.keys, x.values)|
    ensures At(b, 12, Label(x.name)) && At(b, q, Ulabel(x.protocol) + (Ulabel(x.transport) + LOCAL))
    ensures At(b, last + 7, Be16(16) + Be16(1) + Be32(3600)) && At(b, last + 15, Be16(|Pairs(x.keys, x.values)|))
    ensures At(b, last + 17, Pairs(x.keys, x.values)) && At(b, p, PtrRecord(x.name))
    ensures At(b, p + 14, SRV_HEAD + Counted(SrvData(x.name, x.protocol, x.transport, x.port)))
  {
    var pairs := Pairs(x.keys, x.values);
    var txt := TxtHead(x.protocol, x.transport) + (Counted(pairs) + Back(x));
    AtSplit(b, 12, q, Label(x.name), txt);
    TxtAt(b, q, last, p, x.protocol, x.transport, pairs, Back(x));
    AtSplit(b, p, p + 14, PtrRecord(x.name), SRV_HEAD + Counted(SrvData(x.name, x.protocol, x.transport, x.port)));
  }

  lemma TextWhole(b: Bytes, x: Instance, q: nat, last: nat, p: nat)
    requires Fits(x) && Proper(x) && q == 13 + |x.name| && last == q + |x.protocol| + |x.transport| + 4
    requires At(b, 12, Label(x.name)) && At(b, q, Ulabel(x.protocol) + (Ulabel(x.transport) + LOCAL))
    requires At(b, last + 7, Be16(16) + Be16(1) + Be32(3600)) && At(b, last + 15, Be16(|Pairs(x.keys, x.values)|))
    requires At(b, last + 17, Pairs(x.keys, x.values)) && p == last + 17 + |Pairs(x.keys, x.values)|
    ensures D.RecordAt(b, 12) == Some((TextRecord(x), p))
  {
    FullAt(b, 12, q, last, x);
    TextRead(b, last + 7, last + 15, last + 17, p, x, FullName(x));
  }

  lemma DomainWhole(b: Bytes, x: Instance, q: nat, last: nat, p: nat)
    requires Short(x.name) && |x.protocol| < 63 && |x.transport| < 63
    requires q == 13 + |x.name| < p && last == q + |x.protocol| + |x.transport| + 4
    requires At(b, 12, Label(x.name)) && At(b, q, Ulabel(x.protocol) + (Ulabel(x.transport) + LOCAL))
    requires At(b, p, PtrRecord(x.name))
    ensures D.RecordAt(b, p) == Some((DomainRecord(x), p + 14))
  {
    FullAt(b, 12, q, last, x);
    ServiceAt(b, q, q, last, x.protocol, x.transport);
    var service := D.Name(ServiceName(x.protocol, x.transport), last + 7);
    DomainRead(b, p, x, service, D.Name(FullName(x), last + 7));
  }

  lemma ServiceWhole(b: Bytes, x: Instance, q: nat, last: nat, p: nat, end: nat)
    requires Short(x.name) && |x.protocol| < 63 && |x.transport| < 63 && x.port < 0x1_0000
    requires q == 13 + |x.name| && last == q + |x.protocol| + |x.transport| + 4 < p && end == p + 21 + |x.name|
    requires At(b, 12, Label(x.name)) && At(b, q, Ulabel(x.protocol) + (Ulabel(x.transport) + LOCAL))
    requires At(b, p, SRV_HEAD + Counted(SrvData(x.name, x.protocol, x.transport, x.port)))
    ensures D.RecordAt(b, p) == Some((ServiceRecord(x), end))
  {
    FullAt(b, 12, q, last, x);
    EndAt(b, q, last, x.protocol, x.transport);
    var full, rest := D.Name(FullName(x), last + 7), D.Name([LOCAL_LABEL], last + 7);
    ServiceRead(b, p, end, x, last, rest, full);
    assert [x.name] + [LOCAL_LABEL] == [x.name, LOCAL_LABEL];
  }

  lemma NamedText(b: Bytes, x: Instance, q: nat, last: nat, p: nat)
    requires Fits(x) && Proper(x) && At(b, 12, Named(x)) && q == 13 + |x.name|
    requires last == q + |x.protocol| + |x.transport| + 4 && p == last + 17 + |Pairs(x.keys, x.values)|
    ensures D.RecordAt(b, 12) == Some((TextRecord(x), p))
  {
    NamedParts(b, x, q, last, p);
    TextWhole(b, x, q, last, p);
  }

  lemma NamedDomain(b: Bytes, x: Instance, q: nat, last: nat, p: nat)
    requires Fits(x) && Proper(x) && At(b, 12, Named(x)) && q == 13 + |x.name|
    requires last == q + |x.protocol| + |x.transport| + 4 && p == last + 17 + |Pairs(x.keys, x.values)|
    ensures D.RecordAt(b, p) == Some((DomainRecord(x), p + 14))
  {
    NamedParts(b, x, q, last, p);
    DomainWhole(b, x, q, last, p);
  }

  lemma NamedService(b: Bytes, x: Instance, q: nat, last: nat, p: nat, end: nat)
    requires Fits(x) && Proper(x) && At(b, 12, Named(x)) && q == 13 + |x.name| && end == p + 35 + |x.name|
    requires last == q + |x.protocol| + |x.transport| + 4 && p == last + 17 + |Pairs(x.keys, x.values)|
    ensures D.RecordAt(b, p + 14) == Some((ServiceRecord(x), end))
  {
    NamedParts(b, x, q, last, p);
    ServiceWhole(b, x, q, last, p + 14, end);
  }

  lemma NamedReads(b: Bytes, x: Instance)
    requires Fits(x) && Proper(x) && At(b, 0, RESPONSE_HEADER) && At(b, 12, Named(x)) && |b| == 12 + |Named(x)|
    ensures D.Read(b) == Some(Meant(x))
  {
    var q := 13 + |x.name|;
    var last := q + |x.protocol| + |x.transport| + 4;
    var p := last + 17 + |Pairs(x.keys, x.values)|;
    NamedText(b, x, q, last, p);
    NamedDomain(b, x, q, last, p);
    NamedService(b, x, q, last, p, |b|);
    MessageRead(b, p, TextRecord(x), DomainRecord(x), ServiceRecord(x));
  }

  lemma PacketAt(x: Instance)
    requires Fits(x)
    ensures At(Packet(x), 0, RESPONSE_HEADER) && At(Packet(x), 12, Named(x)) && |Packet(x)| == 12 + |Named(x)|
  {
    var b := RESPONSE_HEADER + Named(x);
    assert Packet(x) == b && At(b, 0, b);
    AtSplit(b, 0, 12, RESPONSE_HEADER, Named(x));
  }

  lemma ResponseReads(x: Instance)
    requires Fits(x) && Proper(x)
    ensures D.Read(Packet(x)) == Some(Meant(x))
  {
    PacketAt(x);
    NamedReads(Packet(x), x);
  }

  // ----- exactly when

  /** A record that can be read has proper labels, and strings that fit its length field. */
  lemma RecordProper(b: Bytes, at: nat)
    requires D.RecordAt(b, at).Some?
    ensures var r := D.RecordAt(b, at).value.0;
            && (forall l :: l in r.owner ==> Short(l))
            && (r.data.Text? ==> Total(r.data.strings) < 0x1_0000)
  {
    var p := D.NameAt(b, at, at).value.end;
    var end := p + 10 + D.Short(b, p + 8);
    if D.Short(b, p) == 16 { StringsTotal(b, p + 10, end); }
  }

  lemma ReadIsProper(b: Bytes, x: Instance)
    requires |x.keys| == |x.values| && At(b, 0, RESPONSE_HEADER) && D.Read(b) == Some(Meant(x))
    ensures Proper(x)
  {
    HeaderRead(b);
    assert D.RecordAt(b, 12).value.0 == Meant(x).answers[0] == TextRecord(x);
    RecordProper(b, 12);
    var full := FullName(x);
    assert full[0] in full && full[1] in full && full[2] in full;
  }

  /**
   * Exactly when no label is empty or longer than 63 bytes and the pairs are shorter than 64 KiB, the packet reads as
   * the three records, with full names.
   */
  lemma ResponseReadsExactly(x: Instance)
    requires Fits(x)
    ensures D.Read(Packet(x)) == Some(Meant(x)) <==> Proper(x)
  {
    PacketAt(x);
    if Proper(x) { ResponseReads(x); }
    if D.Read(Packet(x)) == Some(Meant(x)) { ReadIsProper(Packet(x), x); }
  }
}
