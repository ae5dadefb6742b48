/**
 * DNS messages as section 4.1 of RFC 1035 has a receiver read them: the header, and resource records whose names may be
 * compressed. SRV records are those of RFC 2782, and the data of a TXT record is a sequence of strings.
 *
 * Nothing here knows how the messages are written.
 */
module DnsMessage {
  import opened Wrappers

  type Bytes = seq<byte>

  /** Sixteen bits in network byte order. */
  function Short(b: Bytes, at: nat): nat
    requires at + 2 <= |b|
  {
    b[at] as int * 256 + b[at + 1]
  }

  function Long(b: Bytes, at: nat): nat
    requires at + 4 <= |b|
  {
    Short(b, at) * 0x1_0000 + Short(b, at + 2)
  }

  /** A name, and where it ends. */
  datatype Name = Name(labels: seq<Bytes>, end: nat)

  /**
   * The name at a position: labels of 1 to 63 bytes up to an empty one, or up to two bytes that begin with two ones,
   * which give the position where the rest of the name is. That has to be before `start`, where this name began.
   */
  function NameAt(b: Bytes, start: nat, at: nat): (r: Option<Name>)
    ensures r.Some? ==> forall l :: l in r.value.labels ==> 0 < |l| < 64
    decreases start, |b| - at
  {
    if at >= |b| then None
    else
      var n := b[at];
      if n == 0 then Some(Name([], at + 1))
      else if n < 64 then
        if at + 1 + n > |b| then None
        else
          var rest := NameAt(b, start, at + 1 + n);
          if rest.None? then None else Some(Name([b[at + 1..at + 1 + n]] + rest.value.labels, rest.value.end))
      else if n < 192 || at + 2 > |b| then None
      else
        var target := Short(b, at) - 0xc000;
        if target >= start then None
        else
          var rest := NameAt(b, target, target);
          if rest.None? then None else Some(Name(rest.value.labels, at + 2))
  }

  /** Strings, each after its length, from one position to another. */
  function StringsIn(b: Bytes, at: nat, end: nat): Option<seq<Bytes>>
    requires end <= |b|
    decreases end - at
  {
    if at == end then Some([])
    else if at > end || at + 1 + b[at] > end then None
    else
      var rest := StringsIn(b, at + 1 + b[at], end);
      if rest.None? then None else Some([b[at + 1..at + 1 + b[at]]] + rest.value)
  }

  datatype Data =
    | Text(strings: seq<Bytes>)
    | Domain(target: seq<Bytes>)
    | Service(priority: nat, weight: nat, port: nat, target: seq<Bytes>)

  datatype Record = Record(owner: seq<Bytes>, cls: nat, ttl: nat, data: Data)

  const TXT := 16
  const PTR := 12
  const SRV := 33

  /** The data of a record of some type. */
  function DataAt(b: Bytes, kind: nat, at: nat, end: nat): Option<Data>
    requires at <= end <= |b|
  {
    if kind == TXT then
      var strings := StringsIn(b, at, end);
      if strings.None? then None else Some(Text(strings.value))
    else if kind == PTR then
      var name := NameAt(b, at, at);
      if name.None? || name.value.end != end then None else Some(Domain(name.value.labels))
    else if kind == SRV && at + 6 <= end then
      var name := NameAt(b, at + 6, at + 6);
      if name.None? || name.value.end != end then None
      else Some(Service(Short(b, at), Short(b, at + 2), Short(b, at + 4), name.value.labels))
    else None
  }

  /** The record at a position, and where it ends. */
  function RecordAt(b: Bytes, at: nat): Option<(Record, nat)> {
    var owner := NameAt(b, at, at);
    if owner.None? || owner.value.end + 10 > |b| then None
    else
      var p := owner.value.end;
      var end := p + 10 + Short(b, p + 8);
      if end > |b| then None
      else
        var data := DataAt(b, Short(b, p), p + 10, end);
        if data.None? then None
        else Some((Record(owner.value.labels, Short(b, p + 2), Long(b, p + 4), data.value), end))
  }

  /** So many records, which are all that is left of the message. */
  function RecordsAt(b: Bytes, at: nat, n: nat): Option<seq<Record>>
    decreases n
  {
    if n == 0 then if at == |b| then Some([]) else None
    else
      var r := RecordAt(b, at);
      if r.None? then None
      else
        var rest := RecordsAt(b, r.value.1, n - 1);
        if rest.None? then None else Some([r.value.0] + rest.value)
  }

  datatype Message = Message(id: nat, flags: nat, answers: seq<Record>)

  /** A message with answers only. */
  function Read(b: Bytes): Option<Message> {
    if |b| < 12 || Short(b, 4) != 0 || Short(b, 8) != 0 || Short(b, 10) != 0 then None
    else
      var answers := RecordsAt(b, 12, Short(b, 6));
      if answers.None? then None else Some(Message(Short(b, 0), Short(b, 2), answers.value))
  }
}
