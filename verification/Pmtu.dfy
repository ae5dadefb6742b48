/** Path MTU discovery between two nodes: bursts of probes, replies to them, and what the socket reports. */
module Pmtu {
  const MTU := 1451
  const MIN_PROBE := 64
  const BURST := 5

  /** The fields of a node. */
  datatype State = State(mtuprobes: int, minmtu: int, maxmtu: int, mtu: int)

  const FRESH := State(0, 0, MTU, MTU)

  /** What a timer event leads to: nothing, sleeping, fixing the MTU and sleeping, or a burst of probes. */
  datatype Action = Stop | Sleep | Fix | Burst

  /** The MTU is fixed to what was confirmed, or to what can be sent if that is less. */
  function Fixed(s: State): (t: State)
    ensures t.mtu == t.minmtu == t.maxmtu && t.minmtu <= s.minmtu
            && t.maxmtu <= (if s.minmtu > s.maxmtu then s.maxmtu else s.minmtu)
  {
    var m := if s.minmtu > s.maxmtu then s.maxmtu else s.minmtu;
    State(31, m, m, m)
  }

  predicate Fixes(s: State) { s.mtuprobes == 30 || (s.mtuprobes < 30 && s.minmtu >= s.maxmtu) }

  /** The timer handler up to the burst. */
  function Tick(s: State, up: bool): (r: (State, Action)) {
    var s1 := s.(mtuprobes := s.mtuprobes + 1);
    if !up then (s1.(mtuprobes := 0), Stop)
    else if s1.mtuprobes > 32 && s1.minmtu == 0 then (s1.(mtuprobes := 31), Sleep)
    else
      var s2 := if s1.mtuprobes > 32 then s1.(mtuprobes := 1, minmtu := 0, maxmtu := MTU) else s1;
      var s3 := if 10 <= s2.mtuprobes < 32 && s2.minmtu == 0 then s2.(mtuprobes := 31) else s2;
      if Fixes(s3) then (Fixed(s3), Fix)
      else (s3, if s3.mtuprobes == 31 then Sleep else Burst)
  }

  /** A reply to a probe of `len` bytes. */
  function Replied(s: State, len: int): State {
    if len < MIN_PROBE then s
    else if s.mtuprobes > 30 && len == s.maxmtu + 8 then s.(maxmtu := MTU, mtuprobes := 10)
    else
      var t := if s.mtuprobes > 30 then s.(mtuprobes := if s.minmtu != 0 then 30 else 1) else s;
      var l := if len > t.maxmtu then t.maxmtu else len;
      if t.minmtu < l then t.(minmtu := l) else t
  }

  /** The socket reports that a datagram of `len` bytes is too big. */
  function TooBig(s: State, len: int): State {
    s.(maxmtu := if s.maxmtu >= len then len - 1 else s.maxmtu, mtu := if s.mtu >= len then len - 1 else s.mtu)
  }

  /** The length of probe i of a burst, if it is sent; `pick` chooses between the bounds. */
  function ProbeLength(s: State, i: int, pick: nat): int {
    var len := if i == 0 then s.maxmtu + 8
               else if s.maxmtu <= s.minmtu then s.maxmtu
               else s.minmtu + 1 + pick % (s.maxmtu - s.minmtu);
    if len < MIN_PROBE then MIN_PROBE else len
  }

  predicate ProbeSent(s: State, i: int) { i != 0 || !(s.mtuprobes < 30 || s.maxmtu + 8 >= MTU) }

  // ----- what every event keeps

  predicate Bounded(s: State) {
    0 <= s.mtuprobes <= 32 && 0 <= s.minmtu <= MTU && 0 <= s.maxmtu <= MTU && 0 <= s.mtu <= MTU
  }

  /** The timer starts the discovery all over when a node that had answered does not any more. */
  predicate Overdue(s: State, up: bool) { up && s.mtuprobes >= 32 && s.minmtu != 0 }

  lemma TickBounded(s: State, up: bool)
    requires Bounded(s)
    ensures Bounded(Tick(s, up).0) && Tick(s, up).0.minmtu <= s.minmtu
    ensures Tick(s, up).1.Sleep? || Tick(s, up).1.Fix? ==> Tick(s, up).0.mtuprobes == 31
    ensures if Tick(s, up).1.Fix? then Tick(s, up).0.mtu == Tick(s, up).0.minmtu == Tick(s, up).0.maxmtu
            else Tick(s, up).0.mtu == s.mtu
  {
  }

  function Least(a: int, b: int): int { if a < b then a else b }

  /** What the timer does to the bounds: they meet when the MTU is fixed, and are forgotten when it starts over. */
  lemma TickMoves(s: State, up: bool)
    requires Bounded(s)
    ensures var (t, a) := Tick(s, up);
            if Overdue(s, up) then a == Burst && t == s.(mtuprobes := 1, minmtu := 0, maxmtu := MTU)
            else if a.Fix? then t.mtu == t.minmtu == t.maxmtu == Least(s.minmtu, s.maxmtu)
            else t.minmtu == s.minmtu && t.maxmtu == s.maxmtu
  {
  }

  lemma ReplyBounded(s: State, len: int, path: int)
    requires Bounded(s) && s.minmtu <= path && len <= path
    ensures Bounded(Replied(s, len)) && Replied(s, len).minmtu <= path && Replied(s, len).minmtu >= s.minmtu
  {
  }

  /**
   * A reply confirms its length, as far as the socket allows that, unless it shows that the path has become better. A
   * node that had given up starts from the beginning then, one whose MTU was fixed is about to fix it again.
   */
  lemma ReplyConfirms(s: State, len: int)
    requires s.minmtu >= 0
    ensures var t := Replied(s, len);
            if len < 64 then t == s
            else if s.mtuprobes > 30 && len == s.maxmtu + 8 then t.minmtu == s.minmtu && t.maxmtu == 1451
            else && t.maxmtu == s.maxmtu
                 && t.mtuprobes == (if s.mtuprobes <= 30 then s.mtuprobes else if s.minmtu > 0 then 30 else 1)
                 && t.minmtu >= s.minmtu && t.minmtu >= Least(len, s.maxmtu)
                 && (t.minmtu == s.minmtu || t.minmtu == Least(len, s.maxmtu))
  {
  }

  /** The limit comes down to just below what was too big, for probes and for the MTU in use. */
  lemma TooBigLimits(s: State, len: int)
    ensures var t := TooBig(s, len);
            && t.maxmtu == Least(s.maxmtu, len - 1) && t.mtu == Least(s.mtu, len - 1)
            && t.minmtu == s.minmtu && t.mtuprobes == s.mtuprobes
  {
  }

  /** The MTU is fixed at once when a size is confirmed that cannot be exceeded. */
  lemma FixedWhenMet(s: State)
    requires Bounded(s) && s.mtuprobes < 30 && 0 < s.minmtu && s.maxmtu <= s.minmtu
    ensures Tick(s, true).1 == Fix && Tick(s, true).0 == State(31, s.maxmtu, s.maxmtu, s.maxmtu)
  {
  }

  /** Every size above what is confirmed and within the limit may be probed. */
  lemma ProbeReaches(s: State, i: int, len: int) returns (pick: nat)
    requires 0 < i < BURST && s.minmtu < len <= s.maxmtu && len >= 64
    ensures ProbeLength(s, i, pick) == len
  {
    pick := len - s.minmtu - 1;
    SmallMod(pick, s.maxmtu - s.minmtu);
  }

  lemma SmallMod(a: nat, m: nat)
    requires a < m
    ensures a % m == a
  {
  }

  lemma ProbeInRange(s: State, i: int, pick: nat)
    requires Bounded(s) && 0 <= i < BURST && ProbeSent(s, i)
    ensures MIN_PROBE <= ProbeLength(s, i, pick) <= MTU
  {
  }

  /** Every probe but the first is above what is confirmed and within the limit, so that a reply is progress. */
  lemma ProbeRaises(s: State, i: int, pick: nat)
    requires 0 < i < BURST && s.mtuprobes <= 30 && s.minmtu < s.maxmtu && s.maxmtu >= 64
    ensures var len := ProbeLength(s, i, pick); len <= s.maxmtu && Replied(s, len).minmtu > s.minmtu
  {
  }

  /** The first probe is only sent once the MTU is fixed; a reply to it starts the search for a larger one. */
  lemma ProbeGrows(s: State, pick: nat)
    requires Bounded(s) && s.mtuprobes > 30 && s.maxmtu >= 56
    ensures ProbeSent(s, 0) <==> s.maxmtu + 8 < 1451
    ensures var t := Replied(s, ProbeLength(s, 0, pick)); t.maxmtu == 1451 && t.mtuprobes == 10 && t.minmtu == s.minmtu
  {
  }

  const OVERHEAD := 21

  /** Probe i of a burst, if it is sent; the socket may report it as too big. */
  function OneProbe(s: State, i: nat, pick: nat, big: bool): (r: (State, seq<int>)) {
    if !ProbeSent(s, i) then (s, [])
    else
      var len := ProbeLength(s, i, pick);
      (if big then TooBig(s, len + OVERHEAD) else s, [len])
  }

  /** The probes of a burst from number i on; a socket may report any of them as too big. */
  function Bursted(s: State, i: nat, picks: seq<nat>, big: seq<bool>): (r: (State, seq<int>))
    requires i <= BURST == |picks| == |big|
    decreases BURST - i
  {
    if i == BURST then (s, [])
    else
      var (t, sent) := OneProbe(s, i, picks[i], big[i]);
      var (u, more) := Bursted(t, i + 1, picks, big);
      (u, sent + more)
  }

  /** A whole burst: one choice for each probe. */
  function WholeBurst(s: State, picks: seq<nat>, big: seq<bool>): (r: (State, seq<int>))
    requires BURST == |picks| == |big|
  {
    Bursted(s, BURST - |picks|, picks, big)
  }

  /** Every probe of a burst has a length that a probe may have, and the bounds only come down. */
  lemma {:induction false} BurstBounded(s: State, i: nat, picks: seq<nat>, big: seq<bool>)
    requires i <= BURST == |picks| == |big| && Bounded(s)
    ensures var (t, sent) := Bursted(s, i, picks, big);
            && Bounded(t) && t.mtuprobes == s.mtuprobes && t.minmtu == s.minmtu && t.maxmtu <= s.maxmtu
                && t.mtu <= s.mtu
            && |sent| == 5 - i - (if i == 0 && !ProbeSent(s, 0) then 1 else 0)
            && forall j :: 0 <= j < |sent| ==> MIN_PROBE <= sent[j] <= MTU
    decreases BURST - i
  {
    if i < BURST {
      if ProbeSent(s, i) { ProbeInRange(s, i, picks[i]); }
      BurstBounded(OneProbe(s, i, picks[i], big[i]).0, i + 1, picks, big);
    }
  }

  // ----- the handlers

  datatype Event =
    | Timer(up: bool, picks: seq<nat>, big: seq<bool>)
    | Reply(len: int)
    | SendFailed(len: int)
    | Reset
    | Blacklist

  /** Events on a path that answers only probes of up to `path` bytes. */
  predicate Possible(e: Event, path: int) {
    match e
    case Timer(_, picks, big) => |picks| == |big| == BURST
    case Reply(len) => len <= path
    case SendFailed(len) => len > 0
    case _ => true
  }

  class Discovery {
    var mtuprobes: int
    var minmtu: int
    var maxmtu: int
    var mtu: int
    var probes: seq<int>
    ghost var fixed: bool

    ghost function Fields(): State
      reads this
    {
      State(mtuprobes, minmtu, maxmtu, mtu)
    }

    ghost predicate Safe(path: int)
      reads this
    {
      && Bounded(Fields()) && minmtu <= path && (fixed ==> mtu <= path)
      && forall i :: 0 <= i < |probes| ==> MIN_PROBE <= probes[i] <= MTU
    }

    constructor ()
      ensures Fields() == FRESH && probes == [] && !fixed
    {
      mtuprobes, minmtu, maxmtu, mtu, probes, fixed := 0, 0, MTU, MTU, [], false;
    }

    /** The EMSGSIZE branch of send_sptps_data. */
    method Shrink(len: int)
      modifies `maxmtu, `mtu
      ensures Fields() == TooBig(old(Fields()), len)
    {
      if maxmtu >= len { maxmtu := len - 1; }
      if mtu >= len { mtu := len - 1; }
    }

    /** Probe i of a burst. */
    method SendProbe(i: nat, pick: nat, big: bool)
      requires i < BURST
      modifies `maxmtu, `mtu, `probes
      ensures (Fields(), probes) == Logged(old(probes), OneProbe(old(Fields()), i, pick, big))
    {
      var len;
      if i == 0 {
        if mtuprobes < 30 || maxmtu + 8 >= MTU {
          assert probes + [] == probes;
          return;
        }
        len := maxmtu + 8;
      } else if maxmtu <= minmtu {
        len := maxmtu;
      } else {
        len := minmtu + 1 + pick % (maxmtu - minmtu);
      }
      if len < MIN_PROBE { len := MIN_PROBE; }
      probes := probes + [len];
      if big { Shrink(len + OVERHEAD); }
    }

    method SendBurst(picks: seq<nat>, big: seq<bool>)
      requires |picks| == |big| == BURST
      modifies `maxmtu, `mtu, `probes
      ensures (Fields(), probes) == Logged(old(probes), WholeBurst(old(Fields()), picks, big))
    {
      ghost var s, log := Fields(), probes;
      var i := BURST - |picks|;
      while i < BURST
        invariant 0 <= i <= BURST
        invariant Logged(probes, Bursted(Fields(), i, picks, big)) == Logged(log, WholeBurst(s, picks, big))
      {
        LogMore(probes, Fields(), i, picks, big);
        SendProbe(i, picks[i], big[i]);
        i := i + 1;
      }
      assert probes + [] == probes;
    }

    /** The part of send_mtu_probe_handler before the burst. */
    method Decide(up: bool) returns (action: Action)
      modifies `mtuprobes, `minmtu, `maxmtu, `mtu, `fixed
      ensures (Fields(), action) == Tick(old(Fields()), up) && fixed == (old(fixed) || action.Fix?)
    {
      mtuprobes := mtuprobes + 1;
      if !up {
        mtuprobes := 0;
        return Stop;
      }
      if mtuprobes > 32 {
        if minmtu == 0 {
          mtuprobes := 31;
          return Sleep;
        }
        mtuprobes, minmtu, maxmtu := 1, 0, MTU;
      }
      if 10 <= mtuprobes < 32 && minmtu == 0 { mtuprobes := 31; }
      if mtuprobes == 30 || (mtuprobes < 30 && minmtu >= maxmtu) {
        if minmtu > maxmtu { minmtu := maxmtu; } else { maxmtu := minmtu; }
        mtu := minmtu;
        mtuprobes := 31;
        fixed := true;
        return Fix;
      }
      action := if mtuprobes == 31 then Sleep else Burst;
    }

    /** send_mtu_probe_handler. */
    method Timer(up: bool, picks: seq<nat>, big: seq<bool>)
      requires |picks| == |big| == BURST
      modifies this
      ensures var (t, a) := Tick(old(Fields()), up);
              && (Fields(), probes) ==
                  (if a.Burst? then Logged(old(probes), WholeBurst(t, picks, big)) else (t, old(probes)))
              && fixed == (old(fixed) || a.Fix?)
    {
      var action := Decide(up);
      if action == Burst { SendBurst(picks, big); }
    }

    /** The reply branch of mtu_probe_h. */
    method Reply(length: int)
      modifies `mtuprobes, `minmtu, `maxmtu
      ensures Fields() == Replied(old(Fields()), length)
    {
      var len := length;
      if len < MIN_PROBE { return; }
      if mtuprobes > 30 {
        if len == maxmtu + 8 {
          maxmtu, mtuprobes := MTU, 10;
          return;
        }
        mtuprobes := if minmtu != 0 then 30 else 1;
      }
      if len > maxmtu { len := maxmtu; }
      if minmtu < len { minmtu := len; }
    }

    /** One event; a path that answers only probes of up to `path` bytes stays within its bounds. */
    method Handle(e: Event, ghost path: nat)
      requires Safe(path) && Possible(e, path)
      modifies this
      ensures Safe(path) && Fields() == Next(old(Fields()), e)
      ensures e.Timer? && Tick(old(Fields()), e.up).1.Fix? ==> mtu == minmtu == maxmtu
    {
      match e
      case Timer(up, picks, big) =>
        TickBounded(Fields(), up);
        BurstBounded(Tick(Fields(), up).0, BURST - |picks|, picks, big);
        Timer(up, picks, big);
      case Reply(len) =>
        ReplyBounded(Fields(), len, path);
        Reply(len);
      case SendFailed(len) => Shrink(len);
      case Reset => mtuprobes, minmtu, maxmtu := 0, 0, MTU;
      case Blacklist => mtuprobes, minmtu, maxmtu, mtu := 0, 0, MTU, 0;
    }
  }

  /** A burst, added to the probes sent before. */
  function Logged(probes: seq<int>, r: (State, seq<int>)): (State, seq<int>) { (r.0, probes + r.1) }

  lemma LogMore(probes: seq<int>, s: State, i: nat, picks: seq<nat>, big: seq<bool>)
    requires i < BURST == |picks| == |big|
    ensures var (t, sent) := OneProbe(s, i, picks[i], big[i]);
            Logged(probes, Bursted(s, i, picks, big)) == Logged(probes + sent, Bursted(t, i + 1, picks, big))
  {
    var (t, sent) := OneProbe(s, i, picks[i], big[i]);
    var more := Bursted(t, i + 1, picks, big).1;
    assert probes + (sent + more) == probes + sent + more;
  }

  /** What an event makes of the fields. */
  function Next(s: State, e: Event): State {
    match e
    case Timer(up, picks, big) =>
      var (t, a) := Tick(s, up);
      if a.Burst? && |picks| == |big| == BURST then WholeBurst(t, picks, big).0 else t
    case Reply(len) => Replied(s, len)
    case SendFailed(len) => TooBig(s, len)
    case Reset => s.(mtuprobes := 0, minmtu := 0, maxmtu := MTU)
    case Blacklist => State(0, 0, MTU, 0)
  }

  /** A reset forgets everything but the MTU in use, which only blacklisting the node takes away. */
  lemma ResetForgets(s: State)
    ensures Next(s, Reset) == State(0, 0, 1451, s.mtu) && Next(s, Blacklist) == State(0, 0, 1451, 0)
  {
  }

  /** The fields after a run. */
  function From(s: State, events: seq<Event>): State {
    if events == [] then s else Next(From(s, events[..|events| - 1]), events[|events| - 1])
  }

  /** Every run of events from a fresh node is safe. */
  method Run(events: seq<Event>, path: nat) returns (d: Discovery)
    requires forall i :: 0 <= i < |events| ==> Possible(events[i], path)
    ensures d.Safe(path) && d.Fields() == From(FRESH, events)
  {
    d := new Discovery();
    for n := 0 to |events|
      invariant d.Safe(path) && fresh(d) && d.Fields() == From(FRESH, events[..n])
    {
      assert events[..n + 1][..n] == events[..n];
      d.Handle(events[n], path);
    }
    assert events[..|events|] == events;
  }

  // ----- what replies confirm

  predicate Well(events: seq<Event>) { forall i :: 0 <= i < |events| ==> Possible(events[i], MTU) }

  /** Discovery starts over. */
  predicate Restarts(s: State, e: Event) { e.Reset? || e.Blacklist? || (e.Timer? && Overdue(s, e.up)) }

  /** What was confirmed stays so, as far as the limit allows; and the limit itself is kept by all but a few events. */
  lemma NextKeeps(s: State, e: Event)
    requires Bounded(s) && Possible(e, MTU)
    ensures Bounded(Next(s, e)) && (!Restarts(s, e) ==> Next(s, e).minmtu >= Least(s.minmtu, s.maxmtu))
    ensures e.Timer? && Tick(s, e.up).1.Fix? ==> Next(s, e).mtu == Next(s, e).minmtu == Next(s, e).maxmtu
  {
    match e
    case Timer(up, picks, big) =>
      TickBounded(s, up);
      TickMoves(s, up);
      BurstBounded(Tick(s, up).0, BURST - |picks|, picks, big);
    case Reply(len) => ReplyBounded(s, len, MTU);
    case _ =>
  }

  lemma {:induction false} FromBounded(s: State, events: seq<Event>)
    requires Bounded(s) && Well(events)
    ensures Bounded(From(s, events))
  {
    if events != [] {
      var n := |events| - 1;
      FromBounded(s, events[..n]);
      NextKeeps(From(s, events[..n]), events[n]);
    }
  }

  /** The lowest limit from event i on. */
  function Lowest(s: State, events: seq<Event>, i: nat): int
    requires i <= |events|
  {
    if i == |events| then From(s, events).maxmtu
    else Least(From(s, events).maxmtu, Lowest(s, events[..|events| - 1], i))
  }

  /** Event i is a reply of `len` bytes that confirms its length, and the discovery did not start over since. */
  predicate Confirms(s: State, events: seq<Event>, i: nat, len: int) {
    && i < |events| && events[i] == Reply(len) && len >= 64
    && (From(s, events[..i]).mtuprobes > 30 ==> len != From(s, events[..i]).maxmtu + 8)
    && forall k :: i < k < |events| ==> !Restarts(From(s, events[..k]), events[k])
  }

  /** In every run the confirmed size is at least every length that was answered, down to the lowest limit since. */
  lemma {:induction false} ConfirmedStays(s: State, events: seq<Event>, i: nat, len: int)
    requires Bounded(s) && Well(events) && Confirms(s, events, i, len)
    ensures From(s, events).minmtu >= Least(len, Lowest(s, events, i))
    decreases |events|
  {
    var n := |events| - 1;
    var es := events[..n];
    var t := From(s, es);
    FromBounded(s, es);
    if i == n {
      ReplyConfirms(t, len);
      assert From(s, events) == Replied(t, len);
      assert Lowest(s, es, i) == t.maxmtu;
    } else {
      assert forall k :: 0 <= k <= n ==> es[..k] == events[..k];
      ConfirmedStays(s, es, i, len);
      NextKeeps(t, events[n]);
      LowestBound(s, es, i);
    }
  }

  lemma {:induction false} LowestBound(s: State, events: seq<Event>, i: nat)
    requires i <= |events|
    ensures Lowest(s, events, i) <= From(s, events).maxmtu
  {
  }

  /** How many of the events are timer events. */
  function Timers(events: seq<Event>): nat {
    if events == [] then 0 else Timers(events[..|events| - 1]) + if events[|events| - 1].Timer? then 1 else 0
  }

  /** Timer events of a reachable node, replies and errors of the socket. */
  predicate Going(events: seq<Event>) {
    forall i :: 0 <= i < |events| ==> !events[i].Reset? && !events[i].Blacklist? && (events[i].Timer? ==> events[i].up)
  }

  predicate FixesAt(s: State, events: seq<Event>, k: nat) {
    k < |events| && events[k].Timer? && Tick(From(s, events[..k]), true).1.Fix?
  }

  lemma NotYet(s: State, e: Event)
    requires Bounded(s) && Possible(e, MTU) && Going([e]) && s.minmtu > 0 && s.mtuprobes < 30
    requires !(e.Timer? && Tick(s, true).1.Fix?)
    ensures Next(s, e).minmtu > 0 && Next(s, e).mtuprobes == s.mtuprobes + (if e.Timer? then 1 else 0) < 30
  {
    assert [e][0] == e;
    if e.Timer? { BurstBounded(Tick(s, true).0, BURST - |e.picks|, e.picks, e.big); }
  }

  lemma {:induction false} UnfixedStill(s: State, events: seq<Event>)
    requires Bounded(s) && Well(events) && Going(events) && s.minmtu > 0 && s.mtuprobes < 30
    requires forall k :: 0 <= k < |events| ==> !FixesAt(s, events, k)
    ensures var t := From(s, events); t.minmtu > 0 && t.mtuprobes == s.mtuprobes + Timers(events) < 30
  {
    if events != [] {
      var n := |events| - 1;
      var es := events[..n];
      forall k | 0 <= k < n ensures !FixesAt(s, es, k) {
        assert es[..k] == events[..k];
        assert !FixesAt(s, events, k);
      }
      UnfixedStill(s, es);
      FromBounded(s, es);
      assert !FixesAt(s, events, n);
      NotYet(From(s, es), events[n]);
    }
  }

  /** Once a size is confirmed, the MTU is fixed before the timer has counted to 30, whatever else happens. */
  lemma {:induction false} FixedInTime(s: State, events: seq<Event>)
    requires Bounded(s) && Well(events) && Going(events) && s.minmtu > 0 && s.mtuprobes < 30
    requires Timers(events) >= 30 - s.mtuprobes
    ensures exists k: nat :: FixesAt(s, events, k)
  {
    if forall k: nat :: !FixesAt(s, events, k) {
      UnfixedStill(s, events);
      assert false;
    }
  }

  // ----- a path that never answers

  /** The random choices of a burst, and what the socket reports. */
  datatype Choice = Choice(picks: seq<nat>, big: seq<bool>)

  predicate Whole(cs: seq<Choice>) { forall i :: 0 <= i < |cs| ==> |cs[i].picks| == |cs[i].big| == BURST }

  /** A node after timer events to which no reply came. */
  function Quiet(cs: seq<Choice>): State
    requires Whole(cs)
  {
    if cs == [] then FRESH
    else Ticked(Quiet(cs[..|cs| - 1]), cs[|cs| - 1])
  }

  /** One timer event. */
  function Ticked(s: State, c: Choice): State
    requires |c.picks| == |c.big| == BURST
  {
    var (t, a) := Tick(s, true);
    if a.Burst? then WholeBurst(t, c.picks, c.big).0 else t
  }

  /** How many of the events led to a burst. */
  function Bursts(cs: seq<Choice>): nat
    requires Whole(cs)
  {
    if cs == [] then 0
    else Bursts(cs[..|cs| - 1]) + if Tick(Quiet(cs[..|cs| - 1]), true).1.Burst? then 1 else 0
  }

  /** What the socket can lower the limit to. */
  const LEAST := MIN_PROBE + OVERHEAD - 1

  lemma ProbeFloor(s: State, i: int, pick: nat)
    requires s.maxmtu >= LEAST
    ensures TooBig(s, ProbeLength(s, i, pick) + OVERHEAD).maxmtu >= LEAST
  {
  }

  lemma {:induction false} BurstFloor(s: State, i: nat, picks: seq<nat>, big: seq<bool>)
    requires i <= BURST == |picks| == |big| && s.maxmtu >= LEAST
    ensures Bursted(s, i, picks, big).0.maxmtu >= LEAST
    decreases BURST - i
  {
    if i < BURST {
      ProbeFloor(s, i, picks[i]);
      BurstFloor(OneProbe(s, i, picks[i], big[i]).0, i + 1, picks, big);
    }
  }

  /** A node after n timer events without a reply. */
  predicate QuietAt(s: State, n: nat) {
    s.mtuprobes == (if n < 10 then n else if n % 2 == 0 then 31 else 32) && s.minmtu == 0 && LEAST <= s.maxmtu
        && Bounded(s)
  }

  lemma QuietTick(s: State, n: nat)
    requires QuietAt(s, n)
    ensures Tick(s, true).1 == (if n < 9 || (n > 9 && n % 2 == 0) then Burst else Sleep)
            && QuietAt(Tick(s, true).0, n + 1)
  {
  }

  lemma QuietTicked(s: State, n: nat, c: Choice)
    requires QuietAt(s, n) && |c.picks| == |c.big| == BURST
    ensures QuietAt(Ticked(s, c), n + 1)
  {
    QuietTick(s, n);
    var t := Tick(s, true).0;
    BurstBounded(t, BURST - |c.picks|, c.picks, c.big);
    BurstFloor(t, BURST - |c.picks|, c.picks, c.big);
  }

  lemma {:induction false} QuietAll(cs: seq<Choice>)
    requires Whole(cs)
    ensures QuietAt(Quiet(cs), |cs|)
  {
    if cs != [] {
      QuietAll(cs[..|cs| - 1]);
      QuietTicked(Quiet(cs[..|cs| - 1]), |cs| - 1, cs[|cs| - 1]);
    }
  }

  /** How many of the first n timer events lead to a burst when no reply comes. */
  function Expected(n: nat): nat { if n <= 9 then n else 9 + (n - 9) / 2 }

  lemma ExpectedMore(n: nat)
    ensures Expected(n + 1) == Expected(n) + if n < 9 || (n > 9 && n % 2 == 0) then 1 else 0
  {
  }

  /**
   * Without replies, whatever the socket reports: after nine bursts the node gives up, and from then on there is one
   * burst every other time; no size is ever confirmed and the MTU is never fixed.
   */
  lemma {:induction false} Unanswered(cs: seq<Choice>)
    requires Whole(cs)
    ensures QuietAt(Quiet(cs), |cs|) && Bursts(cs) == Expected(|cs|)
    ensures var n := |cs|; Tick(Quiet(cs), true).1 == if n < 9 || (n > 9 && n % 2 == 0) then Burst else Sleep
  {
    QuietAll(cs);
    QuietTick(Quiet(cs), |cs|);
    if cs != [] {
      Unanswered(cs[..|cs| - 1]);
      ExpectedMore(|cs| - 1);
    }
  }
}
