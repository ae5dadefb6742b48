/** Replay protection of SPTPS datagrams: a sliding window of 256 sequence numbers kept in a
    circular bitmap of 32 bytes, in which a 1 bit means "not received yet".

    Packets are taken after authentication.  Sequence numbers are 32-bit unsigned. */
module ReplayWindow {
  import opened Wrappers

  const REPLAYWIN: nat := 32

  /** What the window stands for: the next expected number and every number already taken. */
  datatype Window = Window(inseqno: nat, taken: set<nat>)

  ghost predicate Fresh(w: Window, seqno: nat) {
    seqno !in w.taken && seqno + 256 >= w.inseqno
  }

  ghost function Take(w: Window, seqno: nat): Window {
    if !Fresh(w, seqno) then w
    else Window(if seqno >= w.inseqno then seqno + 1 else w.inseqno, w.taken + {seqno})
  }

  /** The numbers below n. */
  ghost function Below(n: nat): (r: set<nat>)
    ensures forall i: nat :: i in r <==> i < n
  {
    if n == 0 then {} else Below(n - 1) + {n - 1}
  }

  // ----- bits

  function Mask(b: nat): bv8
    requires b < 8
  {
    if b == 0 then 1 else if b == 1 then 2 else if b == 2 then 4 else if b == 3 then 8
    else if b == 4 then 16 else if b == 5 then 32 else if b == 6 then 64 else 128
  }

  predicate Bit(late: seq<bv8>, i: nat)
    requires |late| == 32
  {
    late[(i / 8) % 32] & Mask(i % 8) != 0
  }

  lemma SetBit(v: bv8, a: nat, b: nat)
    requires a < 8 && b < 8
    ensures (v | Mask(a)) & Mask(b) != 0 <==> a == b || v & Mask(b) != 0
  {
  }

  lemma ClearBit(v: bv8, a: nat, b: nat)
    requires a < 8 && b < 8
    ensures (v & !Mask(a)) & Mask(b) != 0 <==> a != b && v & Mask(b) != 0
  {
  }

  /** Two numbers less than 256 apart never share a bit. */
  lemma Apart(i: nat, j: nat)
    requires i - 256 < j < i + 256 && (i / 8) % 32 == (j / 8) % 32 && i % 8 == j % 8
    ensures i == j
  {
  }

  lemma {:induction false} AfterSet(late: seq<bv8>, i: nat, j: nat)
    requires |late| == 32 && i - 256 < j < i + 256
    ensures var k := (i / 8) % 32; Bit(late[k := late[k] | Mask(i % 8)], j) <==> i == j || Bit(late, j)
  {
    var k := (i / 8) % 32;
    if k == (j / 8) % 32 {
      SetBit(late[k], i % 8, j % 8);
      if i % 8 == j % 8 { Apart(i, j); }
    }
  }

  lemma AfterClear(late: seq<bv8>, i: nat, j: nat)
    requires |late| == 32 && i - 256 < j < i + 256
    ensures var k := (i / 8) % 32; Bit(late[k := late[k] & !Mask(i % 8)], j) <==> i != j && Bit(late, j)
  {
    var k := (i / 8) % 32;
    if k == (j / 8) % 32 {
      ClearBit(late[k], i % 8, j % 8);
      if i % 8 == j % 8 { Apart(i, j); }
    }
  }

  /** The bitmap shows, for the last 256 numbers below `inseqno`, which are still missing. */
  ghost predicate Shows(late: seq<bv8>, w: Window) {
    && |late| == 32
    && (forall i :: i in w.taken ==> i < w.inseqno)
    && forall i: nat :: w.inseqno - 256 <= i < w.inseqno ==> (Bit(late, i) <==> i !in w.taken)
  }

  /** No 32-bit sum formed while handling the packet overflows. */
  predicate Unwrapped(inseqno: nat, seqno: nat) {
    inseqno + 256 < 0x1_0000_0000 && seqno + 1 < 0x1_0000_0000
  }

  /** `marked` is `was` with everything from `inseqno` up to `seqno` marked missing. */
  ghost predicate Marked(was: seq<bv8>, marked: seq<bv8>, w: Window, seqno: nat)
    requires |was| == 32
  {
    && |marked| == 32
    && if seqno >= w.inseqno + 256 then forall j: nat :: Bit(marked, j)
       else if seqno <= w.inseqno then marked == was
       else forall j: nat :: seqno - 256 < j < w.inseqno + 256 ==>
              (Bit(marked, j) <==> w.inseqno <= j < seqno || Bit(was, j))
  }

  /** The decision the code takes, with its 32-bit sum. */
  predicate Passes(late: seq<bv8>, inseqno: nat, seqno: nat)
    requires |late| == 32
  {
    || seqno == inseqno
    || seqno >= Wrap32(inseqno + REPLAYWIN * 8)
    || seqno >= inseqno
    || !((inseqno >= REPLAYWIN * 8 && seqno < inseqno - REPLAYWIN * 8) || !Bit(late, seqno))
  }

  /** Below the 32-bit bound, the code's decision is the specified one. */
  lemma PassesFresh(late: seq<bv8>, w: Window, seqno: nat)
    requires Shows(late, w) && w.inseqno + 256 < 0x1_0000_0000
    ensures Passes(late, w.inseqno, seqno) <==> Fresh(w, seqno)
  {
    if seqno < w.inseqno && seqno + 256 >= w.inseqno {
      assert Bit(late, seqno) <==> seqno !in w.taken;
    }
  }

  /** The code decides as specified for every window with this next number. */
  ghost predicate Sound(inseqno: nat) {
    forall late: seq<bv8>, w: Window, seqno: nat :: w.inseqno == inseqno && seqno < 0x1_0000_0000 && Shows(late, w) ==>
      (Passes(late, inseqno, seqno) <==> Fresh(w, seqno))
  }

  lemma NothingMissing(late: seq<bv8>, n: nat)
    requires |late| == 32 && forall k :: 0 <= k < 32 ==> late[k] == 0
    ensures Shows(late, Window(n, Below(n)))
  {
    forall i: nat ensures !Bit(late, i) {
      var zero: bv8 := 0;
      assert late[(i / 8) % 32] == zero;
      assert zero & Mask(i % 8) == 0;
    }
  }

  /** The bound is exact: with a next number of 2^32 - 256 or more, a packet can be accepted twice. */
  lemma SoundExactly(inseqno: nat)
    requires inseqno < 0x1_0000_0000
    ensures Sound(inseqno) <==> inseqno + 256 < 0x1_0000_0000
  {
    if inseqno + 256 < 0x1_0000_0000 {
      forall late: seq<bv8>, w: Window, seqno: nat | w.inseqno == inseqno && seqno < 0x1_0000_0000 && Shows(late, w)
        ensures Passes(late, inseqno, seqno) <==> Fresh(w, seqno)
      {
        PassesFresh(late, w, seqno);
      }
    } else {
      var late: seq<bv8> := seq(32, _ => 0);
      var w := Window(inseqno, Below(inseqno));
      NothingMissing(late, inseqno);
      assert Wrap32(inseqno + 256) == inseqno + 256 - 0x1_0000_0000;
      assert Passes(late, inseqno, inseqno - 1) && !Fresh(w, inseqno - 1);
    }
  }

  class Replay {
    var late: array<bv8>
    var inseqno: nat
    ghost var taken: set<nat>

    ghost function View(): Window
      reads this
    {
      Window(inseqno, taken)
    }

    ghost predicate Valid()
      reads this, late
    {
      late.Length == 32 && Shows(late[..], View())
    }

    /** A session whose first `handshakes` records went through before encryption started. */
    constructor (handshakes: nat)
      ensures Valid() && fresh(late)
      ensures View() == Window(handshakes, Below(handshakes))
    {
      late := new bv8[32](i => 0);
      inseqno := handshakes;
      taken := Below(handshakes);
      new;
      NothingMissing(late[..], inseqno);
    }

    /** Take or drop one authenticated packet.  The promise holds as long as no 32-bit sum wraps. */
    method Receive(seqno: nat) returns (ok: bool)
      requires late.Length == 32 && seqno < 0x1_0000_0000 && inseqno < 0x1_0000_0000
      modifies this, late
      ensures late == old(late) && ok == Passes(old(late[..]), old(inseqno), seqno)
      ensures inseqno == if ok && seqno >= old(inseqno) then Wrap32(seqno + 1) else old(inseqno)
      ensures old(Valid()) && old(inseqno) + 256 < 0x1_0000_0000 ==> ok == Fresh(old(View()), seqno)
      ensures old(Valid()) && Unwrapped(old(inseqno), seqno) ==> Valid() && View() == Take(old(View()), seqno)
    {
      ghost var was := late[..];
      if Valid() && inseqno + 256 < 0x1_0000_0000 { PassesFresh(was, View(), seqno); }
      ok := Screen(seqno);
      if ok { Accept(seqno, was); }
    }

    /** Record an accepted number; `was` is the bitmap before it was brought up to `seqno`. */
    method Accept(seqno: nat, ghost was: seq<bv8>)
      requires late.Length == 32 && seqno < 0x1_0000_0000 && |was| == 32
      requires Shows(was, View()) && Unwrapped(inseqno, seqno) ==>
                 Marked(was, late[..], View(), seqno) && Fresh(View(), seqno)
      modifies this, late
      ensures late == old(late) && inseqno == if seqno >= old(inseqno) then Wrap32(seqno + 1) else old(inseqno)
      ensures Shows(was, old(View())) && Unwrapped(old(inseqno), seqno) ==>
                Valid() && View() == Take(old(View()), seqno)
    {
      ghost var w := View();
      ghost var w' := Take(w, seqno);
      ghost var known := Shows(was, w) && Unwrapped(inseqno, seqno);
      if known { Accepted(was, late[..], w, seqno); }
      ClearLate(seqno);
      assert known ==> Shows(late[..], w');
      taken := taken + {seqno};
      if seqno >= inseqno { inseqno := Wrap32(seqno + 1); }
      assert known ==> View() == w';
    }

    /** Mark `seqno` itself as received. */
    method ClearLate(seqno: nat)
      requires late.Length == 32
      modifies late
      ensures var k := (seqno / 8) % 32; var was := old(late[..]);
              late[..] == was[k := was[k] & !Mask(seqno % 8)]
    {
      var k := (seqno / 8) % REPLAYWIN;
      late[k] := late[k] & !Mask(seqno % 8);
    }

    /** Drop late or replayed packets; for others bring the bitmap up to `seqno`. */
    method Screen(seqno: nat) returns (ok: bool)
      requires late.Length == 32 && seqno < 0x1_0000_0000
      modifies late
      ensures ok == Passes(old(late[..]), inseqno, seqno)
      ensures !ok ==> late[..] == old(late[..])
      ensures ok && Unwrapped(inseqno, seqno) ==> Marked(old(late[..]), late[..], View(), seqno)
    {
      ok := true;
      if seqno == inseqno { return; }
      if seqno >= Wrap32(inseqno + REPLAYWIN * 8) {
        MarkAll();
      } else if seqno < inseqno {
        if || (inseqno >= REPLAYWIN * 8 && seqno < inseqno - REPLAYWIN * 8)
           || late[(seqno / 8) % REPLAYWIN] & Mask(seqno % 8) == 0 {
          return false;
        }
      } else {
        MarkLate(seqno);
      }
    }

    /** Mark the whole window as missing. */
    method MarkAll()
      requires late.Length == 32
      modifies late
      ensures forall j: nat :: Bit(late[..], j)
    {
      forall k | 0 <= k < 32 { late[k] := 255; }
      AllSet(late[..]);
    }

    /** Mark the numbers from `inseqno` up to `seqno` as missing. */
    method MarkLate(seqno: nat)
      requires late.Length == 32 && inseqno <= seqno < inseqno + 256
      modifies late
      ensures forall j: nat :: seqno - 256 < j < inseqno + 256 ==>
                (Bit(late[..], j) <==> inseqno <= j < seqno || old(Bit(late[..], j)))
    {
      var i := inseqno;
      while i < seqno
        invariant inseqno <= i <= seqno
        invariant forall j: nat :: seqno - 256 < j < inseqno + 256 ==>
                    (Bit(late[..], j) <==> inseqno <= j < i || old(Bit(late[..], j)))
      {
        ghost var before := late[..];
        var k := (i / 8) % REPLAYWIN;
        late[k] := late[k] | Mask(i % 8);
        assert late[..] == before[k := before[k] | Mask(i % 8)];
        forall j: nat | seqno - 256 < j < inseqno + 256
          ensures Bit(late[..], j) <==> i == j || Bit(before, j)
        {
          AfterSet(before, i, j);
        }
        i := i + 1;
      }
    }
  }

  lemma AllSet(late: seq<bv8>)
    requires |late| == 32 && forall k :: 0 <= k < 32 ==> late[k] == 255
    ensures forall j: nat :: Bit(late, j)
  {
    forall j: nat ensures Bit(late, j) {
      var full: bv8 := 255;
      assert late[(j / 8) % 32] == full;
      assert full & Mask(j % 8) != 0;
    }
  }

  /** After marking, the bitmap already shows every number but `seqno` itself correctly. */
  lemma MarkedShows(was: seq<bv8>, marked: seq<bv8>, w: Window, seqno: nat, i: nat)
    requires Shows(was, w) && Marked(was, marked, w, seqno) && Fresh(w, seqno) && i != seqno
    requires var n := Take(w, seqno).inseqno; n - 256 <= i < n
    ensures Bit(marked, i) <==> i !in w.taken
  {
    if seqno > w.inseqno && seqno < w.inseqno + 256 {
      assert Bit(marked, i) <==> w.inseqno <= i < seqno || Bit(was, i);
      if i < w.inseqno { assert Bit(was, i) <==> i !in w.taken; }
    } else if seqno < w.inseqno {
      assert Bit(was, i) <==> i !in w.taken;
    } else if seqno == w.inseqno {
      assert Bit(was, i) <==> i !in w.taken;
    }
  }

  lemma Accepted(was: seq<bv8>, marked: seq<bv8>, w: Window, seqno: nat)
    requires Shows(was, w) && Marked(was, marked, w, seqno) && Fresh(w, seqno)
    ensures var k := (seqno / 8) % 32; Shows(marked[k := marked[k] & !Mask(seqno % 8)], Take(w, seqno))
  {
    var k := (seqno / 8) % 32;
    var cleared := marked[k := marked[k] & !Mask(seqno % 8)];
    var w' := Take(w, seqno);
    forall i: nat | w'.inseqno - 256 <= i < w'.inseqno
      ensures Bit(cleared, i) <==> i !in w'.taken
    {
      assert Bit(cleared, i) <==> seqno != i && Bit(marked, i) by { AfterClear(marked, seqno, i); }
      if i != seqno { MarkedShows(was, marked, w, seqno, i); }
    }
  }

  // ----- whole runs

  ghost function After(w: Window, packets: seq<nat>): Window {
    if packets == [] then w else Take(After(w, packets[..|packets| - 1]), packets[|packets| - 1])
  }

  lemma {:induction false} TakenGrows(w: Window, packets: seq<nat>, i: nat)
    requires i <= |packets|
    ensures After(w, packets[..i]).taken <= After(w, packets).taken
    ensures After(w, packets[..i]).inseqno <= After(w, packets).inseqno
    decreases |packets|
  {
    if i < |packets| {
      var n := |packets| - 1;
      TakenGrows(w, packets[..n], i);
      assert packets[..n][..i] == packets[..i];
    } else {
      assert packets[..i] == packets;
    }
  }

  /** In every run each number is accepted at most once, however packets are lost, reordered or replayed. */
  lemma NeverTwice(w: Window, packets: seq<nat>, i: nat, j: nat)
    requires i < j < |packets| && packets[i] == packets[j]
    requires Fresh(After(w, packets[..i]), packets[i])
    ensures !Fresh(After(w, packets[..j]), packets[j])
  {
    assert packets[..i + 1][..i] == packets[..i];
    assert packets[i] in After(w, packets[..i + 1]).taken;
    TakenGrows(w, packets[..j], i + 1);
    assert packets[..j][..i + 1] == packets[..i + 1];
  }

  /** Whatever is in `taken` was accepted from some packet of the run. */
  lemma {:induction false} TakenAreAccepted(w: Window, packets: seq<nat>, x: nat)
    requires x in After(w, packets).taken && x !in w.taken
    ensures exists i :: 0 <= i < |packets| && packets[i] == x && Fresh(After(w, packets[..i]), x)
    decreases |packets|
  {
    var n := |packets| - 1;
    var w1 := After(w, packets[..n]);
    if x in w1.taken {
      TakenAreAccepted(w, packets[..n], x);
      var i :| 0 <= i < n && packets[..n][i] == x && Fresh(After(w, packets[..n][..i]), x);
      assert packets[..n][..i] == packets[..i];
    } else {
      assert packets[n] == x && Fresh(After(w, packets[..n]), x);
    }
  }

  /** Which packet of a run is accepted: one whose number was neither taken before the run nor
      accepted earlier in it, and that is no more than 256 behind. */
  lemma AcceptedExactly(w: Window, packets: seq<nat>, j: nat)
    requires j < |packets|
    ensures Fresh(After(w, packets[..j]), packets[j]) <==>
              && packets[j] !in w.taken
              && packets[j] + 256 >= After(w, packets[..j]).inseqno
              && !exists i :: 0 <= i < j && packets[i] == packets[j] && Fresh(After(w, packets[..i]), packets[i])
  {
    var x := packets[j];
    assert packets[..j][..0] == [];
    TakenGrows(w, packets[..j], 0);
    forall i: nat | i < j && packets[i] == x && Fresh(After(w, packets[..i]), packets[i])
      ensures !Fresh(After(w, packets[..j]), x)
    {
      NeverTwice(w, packets, i, j);
    }
    if x in After(w, packets[..j]).taken && x !in w.taken {
      TakenAreAccepted(w, packets[..j], x);
      var i :| 0 <= i < j && packets[..j][i] == x && Fresh(After(w, packets[..j][..i]), x);
      assert packets[..j][..i] == packets[..i];
    }
  }

  /** Packet j is accepted exactly when its number is new, was not accepted earlier in the run and is not too old. */
  ghost predicate Decided(w: Window, packets: seq<nat>, oks: seq<bool>, j: nat)
    requires j < |packets| && j < |oks|
  {
    oks[j] <==>
      && packets[j] !in w.taken && packets[j] + 256 >= After(w, packets[..j]).inseqno
      && !exists i :: 0 <= i < j && packets[i] == packets[j] && oks[i]
  }

  /** No number is accepted twice. */
  ghost predicate Once(packets: seq<nat>, oks: seq<bool>)
    requires |oks| <= |packets|
  {
    forall i, j :: 0 <= i < j < |oks| && packets[i] == packets[j] && oks[i] ==> !oks[j]
  }

  ghost predicate Recorded(w: Window, packets: seq<nat>, oks: seq<bool>) {
    |oks| <= |packets| && forall i :: 0 <= i < |oks| ==> oks[i] == Fresh(After(w, packets[..i]), packets[i])
  }

  lemma AllDecided(w: Window, packets: seq<nat>, oks: seq<bool>)
    requires Recorded(w, packets, oks)
    ensures forall j :: 0 <= j < |oks| ==> Decided(w, packets, oks, j)
    ensures Once(packets, oks)
  {
    forall j | 0 <= j < |oks| ensures Decided(w, packets, oks, j) { AcceptedExactly(w, packets, j); }
    forall i, j | 0 <= i < j < |oks| && packets[i] == packets[j] && oks[i] ensures !oks[j] {
      assert Decided(w, packets, oks, j);
    }
  }

  /**
   * Any run of packets through the bitmap, however they are lost, reordered or replayed, while no 32-bit sum wraps:
   * no number is accepted twice, and none is refused that is new and no more than 256 behind.
   */
  method Run(r: Replay, packets: seq<nat>) returns (oks: seq<bool>)
    requires r.Valid() && r.inseqno + 256 < 0x1_0000_0000
    requires forall i :: 0 <= i < |packets| ==> packets[i] + 257 < 0x1_0000_0000
    modifies r, r.late
    ensures r.Valid() && r.View() == After(old(r.View()), packets)
    ensures |oks| == |packets| && forall j :: 0 <= j < |packets| ==> Decided(old(r.View()), packets, oks, j)
    ensures Once(packets, oks)
  {
    ghost var w := r.View();
    oks := [];
    for n := 0 to |packets|
      invariant r.Valid() && r.late == old(r.late) && r.View() == After(w, packets[..n])
                && r.inseqno + 256 < 0x1_0000_0000
      invariant |oks| == n && Recorded(w, packets, oks)
    {
      assert After(w, packets[..n + 1]) ==
             Take(After(w, packets[..n]), packets[n]) by { assert packets[..n + 1][..n] == packets[..n]; }
      var ok := r.Receive(packets[n]);
      oks := oks + [ok];
    }
    assert packets[..|packets|] == packets;
    AllDecided(w, packets, oks);
  }

  /** The 32-bit bound is needed: the last number before the counter wraps to 0 is accepted, and then accepted again. */
  method WrapReplays(r: Replay) returns (first: bool, second: bool)
    requires r.late.Length == 32 && r.inseqno == 0xffff_ffff
    modifies r, r.late
    ensures first && second
  {
    first := r.Receive(0xffff_ffff);
    assert r.inseqno == 0;
    second := r.Receive(0xffff_ffff);
  }
}
