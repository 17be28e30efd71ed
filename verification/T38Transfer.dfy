/** Whole T.38 bursts from pump to peer: control frames, ECM frame streams and image bits,
    over a lossless packet stream and over UDPTL. */
module T38Transfer {
  import opened BitIo
  import opened T38Ifp
  import opened T38Pump
  import opened T38Bursts
  import U = Udptl

  // ---------------------------------------------------------------- image bits

  /** The bits that fill whole octets. */
  function Whole(b: Bits): Bits {
    b[..8 * (|b| / 8)]
  }

  function Zeros(n: nat): (b: Bits)
    ensures |b| == n
  {
    seq(n, _ => false)
  }

  /** Octets of the zero trailer: 200 ms of carrier. */
  function Trailer(rate: nat): nat {
    rate * 200 / 8000
  }

  predicate ImageShape(s: Tx, fast: bool) {
    && s.rate > 0 && s.dt < 9 && 3 <= s.ind < 16 && fast == (s.ind != V21_PREAMBLE) && s.follow.FollowImage?
    && (s.indLeft > 0 ==> !fast)
  }

  /** What holds between pump and peer in every phase of an image burst. */
  predicate Imaging(l: Link, r: Rx, all: Bits, fast: bool) {
    var h := Peer(r, l.sent);
    var s := l.tx;
    var up := Rx([], true, fast);
    && ImageShape(s, fast) && (l.steps == if s.phase.Idle? then 1 else 0)
    && match s.phase
       case Preamble => h.out == [] && !(h.rx.carrier && h.rx.fast) && s.bits == all
       case PreambleWait => h == Handled(up, Opening(fast)) && s.bits == all && s.next.NonEcm?
       case NonEcm => Streaming(s.bits, h, all, fast)
       case NonEcmTrail => Trailing(s.rate, s.trailer, h, all, fast)
       case NonEcmEnd => h == Handled(up, Opening(fast) + BitsUp(Whole(all) + Zeros(8 * Trailer(s.rate))))
       case Idle =>
         h == Handled(Rx([], false, false), Opening(fast) + BitsUp(Whole(all) + Zeros(8 * Trailer(s.rate))) + Closing(fast))
       case _ => false
  }

  /** All bits but those still to come have arrived, in whole octets. */
  predicate Streaming(left: Bits, h: Handled, all: Bits, fast: bool) {
    && |left| <= |all| && (|all| - |left|) % 8 == 0 && all[|all| - |left|..] == left
    && h == Handled(Rx([], true, fast), Opening(fast) + BitsUp(all[..|all| - |left|]))
  }

  predicate Trailing(rate: nat, trailer: nat, h: Handled, all: Bits, fast: bool) {
    && trailer <= Trailer(rate)
    && h == Handled(Rx([], true, fast), Opening(fast) + BitsUp(Whole(all) + Zeros(8 * (Trailer(rate) - trailer))))
  }

  lemma BitsUpAppend(a: Bits, b: Bits)
    ensures BitsUp(a + b) == BitsUp(a) + BitsUp(b)
  {
  }

  lemma PreambleImages(l: Link, r: Rx, all: Bits, fast: bool, tick: int)
    requires Imaging(l, r, all, fast) && l.tx.phase.Preamble?
    ensures Imaging(Advance(l, tick), r, all, fast)
  {
    hide Peer, RevAll, IndicatorDelay;
    var s := l.tx;
    PeerNext(r, l.sent, Indicator(s.ind));
    assert Peer(r, l.sent).out + Opening(fast) == Opening(fast);
    var k := Advance(l, tick);
    assert k.sent == l.sent + [Indicator(s.ind)];
    assert all[|all| - |s.bits|..] == all && all[..|all| - |s.bits|] == [];
    assert BitsUp([]) == [] && Opening(fast) + [] == Opening(fast);
  }

  lemma WaitImages(l: Link, r: Rx, all: Bits, fast: bool, tick: int)
    requires Imaging(l, r, all, fast) && l.tx.phase.PreambleWait?
    ensures Imaging(Advance(l, tick), r, all, fast)
  {
    hide Peer, RevAll;
    var s, k := l.tx, Advance(l, tick);
    assert k.sent == l.sent;
    assert all[|all| - |s.bits|..] == all && all[..|all| - |s.bits|] == [];
    assert BitsUp([]) == [] && Opening(fast) + [] == Opening(fast);
  }

  /** The peer after image octets. */
  lemma OctetsArrive(r: Rx, sent: seq<Packet>, dt: nat, p: Octets)
    ensures var h := Peer(r, sent); Peer(r, sent + [Data(dt, NONECM_DATA, p)]) == Handled(h.rx, h.out + BitsUp(Unpack(p)))
  {
    hide Peer, Unpack;
    PeerNext(r, sent, Data(dt, NONECM_DATA, p));
  }

  /** Octets taken in a tick. */
  function Taken(s: Tx, ms: nat): (n: nat)
    ensures 8 * n <= |s.bits|
  {
    var want := Min(Paced(s.rate, ms, 8), MAX_IMAGE);
    if |s.bits| < 8 * want then |s.bits| / 8 else want
  }

  lemma BitsArrive(r: Rx, sent: seq<Packet>, s: Tx, ms: nat, all: Bits, done: nat, o: seq<Output>)
    requires done <= |all| && all[done..] == s.bits && Peer(r, sent).out == o + BitsUp(all[..done])
    ensures var n := Taken(s, ms); var t := TickImage(s, ms);
            && done + 8 * n <= |all|
            && Peer(r, sent + t.sent) == Handled(Peer(r, sent).rx, o + BitsUp(all[..done + 8 * n]))
  {
    hide Peer, Pack, BitsUp, Paced;
    var n := Taken(s, ms);
    var chunk := s.bits[..8 * n];
    ChunkOfBits(r, sent, s.dt, chunk);
    BitsUpAppend(all[..done], chunk);
    assert all[..done] + chunk == all[..done + 8 * n];
    assert (o + BitsUp(all[..done])) + BitsUp(chunk) == o + (BitsUp(all[..done]) + BitsUp(chunk));
    if n == 0 { assert sent + [] == sent; }
  }

  lemma TakenMeans(s: Tx, ms: nat)
    requires s.phase.NonEcm?
    ensures var n := Taken(s, ms); var t := TickImage(s, ms);
            && !t.done
            && if t.tx.phase == s.phase then t.tx == s.(bits := s.bits[8 * n..])
               else n == |s.bits| / 8 && t.tx == s.(bits := [], trailer := Trailer(s.rate), phase := NonEcmTrail)
  {
    hide Pack, Paced;
  }

  lemma BitsImage(l: Link, r: Rx, all: Bits, fast: bool, tick: int)
    requires Imaging(l, r, all, fast) && l.tx.phase.NonEcm?
    ensures Imaging(Advance(l, tick), r, all, fast)
  {
    hide Peer, TickImage, Streaming, Trailing, Taken;
    var ms: nat := if tick <= 0 then 30 else tick;
    var s := l.tx;
    var t := TickImage(s, ms);
    TakenMeans(s, ms);
    BitsStream(s, r, l.sent, all, fast, ms);
    assert Advance(l, tick) == Link(t.tx, l.sent + t.sent, l.steps);
  }

  lemma BitsStream(s: Tx, r: Rx, sent: seq<Packet>, all: Bits, fast: bool, ms: nat)
    requires s.phase.NonEcm? && Streaming(s.bits, Peer(r, sent), all, fast)
    ensures var t := TickImage(s, ms); var h := Peer(r, sent + t.sent);
            if t.tx.phase == s.phase then Streaming(t.tx.bits, h, all, fast) else Trailing(s.rate, t.tx.trailer, h, all, fast)
  {
    hide Peer, BitsUp, Opening, TickImage, Taken, Whole, Zeros, Trailer;
    var done := |all| - |s.bits|;
    var t, n := TickImage(s, ms), Taken(s, ms);
    BitsArrive(r, sent, s, ms, all, done, Opening(fast));
    TakenMeans(s, ms);
    if t.tx.phase == s.phase {
      assert all[done + 8 * n..] == s.bits[8 * n..];
    } else {
      WholeLength(|all|, |s.bits|);
      WholeIs(all, Trailer(s.rate));
    }
  }

  lemma WholeIs(all: Bits, t: nat)
    ensures all[..8 * (|all| / 8)] == Whole(all) + Zeros(8 * (t - t))
  {
  }

  lemma WholeLength(all: nat, left: nat)
    requires left <= all && (all - left) % 8 == 0
    ensures all - left + 8 * (left / 8) == 8 * (all / 8)
  {
  }

  /** Whole octets arrive as their bits; nothing is sent for none. */
  lemma ChunkOfBits(r: Rx, sent: seq<Packet>, dt: nat, chunk: Bits)
    requires |chunk| % 8 == 0
    ensures var h := Peer(r, sent);
            && Peer(r, sent + [Data(dt, NONECM_DATA, Pack(chunk))]) == Handled(h.rx, h.out + BitsUp(chunk))
            && (chunk == [] ==> h.out + BitsUp(chunk) == h.out)
  {
    hide Peer, Pack, Unpack;
    UnpackPack(chunk);
    assert chunk[..8 * (|chunk| / 8)] == chunk;
    OctetsArrive(r, sent, dt, Pack(chunk));
  }

  lemma TrailImages(l: Link, r: Rx, all: Bits, fast: bool, tick: int)
    requires Imaging(l, r, all, fast) && l.tx.phase.NonEcmTrail?
    ensures Imaging(Advance(l, tick), r, all, fast)
  {
    hide Peer, Unpack, BitsUp, Opening, Whole, Trailer, Paced;
    var ms: nat := if tick <= 0 then 30 else tick;
    var s, k := l.tx, Advance(l, tick);
    var n := Min(Min(Paced(s.rate, ms, 8), s.trailer), MAX_IMAGE);
    var z := seq(n, _ => 0);
    var h := Peer(r, l.sent);
    OctetsArrive(r, l.sent, s.dt, z);
    ZeroOctets(n);
    var m := 8 * (Trailer(s.rate) - s.trailer);
    assert Zeros(m) + Zeros(8 * n) == Zeros(m + 8 * n);
    assert (Whole(all) + Zeros(m)) + Zeros(8 * n) == Whole(all) + Zeros(m + 8 * n);
    BitsUpAppend(Whole(all) + Zeros(m), Zeros(8 * n));
    var b := BitsUp(Whole(all) + Zeros(m));
    assert (Opening(fast) + b) + BitsUp(Zeros(8 * n)) == Opening(fast) + (b + BitsUp(Zeros(8 * n)));
    assert k.sent == l.sent + [Data(s.dt, NONECM_DATA, z)];
  }

  lemma ZeroOctets(n: nat)
    ensures Unpack(seq(n, _ => 0)) == Zeros(8 * n)
  {
    hide ByteBits;
    ZeroBits();
  }

  lemma ZeroBits()
    ensures forall k :: 0 <= k < 8 ==> !ByteBits(0)[k]
  {
    LsbBitsZero(8);
  }

  lemma EndImages(l: Link, r: Rx, all: Bits, fast: bool, tick: int)
    requires Imaging(l, r, all, fast) && l.tx.phase.NonEcmEnd?
    ensures Imaging(Advance(l, tick), r, all, fast)
  {
    hide Peer, Unpack, BitsUp, Whole, Zeros, Trailer;
    var s, k := l.tx, Advance(l, tick);
    var p := Data(s.dt, NONECM_SIG_END, []);
    PeerNext(r, l.sent, p);
    PeerNext(r, l.sent + [p], Indicator(NO_SIGNAL));
    assert k.sent == (l.sent + [p]) + [Indicator(NO_SIGNAL)];
    var o := Peer(r, l.sent).out;
    assert (o + Closing(fast)) + [] == o + Closing(fast);
  }

  lemma TickImages(l: Link, r: Rx, all: Bits, fast: bool, tick: int)
    requires Imaging(l, r, all, fast)
    ensures l.tx.rate > 0 && Imaging(Advance(l, tick), r, all, fast)
  {
    match l.tx.phase {
      case Preamble => hide *; PreambleImages(l, r, all, fast, tick);
      case PreambleWait => hide *; WaitImages(l, r, all, fast, tick);
      case NonEcm => hide *; BitsImage(l, r, all, fast, tick);
      case NonEcmTrail => hide *; TrailImages(l, r, all, fast, tick);
      case NonEcmEnd => hide *; EndImages(l, r, all, fast, tick);
      case Idle => IdleKeeps(l, tick);
    }
  }

  // ---------------------------------------------------------------- runs

  lemma {:induction false} DriveKeeps(l: Link, r: Rx, all: seq<Octets>, fast: bool, ticks: nat -> int, t: nat, n: nat)
    requires Carrying(l, r, all, fast) && l.tx.rate > 0
    ensures Carrying(Drive(l, ticks, t, n), r, all, fast)
    decreases n
  {
    hide Carrying, Advance;
    if n > 0 {
      TickKeeps(l, r, all, fast, ticks(t));
      RateKept(l, ticks(t));
      DriveKeeps(Advance(l, ticks(t)), r, all, fast, ticks, t + 1, n - 1);
    }
  }

  lemma {:induction false} DriveImages(l: Link, r: Rx, all: Bits, fast: bool, ticks: nat -> int, t: nat, n: nat)
    requires Imaging(l, r, all, fast) && l.tx.rate > 0
    ensures Imaging(Drive(l, ticks, t, n), r, all, fast)
    decreases n
  {
    hide Imaging, Advance;
    if n > 0 {
      TickImages(l, r, all, fast, ticks(t));
      RateKept(l, ticks(t));
      DriveImages(Advance(l, ticks(t)), r, all, fast, ticks, t + 1, n - 1);
    }
  }

  lemma RateKept(l: Link, tick: int)
    requires l.tx.rate > 0
    ensures Advance(l, tick).tx.rate == l.tx.rate
  {
    hide Tick;
    RateStays(l.tx, tick);
  }

  /** Whatever the ticks, a burst ends, and once ended nothing more happens. */
  lemma {:induction false} Finishes(l: Link, ticks: nat -> int, t: nat) returns (n: nat)
    requires InBurst(l.tx)
    ensures l.tx.rate > 0 && forall m :: m >= n ==> Drive(l, ticks, t, m).tx.phase.Idle?
    decreases Rank(l.tx.phase), Amount(l.tx)
  {
    hide InBurst, Nearer, Tick, Rank, Amount;
    RateOf(l.tx);
    if l.tx.phase.Idle? {
      n := 0;
      forall m: nat ensures Drive(l, ticks, t, m).tx.phase.Idle? { IdleForEver(l, ticks, t, m); }
    } else {
      TickNearer(l.tx, ticks(t));
      RateStays(l.tx, ticks(t));
      NearerMeans(l.tx, Tick(l.tx, ticks(t)).tx);
      var k := Finishes(Advance(l, ticks(t)), ticks, t + 1);
      n := k + 1;
      forall m | m >= n ensures Drive(l, ticks, t, m).tx.phase.Idle? {
        assert Drive(l, ticks, t, m) == Drive(Advance(l, ticks(t)), ticks, t + 1, m - 1);
      }
    }
  }

  lemma RateOf(s: Tx)
    requires InBurst(s)
    ensures s.rate > 0
  {
  }

  lemma NearerMeans(s: Tx, t: Tx)
    requires s.rate > 0 && t.rate > 0 && Nearer(s, t)
    ensures Rank(t.phase) < Rank(s.phase) || (Rank(t.phase) == Rank(s.phase) && Amount(t) < Amount(s))
  {
  }

  lemma {:induction false} IdleForEver(l: Link, ticks: nat -> int, t: nat, n: nat)
    requires l.tx.rate > 0 && l.tx.phase.Idle?
    ensures Drive(l, ticks, t, n) == l
    decreases n
  {
    hide Tick, Advance;
    if n > 0 {
      IdleKeeps(l, ticks(t));
      IdleForEver(l, ticks, t + 1, n - 1);
    }
  }

  // ---------------------------------------------------------------- main results

  /** Modems that carry data. */
  predicate DataModem(m: Modem) {
    m.V21? || m.V27ter? || m.V29? || m.V17?
  }

  /** The peer's output of an HDLC burst that has ended. */
  predicate Delivered(l: Link, r: Rx, o: seq<Output>) {
    l.tx.phase.Idle? && l.steps == 1 && Peer(r, l.sent).out == o
  }

  lemma StreamStarts(s: Tx, m: Modem, rate: int, short: int, frames: seq<Octets>, r: Rx)
    requires DataModem(m) && Fit(frames) && !(r.carrier && r.fast)
    ensures var b := BeginStream(SetTxType(s, m, rate, short, true), frames);
            InBurst(b) && Carrying(Link(b, [], 0), r, frames, !m.V21?)
  {
    PeerNothing(r);
    hide Peer, RevAll;
    assert [] + frames == frames;
  }

  /** An ECM burst, or identification and command on V.21: whatever the ticks, it ends; then
      the peer has accepted exactly these frames, each once, in order, all good, and exactly
      one step completion was reported, never before the end. */
  lemma StreamTransparent(s: Tx, m: Modem, rate: int, short: int, frames: seq<Octets>, r: Rx, ticks: nat -> int) returns (n: nat)
    requires DataModem(m) && Fit(frames) && !(r.carrier && r.fast)
    ensures var l := Link(BeginStream(SetTxType(s, m, rate, short, true), frames), [], 0);
            && l.tx.rate > 0
            && (forall k :: k >= n ==> Delivered(Drive(l, ticks, 0, k), r, Opening(!m.V21?) + Accepts(frames) + Closing(!m.V21?)))
            && (forall k: nat :: Drive(l, ticks, 0, k).steps == if Drive(l, ticks, 0, k).tx.phase.Idle? then 1 else 0)
  {
    hide SetTxType, BeginStream, Carrying, InBurst, Delivered, Accepts, Opening, Closing;
    var l := Link(BeginStream(SetTxType(s, m, rate, short, true), frames), [], 0);
    StreamStarts(s, m, rate, short, frames, r);
    n := HdlcBurst(l, r, frames, !m.V21?, ticks);
  }

  lemma HdlcBurst(l: Link, r: Rx, frames: seq<Octets>, fast: bool, ticks: nat -> int) returns (n: nat)
    requires InBurst(l.tx) && Carrying(l, r, frames, fast)
    ensures l.tx.rate > 0
    ensures forall k :: k >= n ==> Delivered(Drive(l, ticks, 0, k), r, Opening(fast) + Accepts(frames) + Closing(fast))
    ensures forall k: nat :: Drive(l, ticks, 0, k).steps == if Drive(l, ticks, 0, k).tx.phase.Idle? then 1 else 0
  {
    hide Carrying, InBurst, Delivered, Drive, Peer, Accepts, Opening, Closing;
    n := Finishes(l, ticks, 0);
    forall k: nat
      ensures var d := Drive(l, ticks, 0, k); d.steps == if d.tx.phase.Idle? then 1 else 0
      ensures k >= n ==> Delivered(Drive(l, ticks, 0, k), r, Opening(fast) + Accepts(frames) + Closing(fast))
    {
      DriveKeeps(l, r, frames, fast, ticks, 0, k);
      CarryingMeans(Drive(l, ticks, 0, k), r, frames, fast);
    }
  }

  lemma CarryingMeans(l: Link, r: Rx, frames: seq<Octets>, fast: bool)
    requires Carrying(l, r, frames, fast)
    ensures l.steps == if l.tx.phase.Idle? then 1 else 0
    ensures l.tx.phase.Idle? ==> Delivered(l, r, Opening(fast) + Accepts(frames) + Closing(fast))
  {
    hide Peer, Accepts, Opening, Closing, Shape;
  }

  lemma ControlStarts(s: Tx, m: Modem, rate: int, short: int, frame: Octets, r: Rx)
    requires DataModem(m) && 1 <= |frame| <= MAX_PAYLOAD && !(r.carrier && r.fast)
    ensures var b := SendHdlc(SetTxType(s, m, rate, short, true), frame);
            InBurst(b) && Carrying(Link(b, [], 0), r, [frame], !m.V21?)
  {
    PeerNothing(r);
    hide Peer, RevAll;
    RevAllUndone(frame);
    assert [frame] + [] == [frame];
  }

  /** A single control frame. */
  lemma ControlTransparent(s: Tx, m: Modem, rate: int, short: int, frame: Octets, r: Rx, ticks: nat -> int) returns (n: nat)
    requires DataModem(m) && 1 <= |frame| <= MAX_PAYLOAD && !(r.carrier && r.fast)
    ensures var l := Link(SendHdlc(SetTxType(s, m, rate, short, true), frame), [], 0);
            && l.tx.rate > 0
            && (forall k :: k >= n ==> Delivered(Drive(l, ticks, 0, k), r, Opening(!m.V21?) + Accepts([frame]) + Closing(!m.V21?)))
            && (forall k: nat :: Drive(l, ticks, 0, k).steps == if Drive(l, ticks, 0, k).tx.phase.Idle? then 1 else 0)
  {
    hide SetTxType, SendHdlc, Carrying, InBurst, Delivered, Accepts, Opening, Closing;
    var l := Link(SendHdlc(SetTxType(s, m, rate, short, true), frame), [], 0);
    ControlStarts(s, m, rate, short, frame, r);
    n := HdlcBurst(l, r, [frame], !m.V21?, ticks);
  }

  lemma ImageStarts(s: Tx, m: Modem, rate: int, short: int, r: Rx)
    requires DataModem(m) && !(r.carrier && r.fast)
    ensures var b := SetTxType(s, m, rate, short, false);
            InBurst(b) && Imaging(Link(b, [], 0), r, s.bits, !m.V21?) && b.rate == if rate > 0 then rate else 14400
  {
    PeerNothing(r);
    hide Peer, RevAll;
  }

  /** Image bits: whatever the ticks, the peer puts the bits that fill whole octets, then the
      zero trailer, and nothing else. */
  lemma ImageTransparent(s: Tx, m: Modem, rate: int, short: int, r: Rx, ticks: nat -> int) returns (n: nat)
    requires DataModem(m) && !(r.carrier && r.fast)
    ensures var l := Link(SetTxType(s, m, rate, short, false), [], 0);
            var got := Whole(s.bits) + Zeros(8 * Trailer(if rate > 0 then rate else 14400));
            && l.tx.rate > 0
            && (forall k :: k >= n ==> Delivered(Drive(l, ticks, 0, k), r, Opening(!m.V21?) + BitsUp(got) + Closing(!m.V21?)))
            && (forall k: nat :: Drive(l, ticks, 0, k).steps == if Drive(l, ticks, 0, k).tx.phase.Idle? then 1 else 0)
  {
    hide SetTxType, Imaging, InBurst, Delivered, Drive, Peer, BitsUp, Opening, Closing, Whole, Zeros, Trailer;
    var l := Link(SetTxType(s, m, rate, short, false), [], 0);
    var got := Whole(s.bits) + Zeros(8 * Trailer(if rate > 0 then rate else 14400));
    ImageStarts(s, m, rate, short, r);
    n := Finishes(l, ticks, 0);
    forall k: nat
      ensures var d := Drive(l, ticks, 0, k); d.steps == if d.tx.phase.Idle? then 1 else 0
      ensures k >= n ==> Delivered(Drive(l, ticks, 0, k), r, Opening(!m.V21?) + BitsUp(got) + Closing(!m.V21?))
    {
      DriveImages(l, r, s.bits, !m.V21?, ticks, 0, k);
      ImagingMeans(Drive(l, ticks, 0, k), r, s.bits, !m.V21?);
    }
  }

  lemma ImagingMeans(l: Link, r: Rx, all: Bits, fast: bool)
    requires Imaging(l, r, all, fast)
    ensures l.steps == if l.tx.phase.Idle? then 1 else 0
    ensures l.tx.phase.Idle? ==> Delivered(l, r, Opening(fast) + BitsUp(Whole(all) + Zeros(8 * Trailer(l.tx.rate))) + Closing(fast))
  {
    hide Peer, BitsUp, Opening, Closing, ImageShape, Whole, Zeros, Trailer;
  }

  /** The bits sent arrive in full exactly if they fill whole octets, or the octet lost at the
      end was zero and the trailer makes up for it. */
  lemma ImageIntact(all: Bits, rate: nat)
    ensures all <= Whole(all) + Zeros(8 * Trailer(rate))
            <==> |all| % 8 == 0 || (Trailer(rate) > 0 && forall i :: 8 * (|all| / 8) <= i < |all| ==> !all[i])
  {
    var q := 8 * (|all| / 8);
    var got := Whole(all) + Zeros(8 * Trailer(rate));
    if |all| % 8 != 0 {
      if all <= got {
        forall i | q <= i < |all| ensures !all[i] { assert all[i] == got[i]; }
      }
      if Trailer(rate) > 0 && forall i :: q <= i < |all| ==> !all[i] {
        assert got[..|all|] == all;
      }
    }
  }

  /** Three ones fill no octet and never arrive. */
  lemma TailLost()
    ensures !([true, true, true] <= Whole([true, true, true]) + Zeros(8 * Trailer(14400)))
  {
    ImageIntact([true, true, true], 14400);
    assert [true, true, true][0];
  }

  // ---------------------------------------------------------------- over UDPTL

  /** Packets small enough for UDPTL. */
  predicate Small(ps: seq<Packet>) {
    forall i :: 0 <= i < |ps| ==> Codable(ps[i]) && |Encode(ps[i])| <= U.MAX_IFP
  }

  function Coded(ps: seq<Packet>): (ds: seq<Octets>)
    requires Small(ps)
    ensures |ds| == |ps|
  {
    seq(|ps|, i requires 0 <= i < |ps| => Encode(ps[i]))
  }

  /** What the packets delivered by UDPTL say. */
  function Told(ds: seq<U.Delivery>): seq<Event> {
    if ds == [] then [] else Told(ds[..|ds| - 1]) + Decode(ds[|ds| - 1].ifp)
  }

  lemma CodedArePackets(ps: seq<Packet>)
    requires Small(ps)
    ensures U.Packets(Coded(ps))
  {
    hide Encode;
    forall i | 0 <= i < |ps| ensures U.Packet(Coded(ps)[i]) { EncodeNonempty(ps[i]); }
  }

  lemma EncodeNonempty(p: Packet)
    requires Codable(p)
    ensures Encode(p) != []
  {
    hide CodeField;
  }

  lemma {:induction false} ToldInOrder(ps: seq<Packet>, ds: seq<U.Delivery>)
    requires Small(ps) && |ds| == |ps| && forall i :: 0 <= i < |ps| ==> ds[i].ifp == Coded(ps)[i]
    ensures Told(ds) == Events(ps)
    decreases |ps|
  {
    hide Encode, Decode;
    if ps != [] {
      var n := |ps| - 1;
      forall i | 0 <= i < n ensures ds[..n][i].ifp == Coded(ps[..n])[i] { assert ds[..n][i] == ds[i] && ps[..n][i] == ps[i]; }
      ToldInOrder(ps[..n], ds[..n]);
      IfpRoundTrip(ps[n]);
      assert ds[n].ifp == Encode(ps[n]);
      assert Events(ps) == Events(ps[..n]) + [EventOf(ps[n])];
    }
  }

  /** Every arrived datagram's number has been passed when all losses are covered. */
  lemma {:induction false} Reached(u: U.Unwrapped, arrivals: seq<U.Arrival>, i: nat)
    requires forall j :: 0 <= j < |arrivals| ==> arrivals[j].k <= arrivals[j].n
    requires u.started && i < |arrivals| && U.LossesCovered(u, arrivals)
    ensures u.next + |U.AllNumbers(u, arrivals)| > arrivals[i].n
    decreases |arrivals|
  {
    var n, k := arrivals[0].n, arrivals[0].k;
    assert k <= n;
    var v := U.After(u, n);
    var rest := U.AllNumbers(v, arrivals[1..]);
    assert U.AllNumbers(u, arrivals) == U.Numbers(u, n, k) + rest;
    assert v.next == u.next + |U.Numbers(u, n, k)|;
    if i > 0 { Reached(v, arrivals[1..], i - 1); }
  }

  /** Datagrams of these packets as they reach the peer: the first one first, the last one at
      all, none overtaken by half the number space, and no run of losses longer than the
      redundancy of the datagram that ends it. */
  ghost predicate Covered(ps: seq<Packet>, arrivals: seq<U.Arrival>)
    requires Small(ps)
  {
    && U.WasBuilt(Coded(ps), arrivals)
    && U.AllPlausible(U.Unwrapped(false, 0), arrivals) && U.LossesCovered(U.Unwrapped(false, 0), arrivals)
    && arrivals != [] && arrivals[0].n == 0
    && exists last :: 0 <= last < |arrivals| && arrivals[last].n == |ps| - 1
  }

  /** Each datagram of the `m` packets from `from` on once, in order, without redundancy. */
  function InOrder(from: nat, m: nat): (arrivals: seq<U.Arrival>)
    ensures |arrivals| == m && forall i :: 0 <= i < m ==> arrivals[i] == U.Arrival(from + i, 0)
  {
    seq(m, i requires 0 <= i < m => U.Arrival(from + i, 0))
  }

  lemma {:induction false} InOrderKeepsUp(u: U.Unwrapped, from: nat, m: nat)
    requires u.started ==> u.next == from
    ensures U.AllPlausible(u, InOrder(from, m)) && U.LossesCovered(u, InOrder(from, m))
    decreases m
  {
    if m > 0 {
      assert InOrder(from, m)[1..] == InOrder(from + 1, m - 1);
      InOrderKeepsUp(U.After(u, from), from + 1, m - 1);
    }
  }

  /** A network that loses nothing is covered, even without redundancy. */
  lemma LosslessIsCovered(ps: seq<Packet>)
    requires Small(ps) && ps != []
    ensures Covered(ps, InOrder(0, |ps|))
  {
    hide Small, U.Packets, U.AllPlausible, U.LossesCovered;
    CodedArePackets(ps);
    InOrderKeepsUp(U.Unwrapped(false, 0), 0, |ps|);
    assert InOrder(0, |ps|)[|ps| - 1].n == |ps| - 1;
  }

  /** What the peer's terminal is told by the octets that arrive. */
  ghost function ToldOver(ps: seq<Packet>, arrivals: seq<U.Arrival>): seq<Event>
    requires Small(ps) && U.WasBuilt(Coded(ps), arrivals)
  {
    Told(U.ReceiveAll(U.Rx(false, 0), U.Datagrams(Coded(ps), arrivals)))
  }

  /** Over such a network the peer is told exactly the packets sent. */
  lemma UdptlTellsAll(ps: seq<Packet>, arrivals: seq<U.Arrival>)
    requires Small(ps) && Covered(ps, arrivals)
    ensures ToldOver(ps, arrivals) == Events(ps)
  {
    hide U.ReceiveAll, U.Datagrams, U.AllPlausible, Encode, Decode, Small, U.Packets, Events, Told;
    var sent, u := Coded(ps), U.Unwrapped(false, 0);
    var last :| 0 <= last < |arrivals| && arrivals[last].n == |ps| - 1;
    U.NetworkDelivers(sent, arrivals);
    var ns := U.AllNumbers(u, arrivals);
    var v := U.After(u, 0);
    assert arrivals[0].k <= 0;
    assert ns == [0] + U.AllNumbers(v, arrivals[1..]);
    if last > 0 { Reached(v, arrivals[1..], last - 1); }
    assert |ns| >= |ps|;
    assert ns[|ns| - 1] == |ns| - 1;
    var ds := U.Deliveries(sent, ns);
    forall i | 0 <= i < |ps| ensures ds[i].ifp == sent[i] { assert ns[i] == i; }
    ToldInOrder(ps, ds);
  }

  /** Every packet of a tick fits UDPTL. */
  lemma TickSmall(s: Tx, tick: int)
    requires s.rate > 0 && s.dt < 9 && s.ind < 16 && |s.frame| <= MAX_PAYLOAD
    requires s.stream && s.queue != [] ==> |s.queue[0]| <= MAX_PAYLOAD
    ensures Small(Tick(s, tick).sent)
  {
    hide Paced, BitRev8, Encode;
    forall i | 0 <= i < |Tick(s, tick).sent| ensures Codable(Tick(s, tick).sent[i]) && |Encode(Tick(s, tick).sent[i])| <= U.MAX_IFP {
      TickShort(s, tick, i);
      EncodeShort(Tick(s, tick).sent[i]);
    }
  }

  /** At most 507 octets in one packet. */
  predicate Short(p: Packet) {
    match p case Indicator(ind) => ind < 16 case Data(dt, ft, payload) => dt < 9 && ft < 8 && |payload| <= MAX_PAYLOAD
  }

  lemma TickShort(s: Tx, tick: int, i: nat)
    requires s.rate > 0 && s.dt < 9 && s.ind < 16 && |s.frame| <= MAX_PAYLOAD && i < |Tick(s, tick).sent|
    requires s.stream && s.queue != [] ==> |s.queue[0]| <= MAX_PAYLOAD
    ensures Short(Tick(s, tick).sent[i])
  {
    hide Paced, BitRev8;
  }

  lemma EncodeShort(p: Packet)
    requires Short(p)
    ensures Codable(p) && |Encode(p)| <= U.MAX_IFP
  {
  }

  /** The packets fit UDPTL, and whatever it loses, repeats or reorders, the output is `o` if
      the losses are covered. */
  ghost predicate Survives(ps: seq<Packet>, r: Rx, o: seq<Output>) {
    Small(ps) && forall arrivals :: Covered(ps, arrivals) ==> HandleAll(r, ToldOver(ps, arrivals)).out == o
  }

  /** A burst delivered without losses is delivered over UDPTL. */
  lemma OverUdptl(l: Link, r: Rx, o: seq<Output>)
    requires Delivered(l, r, o) && Small(l.sent)
    ensures Survives(l.sent, r, o)
  {
    hide ToldOver, HandleAll, Small, U.AllPlausible, U.LossesCovered;
    forall arrivals | Covered(l.sent, arrivals) ensures HandleAll(r, ToldOver(l.sent, arrivals)).out == o {
      UdptlTellsAll(l.sent, arrivals);
    }
  }

  lemma {:induction false} DriveSmall(l: Link, r: Rx, all: seq<Octets>, fast: bool, ticks: nat -> int, t: nat, n: nat)
    requires Carrying(l, r, all, fast) && l.tx.rate > 0 && Small(l.sent)
    ensures Small(Drive(l, ticks, t, n).sent)
    decreases n
  {
    hide Carrying, Advance, Small;
    if n > 0 {
      TickKeeps(l, r, all, fast, ticks(t));
      RateKept(l, ticks(t));
      CarryingShort(l, r, all, fast);
      TickSmall(l.tx, ticks(t));
      SmallAppend(l.sent, Tick(l.tx, ticks(t)).sent);
      AdvanceSent(l, ticks(t));
      DriveSmall(Advance(l, ticks(t)), r, all, fast, ticks, t + 1, n - 1);
    }
  }

  lemma AdvanceSent(l: Link, tick: int)
    requires l.tx.rate > 0
    ensures Advance(l, tick).sent == l.sent + Tick(l.tx, tick).sent
  {
    hide Tick;
  }

  lemma SmallAppend(a: seq<Packet>, b: seq<Packet>)
    requires Small(a) && Small(b)
    ensures Small(a + b)
  {
    hide Encode, Codable;
  }

  lemma CarryingShort(l: Link, r: Rx, all: seq<Octets>, fast: bool)
    requires Carrying(l, r, all, fast)
    ensures var s := l.tx; s.rate > 0 && s.dt < 9 && s.ind < 16 && |s.frame| <= MAX_PAYLOAD
    ensures l.tx.stream && l.tx.queue != [] ==> |l.tx.queue[0]| <= MAX_PAYLOAD
  {
    hide Peer, UnderWay, Accepts;
    var s := l.tx;
    if s.stream && s.queue != [] {
      var k := |Pending(s)| - |s.queue|;
      assert Pending(s)[k] == s.queue[0];
    }
  }

  /** An HDLC burst over UDPTL. */
  lemma HdlcOverUdptl(l: Link, r: Rx, frames: seq<Octets>, fast: bool, ticks: nat -> int) returns (n: nat)
    requires InBurst(l.tx) && Carrying(l, r, frames, fast) && l.sent == []
    ensures l.tx.rate > 0
    ensures forall k :: k >= n ==> Survives(Drive(l, ticks, 0, k).sent, r, Opening(fast) + Accepts(frames) + Closing(fast))
  {
    hide Carrying, InBurst, Delivered, Drive, Survives, Small, Accepts, Opening, Closing;
    n := HdlcBurst(l, r, frames, fast, ticks);
    NothingSmall();
    forall k | k >= n ensures Survives(Drive(l, ticks, 0, k).sent, r, Opening(fast) + Accepts(frames) + Closing(fast)) {
      DriveSmall(l, r, frames, fast, ticks, 0, k);
      OverUdptl(Drive(l, ticks, 0, k), r, Opening(fast) + Accepts(frames) + Closing(fast));
    }
  }

  lemma NothingSmall()
    ensures Small([])
  {
  }

  /** An ECM burst over UDPTL: it ends, and with the losses covered exactly the frames are
      handed out. */
  lemma StreamOverUdptl(s: Tx, m: Modem, rate: int, short: int, frames: seq<Octets>, r: Rx, ticks: nat -> int) returns (n: nat)
    requires DataModem(m) && Fit(frames) && !(r.carrier && r.fast)
    ensures var l := Link(BeginStream(SetTxType(s, m, rate, short, true), frames), [], 0);
            && l.tx.rate > 0
            && forall k :: k >= n ==>
                 Survives(Drive(l, ticks, 0, k).sent, r, Opening(!m.V21?) + Accepts(frames) + Closing(!m.V21?))
  {
    hide *;
    StreamStarts(s, m, rate, short, frames, r);
    n := HdlcOverUdptl(Link(BeginStream(SetTxType(s, m, rate, short, true), frames), [], 0), r, frames, !m.V21?, ticks);
  }

  /** A control frame over UDPTL. */
  lemma ControlOverUdptl(s: Tx, m: Modem, rate: int, short: int, frame: Octets, r: Rx, ticks: nat -> int) returns (n: nat)
    requires DataModem(m) && 1 <= |frame| <= MAX_PAYLOAD && !(r.carrier && r.fast)
    ensures var l := Link(SendHdlc(SetTxType(s, m, rate, short, true), frame), [], 0);
            && l.tx.rate > 0
            && forall k :: k >= n ==>
                 Survives(Drive(l, ticks, 0, k).sent, r, Opening(!m.V21?) + Accepts([frame]) + Closing(!m.V21?))
  {
    hide *;
    ControlStarts(s, m, rate, short, frame, r);
    n := HdlcOverUdptl(Link(SendHdlc(SetTxType(s, m, rate, short, true), frame), [], 0), r, [frame], !m.V21?, ticks);
  }

  /** Every packet of a tick of an image burst fits UDPTL. */
  lemma ImageTickSmall(l: Link, r: Rx, all: Bits, fast: bool, tick: int)
    requires Imaging(l, r, all, fast)
    ensures l.tx.rate > 0 && Small(Tick(l.tx, tick).sent)
  {
    hide Peer, Encode, Codable, Streaming, Trailing;
    var sent := Tick(l.tx, tick).sent;
    forall i | 0 <= i < |sent| ensures Codable(sent[i]) && |Encode(sent[i])| <= U.MAX_IFP {
      ImageTickShort(l.tx, tick, fast, i);
      EncodeShort(sent[i]);
    }
  }

  lemma ImageTickShort(s: Tx, tick: int, fast: bool, i: nat)
    requires ImageShape(s, fast) && i < |Tick(s, tick).sent|
    requires s.phase.Preamble? || s.phase.PreambleWait? || s.phase.NonEcm? || s.phase.NonEcmTrail? || s.phase.NonEcmEnd? || s.phase.Idle?
    ensures Short(Tick(s, tick).sent[i])
  {
    hide Paced;
  }

  lemma {:induction false} DriveImageSmall(l: Link, r: Rx, all: Bits, fast: bool, ticks: nat -> int, t: nat, n: nat)
    requires Imaging(l, r, all, fast) && l.tx.rate > 0 && Small(l.sent)
    ensures Small(Drive(l, ticks, t, n).sent)
    decreases n
  {
    hide Imaging, Advance, Small;
    if n > 0 {
      TickImages(l, r, all, fast, ticks(t));
      RateKept(l, ticks(t));
      ImageTickSmall(l, r, all, fast, ticks(t));
      SmallAppend(l.sent, Tick(l.tx, ticks(t)).sent);
      AdvanceSent(l, ticks(t));
      DriveImageSmall(Advance(l, ticks(t)), r, all, fast, ticks, t + 1, n - 1);
    }
  }

  /** Image bits over UDPTL. */
  lemma ImageOverUdptl(s: Tx, m: Modem, rate: int, short: int, r: Rx, ticks: nat -> int) returns (n: nat)
    requires DataModem(m) && !(r.carrier && r.fast)
    ensures var l := Link(SetTxType(s, m, rate, short, false), [], 0);
            var got := Whole(s.bits) + Zeros(8 * Trailer(if rate > 0 then rate else 14400));
            && l.tx.rate > 0
            && forall k :: k >= n ==>
                 Survives(Drive(l, ticks, 0, k).sent, r, Opening(!m.V21?) + BitsUp(got) + Closing(!m.V21?))
  {
    hide *;
    var l := Link(SetTxType(s, m, rate, short, false), [], 0);
    var got := Whole(s.bits) + Zeros(8 * Trailer(if rate > 0 then rate else 14400));
    n := ImageTransparent(s, m, rate, short, r, ticks);
    ImageStarts(s, m, rate, short, r);
    NothingSmall();
    forall k | k >= n ensures Survives(Drive(l, ticks, 0, k).sent, r, Opening(!m.V21?) + BitsUp(got) + Closing(!m.V21?)) {
      DriveImageSmall(l, r, s.bits, !m.V21?, ticks, 0, k);
      OverUdptl(Drive(l, ticks, 0, k), r, Opening(!m.V21?) + BitsUp(got) + Closing(!m.V21?));
    }
  }
}
