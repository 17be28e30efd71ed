/** What a peer receives of a T.38 burst: HDLC frames and image bits, whatever the ticks. */
module T38Bursts {
  import opened T38Ifp
  import opened T38Pump

  // ---------------------------------------------------------------- what is expected

  function Opening(fast: bool): seq<Output> {
    if fast then [CarrierUp, Trained] else []
  }

  function Closing(fast: bool): seq<Output> {
    if fast then [CarrierDown] else []
  }

  function Accepts(frames: seq<Octets>): (o: seq<Output>)
    ensures |o| == |frames|
  {
    seq(|frames|, i requires 0 <= i < |frames| => Accept(frames[i], true))
  }

  /** Frames one packet can hold, none empty. */
  predicate Fit(frames: seq<Octets>) {
    forall i :: 0 <= i < |frames| ==> 1 <= |frames[i]| <= MAX_PAYLOAD
  }

  /** The receiver after the packets sent so far. */
  function Peer(r: Rx, sent: seq<Packet>): Handled {
    HandleAll(r, Events(sent))
  }

  lemma PeerNothing(r: Rx)
    ensures Peer(r, []) == Handled(r, [])
  {
    assert Events([]) == [];
  }

  lemma PeerNext(r: Rx, sent: seq<Packet>, p: Packet)
    ensures var h := Peer(r, sent); var t := Handle(h.rx, EventOf(p)); Peer(r, sent + [p]) == Handled(t.rx, h.out + t.out)
  {
    hide HandleAll, Handle;
    assert Events(sent + [p]) == Events(sent) + [EventOf(p)];
    HandleAllAppend(r, Events(sent), [EventOf(p)]);
    HandleOne(Peer(r, sent).rx, EventOf(p));
  }

  // ---------------------------------------------------------------- HDLC bursts

  /** Frames not yet accepted by the peer. */
  function Pending(s: Tx): seq<Octets> {
    (if s.phase.HdlcFcs? || s.off < |s.frame| then [RevAll(s.frame)] else []) + if s.stream then s.queue else []
  }

  /** The part of the current frame the peer has. */
  function Part(s: Tx): Octets {
    if s.phase.HdlcFcs? then RevAll(s.frame)
    else if s.off < |s.frame| then RevAll(s.frame[..s.off]) else []
  }

  predicate Shape(s: Tx, fast: bool) {
    && s.rate > 0 && s.dt < 9 && 3 <= s.ind < 16 && fast == (s.ind != V21_PREAMBLE) && s.follow.FollowHdlc?
    && |s.frame| <= MAX_PAYLOAD && (s.phase.HdlcFcs? ==> s.frame != [] && s.off >= |s.frame|)
    && (s.indLeft > 0 ==> !fast) && Fit(Pending(s))
  }

  /** What holds between pump and peer in every phase of an HDLC burst. */
  predicate Carrying(l: Link, r: Rx, all: seq<Octets>, fast: bool) {
    var h := Peer(r, l.sent);
    var s := l.tx;
    && Shape(s, fast) && (l.steps == if s.phase.Idle? then 1 else 0)
    && match s.phase
       case Preamble => h.out == [] && !(h.rx.carrier && h.rx.fast) && s.off == 0 && Startable(s) && Pending(s) == all
       case PreambleWait => h.out == Opening(fast) && h.rx == Rx([], true, fast) && s.off == 0 && Startable(s) && Pending(s) == all && s.next == First(s)
       case HdlcData => UnderWay(s, h, all, fast)
       case HdlcFcs => UnderWay(s, h, all, fast)
       case HdlcDrain => h == Handled(Rx([], true, fast), Opening(fast) + Accepts(all)) && Pending(s) == []
       case HdlcEnd => h == Handled(Rx([], true, fast), Opening(fast) + Accepts(all)) && Pending(s) == []
       case Idle => h == Handled(Rx([], false, false), Opening(fast) + Accepts(all) + Closing(fast))
       case _ => false
  }

  /** A stream with no frame loaded, or a single frame, or nothing at all. */
  predicate Startable(s: Tx) {
    if s.stream then s.frame == [] else s.haveFrame == (s.frame != [])
  }

  /** The phase after the preamble. */
  function First(s: Tx): Phase {
    if s.stream || s.haveFrame then HdlcData else HdlcEnd
  }

  predicate UnderWay(s: Tx, h: Handled, all: seq<Octets>, fast: bool) {
    && h.rx == Rx(Part(s), true, fast)
    && |Pending(s)| <= |all| && all[|all| - |Pending(s)|..] == Pending(s)
    && h.out == Opening(fast) + Accepts(all[..|all| - |Pending(s)|])
  }

  lemma PreambleKeeps(l: Link, r: Rx, all: seq<Octets>, fast: bool, tick: int)
    requires Carrying(l, r, all, fast) && l.tx.phase.Preamble?
    ensures Carrying(Advance(l, tick), r, all, fast)
  {
    hide Peer, RevAll, Fit, IndicatorDelay;
    var s := l.tx;
    PeerNext(r, l.sent, Indicator(s.ind));
    var h := Peer(r, l.sent);
    assert h.out + Opening(fast) == Opening(fast);
    var k := Advance(l, tick);
    assert k.sent == l.sent + [Indicator(s.ind)];
    assert Pending(k.tx) == Pending(s);
    if s.indLeft == 0 {
      Started(k.tx, Peer(r, k.sent), all, fast);
    }
  }

  /** The state entered behind the preamble. */
  lemma Started(s: Tx, h: Handled, all: seq<Octets>, fast: bool)
    requires Startable(s) && s.off == 0 && Pending(s) == all && h.out == Opening(fast) && h.rx == Rx([], true, fast)
    ensures s.phase.HdlcData? ==> UnderWay(s, h, all, fast)
    ensures First(s).HdlcEnd? && s.phase.HdlcEnd? ==> all == [] && h.out == Opening(fast) + Accepts(all)
  {
    hide Fit;
    assert all[|all| - |Pending(s)|..] == all && all[..|all| - |Pending(s)|] == [];
    assert Accepts([]) == [] && Opening(fast) + [] == Opening(fast);
    assert s.frame[..0] == [] && RevAll([]) == [];
  }

  lemma WaitKeeps(l: Link, r: Rx, all: seq<Octets>, fast: bool, tick: int)
    requires Carrying(l, r, all, fast) && l.tx.phase.PreambleWait?
    ensures Carrying(Advance(l, tick), r, all, fast)
  {
    hide Peer, RevAll, Fit;
    var k := Advance(l, tick);
    assert k.sent == l.sent;
    assert Pending(k.tx) == Pending(l.tx);
    Started(k.tx, Peer(r, k.sent), all, fast);
  }

  /** A chunk more of the current frame. */
  lemma ChunkArrives(s: Tx, ms: nat, h: Handled, all: seq<Octets>, fast: bool)
    requires s.phase.HdlcData? && s.off < |s.frame| <= MAX_PAYLOAD && UnderWay(s, h, all, fast)
    ensures var t := EmitChunk(s, ms);
            && |t.sent| == 1 && !t.done && Pending(t.tx) == Pending(s)
            && (t.tx.phase.HdlcFcs? ==> t.tx.off == |t.tx.frame|) && (t.tx.phase.HdlcFcs? || t.tx.phase.HdlcData?)
            && t.tx.frame == s.frame
            && var k := Handle(h.rx, EventOf(t.sent[0])); UnderWay(t.tx, Handled(k.rx, h.out + k.out), all, fast)
  {
    hide Paced, BitRev8;
    var t := EmitChunk(s, ms);
    var chunk := t.sent[0].payload;
    var n := |chunk|;
    assert s.frame[..s.off] + chunk == s.frame[..s.off + n];
    RevAllAppend(s.frame[..s.off], chunk);
    assert s.off + n == |s.frame| ==> s.frame[..s.off + n] == s.frame;
    assert h.out + [] == h.out;
  }

  lemma LoadedNext(s: Tx, h: Handled, all: seq<Octets>, fast: bool)
    requires s.phase.HdlcData? && s.off >= |s.frame| && s.stream && s.queue != [] && 1 <= |s.queue[0]| <= MAX_PAYLOAD
    requires UnderWay(s, h, all, fast)
    ensures var t := Load(s, s.queue[0]).(queue := s.queue[1..]);
            && t.phase.HdlcData? && t.off < |t.frame| <= MAX_PAYLOAD && Pending(t) == Pending(s) && UnderWay(t, h, all, fast)
  {
    hide BitRev8, UnderWay, RevAll;
    var f := s.queue[0];
    var t := Load(s, f).(queue := s.queue[1..]);
    RevAllUndone(f);
    RevNothing();
    assert t.frame == RevAll(f) && t.frame[..0] == [];
    assert Pending(t) == [f] + s.queue[1..] == s.queue;
    assert Pending(s) == s.queue;
    SameProgress(s, t, h, all, fast);
  }

  lemma RevNothing()
    ensures RevAll([]) == []
  {
  }

  lemma SameProgress(s: Tx, t: Tx, h: Handled, all: seq<Octets>, fast: bool)
    requires Pending(t) == Pending(s) && Part(t) == Part(s)
    ensures UnderWay(t, h, all, fast) == UnderWay(s, h, all, fast)
  {
    hide Pending, Part, Accepts;
  }

  /** From a loaded frame, one chunk later. */
  lemma ChunkKeeps(l: Link, r: Rx, all: seq<Octets>, fast: bool, s: Tx, ms: nat)
    requires Shape(s, fast) && s.phase.HdlcData? && s.off < |s.frame| && l.steps == 0 && UnderWay(s, Peer(r, l.sent), all, fast)
    ensures var t := EmitChunk(s, ms); Carrying(Link(t.tx, l.sent + t.sent, 0), r, all, fast)
  {
    hide Peer, RevAll, Handle, EmitChunk, UnderWay, Fit, Pending;
    var t := EmitChunk(s, ms);
    ChunkArrives(s, ms, Peer(r, l.sent), all, fast);
    ChunkShape(s, ms);
    PeerNext(r, l.sent, t.sent[0]);
    assert l.sent + t.sent == l.sent + [t.sent[0]];
  }

  lemma DataKeeps(l: Link, r: Rx, all: seq<Octets>, fast: bool, tick: int)
    requires Carrying(l, r, all, fast) && l.tx.phase.HdlcData?
    ensures Carrying(Advance(l, tick), r, all, fast)
  {
    hide Peer, RevAll, Handle, EmitChunk, Load, UnderWay, Fit, Pending, Carrying;
    var ms: nat := if tick <= 0 then 30 else tick;
    var s := l.tx.(ms := l.tx.ms + ms);
    var h := Peer(r, l.sent);
    DataMeans(l, r, all, fast);
    SameFrames(l.tx, s, h, all, fast);
    if s.off < |s.frame| {
      ChunkKeeps(l, r, all, fast, s, ms);
      ChunkNotDone(s, ms);
    } else if s.stream && s.queue != [] && s.queue[0] != [] {
      FirstFits(s);
      LoadedNext(s, h, all, fast);
      LoadShape(s);
      var t := Load(s, s.queue[0]).(queue := s.queue[1..]);
      ChunkKeeps(l, r, all, fast, t, ms);
      ChunkNotDone(t, ms);
    } else {
      if s.stream && s.queue != [] { FirstFits(s); }
      DrainBegins(l, r, all, fast, s);
      assert l.sent + [] == l.sent;
    }
  }

  lemma DataMeans(l: Link, r: Rx, all: seq<Octets>, fast: bool)
    requires Carrying(l, r, all, fast) && l.tx.phase.HdlcData?
    ensures Shape(l.tx, fast) && l.steps == 0 && UnderWay(l.tx, Peer(r, l.sent), all, fast)
  {
    hide Peer, UnderWay, Shape;
  }

  lemma ChunkNotDone(s: Tx, ms: nat)
    requires s.off < |s.frame|
    ensures !EmitChunk(s, ms).done
  {
    hide Paced;
  }

  lemma DrainBegins(l: Link, r: Rx, all: seq<Octets>, fast: bool, s: Tx)
    requires Shape(s, fast) && s.phase.HdlcData? && s.off >= |s.frame| && !(s.stream && s.queue != []) && l.steps == 0
    requires UnderWay(s, Peer(r, l.sent), all, fast)
    ensures Carrying(Link(s.(phase := HdlcDrain), l.sent, 0), r, all, fast)
  {
    hide Peer, RevAll, UnderWay, Fit;
    AllAccepted(s, Peer(r, l.sent), all, fast);
  }

  lemma SameFrames(s: Tx, t: Tx, h: Handled, all: seq<Octets>, fast: bool)
    requires t == s.(ms := t.ms)
    ensures Pending(t) == Pending(s) && UnderWay(t, h, all, fast) == UnderWay(s, h, all, fast)
  {
  }

  lemma FirstFits(s: Tx)
    requires s.phase.HdlcData? && s.off >= |s.frame| && s.stream && s.queue != [] && Fit(Pending(s))
    ensures 1 <= |s.queue[0]| <= MAX_PAYLOAD
  {
    assert Pending(s)[0] == s.queue[0];
  }

  lemma LoadShape(s: Tx)
    requires s.queue != []
    ensures var t := Load(s, s.queue[0]);
            t.rate == s.rate && t.dt == s.dt && t.ind == s.ind && t.follow == s.follow && t.indLeft == s.indLeft
  {
    hide RevAll;
  }

  lemma ChunkShape(s: Tx, ms: nat)
    requires s.off < |s.frame|
    ensures var t := EmitChunk(s, ms).tx;
            t.rate == s.rate && t.dt == s.dt && t.ind == s.ind && t.follow == s.follow && t.indLeft == s.indLeft && t.frame == s.frame
  {
    hide Paced;
  }

  lemma AllAccepted(s: Tx, h: Handled, all: seq<Octets>, fast: bool)
    requires UnderWay(s, h, all, fast) && Pending(s) == [] && s.phase.HdlcData?
    ensures h == Handled(Rx([], true, fast), Opening(fast) + Accepts(all))
  {
    assert all[..|all|] == all;
    assert s.off >= |s.frame|;
  }

  lemma FcsKeeps(l: Link, r: Rx, all: seq<Octets>, fast: bool, tick: int)
    requires Carrying(l, r, all, fast) && l.tx.phase.HdlcFcs?
    ensures Carrying(Advance(l, tick), r, all, fast)
  {
    hide Peer, RevAll, Accepts, Fit, Opening;
    var s, k := l.tx, Advance(l, tick);
    var h := Peer(r, l.sent);
    var p := Data(s.dt, FCS_OK, []);
    PeerNext(r, l.sent, p);
    assert k.sent == l.sent + [p];
    var f := RevAll(s.frame);
    assert Pending(s) == [f] + Pending(k.tx) by { assert Pending(s) == [f] + if s.stream then s.queue else []; }
    var m := |all| - |Pending(s)|;
    OneMoreAccepted(all, m, Pending(s), f, Pending(k.tx));
    assert (Opening(fast) + Accepts(all[..m])) + [Accept(f, true)] == Opening(fast) + Accepts(all[..m + 1]);
    FitTail(Pending(s), f, Pending(k.tx));
    if !s.stream { assert all[..|all|] == all; }
  }

  lemma FitTail(p: seq<Octets>, f: Octets, q: seq<Octets>)
    requires p == [f] + q && Fit(p)
    ensures Fit(q)
  {
    forall i | 0 <= i < |q| ensures 1 <= |q[i]| <= MAX_PAYLOAD { assert p[i + 1] == q[i]; }
  }

  lemma OneMoreAccepted(all: seq<Octets>, m: nat, p: seq<Octets>, f: Octets, q: seq<Octets>)
    requires m == |all| - |p| && all[m..] == p && p == [f] + q
    ensures m + 1 <= |all| && all[m + 1..] == q && Accepts(all[..m + 1]) == Accepts(all[..m]) + [Accept(f, true)]
  {
    assert all[m] == p[0] == f;
    assert all[m + 1..] == all[m..][1..] == q;
  }

  lemma DrainKeeps(l: Link, r: Rx, all: seq<Octets>, fast: bool, tick: int)
    requires Carrying(l, r, all, fast) && l.tx.phase.HdlcDrain?
    ensures Carrying(Advance(l, tick), r, all, fast)
  {
    hide Peer, RevAll, Accepts, Fit;
    var k := Advance(l, tick);
    assert k.sent == l.sent;
    assert Pending(k.tx) == Pending(l.tx);
  }

  lemma EndKeeps(l: Link, r: Rx, all: seq<Octets>, fast: bool, tick: int)
    requires Carrying(l, r, all, fast) && l.tx.phase.HdlcEnd?
    ensures Carrying(Advance(l, tick), r, all, fast)
  {
    hide Peer, RevAll, Accepts, Fit;
    var s, k := l.tx, Advance(l, tick);
    var p := Data(s.dt, HDLC_SIG_END, []);
    PeerNext(r, l.sent, p);
    PeerNext(r, l.sent + [p], Indicator(NO_SIGNAL));
    assert k.sent == (l.sent + [p]) + [Indicator(NO_SIGNAL)];
    var o := Opening(fast) + Accepts(all);
    assert [] + Closing(fast) == Closing(fast) && (o + Closing(fast)) + [] == o + Closing(fast);
    assert Pending(k.tx) == Pending(s);
  }

  /** Every tick keeps pump and peer together. */
  lemma TickKeeps(l: Link, r: Rx, all: seq<Octets>, fast: bool, tick: int)
    requires Carrying(l, r, all, fast)
    ensures l.tx.rate > 0 && Carrying(Advance(l, tick), r, all, fast)
  {
    var k := Advance(l, tick);
    match l.tx.phase {
      case Preamble => hide *; PreambleKeeps(l, r, all, fast, tick);
      case PreambleWait => hide *; WaitKeeps(l, r, all, fast, tick);
      case HdlcData => hide *; DataKeeps(l, r, all, fast, tick);
      case HdlcFcs => hide *; FcsKeeps(l, r, all, fast, tick);
      case HdlcDrain => hide *; DrainKeeps(l, r, all, fast, tick);
      case HdlcEnd => hide *; EndKeeps(l, r, all, fast, tick);
      case Idle => IdleKeeps(l, tick);
    }
  }

  lemma IdleKeeps(l: Link, tick: int)
    requires l.tx.rate > 0 && l.tx.phase.Idle?
    ensures Advance(l, tick) == l
  {
    assert l.sent + [] == l.sent;
  }

  // ---------------------------------------------------------------- a burst comes to its end

  /** Phases in order. */
  function Rank(p: Phase): nat {
    match p
    case Preamble => 6 case PreambleWait => 5 case HdlcData => 4 case HdlcFcs => 4 case NonEcm => 4
    case HdlcDrain => 3 case NonEcmTrail => 3 case HdlcEnd => 2 case NonEcmEnd => 2 case ToneWait => 1 case PauseWait => 1 case Idle => 0
  }

  function Work(q: seq<Octets>): nat {
    if q == [] then 0 else |q[0]| + 2 + Work(q[1..])
  }

  /** Milliseconds the carrier has still to be held. */
  function ToDrain(s: Tx): nat
    requires s.rate > 0
  {
    var needed := s.octets * 8000 / s.rate;
    if s.ms < needed then needed - s.ms else 0
  }

  /** What is left to do in a phase. */
  function Amount(s: Tx): nat
    requires s.rate > 0
  {
    match s.phase
    case Preamble => s.indLeft
    case PreambleWait => if s.wait > 0 then s.wait else 0
    case HdlcData => (if s.off < |s.frame| then |s.frame| - s.off + 1 else 0) + if s.stream then Work(s.queue) else 0
    case HdlcFcs => 1 + if s.stream then Work(s.queue) else 0
    case HdlcDrain => ToDrain(s)
    case NonEcm => |s.bits| + 1
    case NonEcmTrail => s.trailer
    case _ => 0
  }

  predicate Nearer(s: Tx, t: Tx)
    requires s.rate > 0 && t.rate > 0
  {
    Rank(t.phase) < Rank(s.phase) || (Rank(t.phase) == Rank(s.phase) && Amount(t) < Amount(s))
  }

  /** Phases of a burst; those behind the preamble are its own. */
  predicate InBurst(s: Tx) {
    && s.rate > 0 && !s.phase.ToneWait? && !s.phase.PauseWait? && (s.follow.FollowHdlc? || s.follow.FollowImage?)
    && (s.phase.PreambleWait? ==> s.next.HdlcData? || s.next.HdlcEnd? || s.next.NonEcm?)
    && (s.phase.HdlcFcs? ==> s.off >= |s.frame|)
  }

  lemma ChunkNearer(s: Tx, ms: nat)
    requires s.rate > 0 && s.phase.HdlcData? && s.off < |s.frame|
    ensures var t := EmitChunk(s, ms).tx; t.rate == s.rate && Nearer(s, t)
  {
    hide Work, Paced;
  }

  lemma DataNearer(s: Tx, ms: nat)
    requires s.rate > 0 && s.phase.HdlcData?
    ensures var t := TickData(s, ms).tx; t.rate == s.rate && Nearer(s, t)
  {
    hide EmitChunk, Work;
    if s.off < |s.frame| {
      ChunkNearer(s, ms);
    } else if s.stream && s.queue != [] && s.queue[0] != [] {
      var t := Load(s, s.queue[0]).(queue := s.queue[1..]);
      WorkStep(s.queue);
      ChunkNearer(t, ms);
      LoadShape(s);
    }
  }

  lemma WorkStep(q: seq<Octets>)
    requires q != []
    ensures Work(q) == |q[0]| + 2 + Work(q[1..])
  {
  }

  lemma PreambleNearer(s: Tx)
    requires InBurst(s) && s.phase.Preamble?
    ensures var t := TickPreamble(s).tx; InBurst(t) && Nearer(s, t)
  {
    hide Work, IndicatorDelay;
  }

  lemma WaitNearer(s: Tx, ms: nat)
    requires InBurst(s) && s.phase.PreambleWait? && ms > 0
    ensures var t := TickWait(s, ms, s.next).tx; InBurst(t) && Nearer(s, t)
  {
    hide Work;
  }

  lemma DrainNearer(s: Tx, ms: nat)
    requires InBurst(s) && s.phase.HdlcDrain? && ms > 0
    ensures var t := TickDrain(s.(ms := s.ms + ms)).tx; InBurst(t) && Nearer(s, t)
  {
  }

  lemma ImageNearer(s: Tx, ms: nat)
    requires InBurst(s) && s.phase.NonEcm?
    ensures var t := TickImage(s, ms).tx; InBurst(t) && Nearer(s, t)
  {
    hide Paced, Pack;
  }

  lemma TrailNearer(s: Tx, ms: nat)
    requires InBurst(s) && s.phase.NonEcmTrail?
    ensures var t := TickTrail(s, ms).tx; InBurst(t) && Nearer(s, t)
  {
    hide Paced;
  }

  lemma FcsNearer(s: Tx, ms: nat)
    requires InBurst(s) && s.phase.HdlcFcs?
    ensures var t := s.(ms := s.ms + ms, phase := if s.stream then HdlcData else HdlcDrain); InBurst(t) && Nearer(s, t)
  {
    hide Work;
  }

  /** Every tick brings the burst nearer to its end. */
  lemma TickNearer(s: Tx, tick: int)
    requires InBurst(s) && !s.phase.Idle?
    ensures var t := Tick(s, tick).tx; InBurst(t) && Nearer(s, t)
  {
    hide TickPreamble, TickWait, TickData, TickDrain, TickImage, TickTrail, Work;
    var ms: nat := if tick <= 0 then 30 else tick;
    match s.phase {
      case Preamble => hide InBurst, Nearer; PreambleNearer(s);
      case PreambleWait => hide InBurst, Nearer; WaitNearer(s, ms);
      case HdlcData =>
        var u := s.(ms := s.ms + ms);
        DataNearer(u, ms);
        DataInBurst(u, ms);
        assert Amount(u) == Amount(s);
      case HdlcFcs => hide InBurst, Nearer; FcsNearer(s, ms);
      case HdlcDrain => hide InBurst, Nearer; DrainNearer(s, ms);
      case HdlcEnd =>
      case NonEcm => hide InBurst, Nearer; ImageNearer(s, ms);
      case NonEcmTrail => hide InBurst, Nearer; TrailNearer(s, ms);
      case NonEcmEnd =>
      case ToneWait =>
      case PauseWait =>
    }
  }

  lemma DataInBurst(s: Tx, ms: nat)
    requires InBurst(s) && s.phase.HdlcData?
    ensures InBurst(TickData(s, ms).tx)
  {
    hide Paced, RevAll;
  }
}
