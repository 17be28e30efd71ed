/** When the T.38 pump sends (nf_t38.c: nf_t38_pump): training is given its time, an HDLC burst
    is not ended before a modem could have played it, image data keep to the carrier's rate,
    pauses and tones last as long as asked. */
module T38Timing {
  import opened T38Ifp
  import opened T38Pump
  import opened T38Bursts
  import opened T38Transfer

  /** What a tick counts for. */
  function Ms(tick: int): nat {
    if tick <= 0 then 30 else tick
  }

  /** The time of `n` ticks from the `t`-th on. */
  function Elapsed(ticks: nat -> int, t: nat, n: nat): nat
    decreases n
  {
    if n == 0 then 0 else Ms(ticks(t)) + Elapsed(ticks, t + 1, n - 1)
  }

  // ---------------------------------------------------------------- an HDLC burst is played out

  /** Octets a modem plays for some frames: four more each for flag and check sequence. */
  function OnAir(frames: seq<Octets>): nat {
    if frames == [] then 0 else |frames[0]| + 4 + OnAir(frames[1..])
  }

  function Queued(s: Tx): seq<Octets> {
    if s.stream then s.queue else []
  }

  predicate Planned(s: Tx, total: nat) {
    && s.rate > 0 && s.follow.FollowHdlc? && Fit(Queued(s)) && s.octets + OnAir(Queued(s)) == total
    && (!s.stream && !s.haveFrame ==> total == 0)
  }

  function PlayTime(total: nat, rate: nat): nat
    requires rate > 0
  {
    total * 8000 / rate
  }

  /** What a burst of `total` octets has seen of its time. */
  predicate Timed(s: Tx, total: nat, delay: nat, past: nat) {
    && s.rate > 0
    && match s.phase
       case Preamble => Planned(s, total) && s.ms == 0 && IndicatorDelay(s.ind) == delay
       case PreambleWait => Planned(s, total) && s.ms == 0 && past + s.wait >= delay && (s.next.HdlcData? || (s.next.HdlcEnd? && total == 0))
       case HdlcData => Planned(s, total) && past >= delay + s.ms
       case HdlcFcs => Planned(s, total) && past >= delay + s.ms
       case HdlcDrain => Planned(s, total) && past >= delay + s.ms && Queued(s) == []
       case HdlcEnd => past >= delay + PlayTime(total, s.rate)
       case Idle => past >= delay + PlayTime(total, s.rate)
       case _ => false
  }

  lemma ChunkTimed(s: Tx, total: nat, delay: nat, past: nat, ms: nat)
    requires s.phase.HdlcData? && Planned(s, total) && past >= delay + s.ms && s.off < |s.frame|
    ensures Timed(EmitChunk(s, ms).tx, total, delay, past)
  {
    hide Paced, OnAir, Fit;
  }

  lemma NextLoaded(s: Tx, total: nat)
    requires s.phase.HdlcData? && Planned(s, total) && s.stream && s.queue != []
    ensures var t := Load(s, s.queue[0]).(queue := s.queue[1..]);
            s.queue[0] != [] && Planned(t, total) && t.phase == s.phase && t.ms == s.ms && t.off < |t.frame|
  {
    hide BitRev8;
    assert Queued(s)[0] == s.queue[0];
    forall i | 0 <= i < |s.queue[1..]| ensures 1 <= |s.queue[1..][i]| <= MAX_PAYLOAD { assert s.queue[1..][i] == Queued(s)[i + 1]; }
  }

  lemma DataTimed(s: Tx, total: nat, delay: nat, past: nat, ms: nat)
    requires s.phase.HdlcData? && Planned(s, total) && past >= delay + s.ms
    ensures Timed(TickData(s, ms).tx, total, delay, past)
  {
    hide EmitChunk, Load, OnAir, Fit;
    if s.off < |s.frame| {
      ChunkTimed(s, total, delay, past, ms);
    } else if s.stream && s.queue != [] {
      NextLoaded(s, total);
      ChunkTimed(Load(s, s.queue[0]).(queue := s.queue[1..]), total, delay, past, ms);
    }
  }

  lemma DrainTimed(s: Tx, total: nat, delay: nat, past: nat)
    requires s.phase.HdlcDrain? && Planned(s, total) && past >= delay + s.ms && Queued(s) == []
    ensures Timed(TickDrain(s).tx, total, delay, past)
  {
    hide Fit;
    assert s.octets == total;
  }

  lemma NothingToPlay(rate: nat)
    requires rate > 0
    ensures PlayTime(0, rate) == 0
  {
  }

  lemma TickTimed(s: Tx, total: nat, delay: nat, past: nat, tick: int)
    requires Timed(s, total, delay, past)
    ensures Timed(Tick(s, tick).tx, total, delay, past + Ms(tick))
  {
    hide TickData, TickDrain, OnAir, Fit, IndicatorDelay, PlayTime;
    NothingToPlay(s.rate);
    var ms := Ms(tick);
    if s.phase.HdlcData? {
      DataTimed(s.(ms := s.ms + ms), total, delay, past + ms, ms);
    } else if s.phase.HdlcDrain? {
      DrainTimed(s.(ms := s.ms + ms), total, delay, past + ms);
    }
  }

  lemma {:induction false} DriveTimed(l: Link, total: nat, delay: nat, past: nat, ticks: nat -> int, t: nat, n: nat)
    requires Timed(l.tx, total, delay, past) && l.tx.rate > 0
    ensures Timed(Drive(l, ticks, t, n).tx, total, delay, past + Elapsed(ticks, t, n))
    decreases n
  {
    hide Timed, Tick, Ms;
    if n > 0 {
      TickTimed(l.tx, total, delay, past, ticks(t));
      RateStays(l.tx, ticks(t));
      DriveTimed(Advance(l, ticks(t)), total, delay, past + Ms(ticks(t)), ticks, t + 1, n - 1);
    }
  }

  /** The time of training or preamble that a modem's carrier is allowed. */
  function Training(m: Modem, rate: int, short: int): nat {
    IndicatorDelay(MapModem(m, rate, short != 0).0)
  }

  function RateUsed(rate: int): (r: nat)
    ensures r > 0
  {
    if rate > 0 then rate else 14400
  }

  /** An HDLC burst is not reported complete, and its carrier not dropped, before its training
      and all its octets could have been played at the carrier's rate. */
  lemma StreamPlayedOut(s: Tx, m: Modem, rate: int, short: int, frames: seq<Octets>, ticks: nat -> int, n: nat)
    requires DataModem(m) && Fit(frames)
    ensures var l := Link(BeginStream(SetTxType(s, m, rate, short, true), frames), [], 0);
            && l.tx.rate > 0
            && ((Drive(l, ticks, 0, n).tx.phase.HdlcEnd? || Drive(l, ticks, 0, n).tx.phase.Idle?)
                ==> Elapsed(ticks, 0, n) >= Training(m, rate, short) + PlayTime(OnAir(frames), RateUsed(rate)))
  {
    var l := Link(BeginStream(SetTxType(s, m, rate, short, true), frames), [], 0);
    assert Timed(l.tx, OnAir(frames), Training(m, rate, short), 0) by { hide OnAir, Fit, IndicatorDelay, MapModem; }
    hide *;
    RateIs(s, m, rate, short, frames);
    DriveTimed(l, OnAir(frames), Training(m, rate, short), 0, ticks, 0, n);
    TimedMeans(Drive(l, ticks, 0, n).tx, OnAir(frames), Training(m, rate, short), Elapsed(ticks, 0, n));
  }

  lemma RateIs(s: Tx, m: Modem, rate: int, short: int, frames: seq<Octets>)
    ensures BeginStream(SetTxType(s, m, rate, short, true), frames).rate == RateUsed(rate)
  {
  }

  lemma TimedMeans(s: Tx, total: nat, delay: nat, past: nat)
    requires Timed(s, total, delay, past)
    ensures s.rate > 0 && (s.phase.HdlcEnd? || s.phase.Idle? ==> past >= delay + PlayTime(total, s.rate))
  {
  }

  /** The same for a single control frame. */
  lemma ControlPlayedOut(s: Tx, m: Modem, rate: int, short: int, frame: Octets, ticks: nat -> int, n: nat)
    requires DataModem(m) && 1 <= |frame| <= MAX_PAYLOAD
    ensures var l := Link(SendHdlc(SetTxType(s, m, rate, short, true), frame), [], 0);
            && l.tx.rate > 0
            && ((Drive(l, ticks, 0, n).tx.phase.HdlcEnd? || Drive(l, ticks, 0, n).tx.phase.Idle?)
                ==> Elapsed(ticks, 0, n) >= Training(m, rate, short) + PlayTime(|frame| + 4, RateUsed(rate)))
  {
    var l := Link(SendHdlc(SetTxType(s, m, rate, short, true), frame), [], 0);
    assert Timed(l.tx, |frame| + 4, Training(m, rate, short), 0) by {
      hide IndicatorDelay, MapModem, RevAll;
      assert OnAir([]) == 0;
    }
    assert l.tx.rate == RateUsed(rate);
    hide *;
    DriveTimed(l, |frame| + 4, Training(m, rate, short), 0, ticks, 0, n);
    TimedMeans(Drive(l, ticks, 0, n).tx, |frame| + 4, Training(m, rate, short), Elapsed(ticks, 0, n));
  }

  // ---------------------------------------------------------------- indicators and training

  function Copies(p: Packet, n: nat): (ps: seq<Packet>)
    ensures |ps| == n
  {
    seq(n, _ => p)
  }

  lemma OneCopyMore(ps: seq<Packet>, p: Packet, n: nat)
    ensures ps + [p] + Copies(p, n) == ps + Copies(p, n + 1)
  {
  }

  /** The indicator is repeated tick by tick. */
  lemma {:induction false} Announced(l: Link, ticks: nat -> int, t: nat, n: nat)
    requires l.tx.rate > 0 && l.tx.phase.Preamble? && n <= l.tx.indLeft
    ensures Drive(l, ticks, t, n) == Link(l.tx.(indLeft := l.tx.indLeft - n), l.sent + Copies(Indicator(l.tx.ind), n), l.steps)
    decreases n
  {
    if n > 0 {
      var k := Advance(l, ticks(t));
      assert k == Link(l.tx.(indLeft := l.tx.indLeft - 1), l.sent + [Indicator(l.tx.ind)], l.steps);
      Announced(k, ticks, t + 1, n - 1);
      OneCopyMore(l.sent, Indicator(l.tx.ind), n - 1);
    } else {
      assert l.sent + Copies(Indicator(l.tx.ind), 0) == l.sent;
    }
  }

  /** A wait is over with the first tick that completes it, and nothing is sent meanwhile. */
  lemma {:induction false} HeldBack(l: Link, ticks: nat -> int, t: nat, n: nat)
    requires l.tx.rate > 0 && l.tx.phase.PreambleWait? && l.tx.wait > 0
    ensures Elapsed(ticks, t, n) < l.tx.wait ==> Drive(l, ticks, t, n) == l.(tx := l.tx.(wait := l.tx.wait - Elapsed(ticks, t, n)))
    ensures (n > 0 && Elapsed(ticks, t, n - 1) < l.tx.wait <= Elapsed(ticks, t, n))
            ==> var d := Drive(l, ticks, t, n); d.tx.phase == l.tx.next && d.sent == l.sent && d.steps == l.steps
    decreases n
  {
    if n > 0 {
      var k := Advance(l, ticks(t));
      assert l.sent + [] == l.sent;
      var w := l.tx.wait - Ms(ticks(t));
      assert k == l.(tx := l.tx.(wait := w, phase := if w <= 0 then l.tx.next else l.tx.phase));
      if w > 0 {
        HeldBack(k, ticks, t + 1, n - 1);
      } else if n > 1 {
        AtLeastFirst(ticks, t, n - 1);
      } else {
        assert Drive(k, ticks, t + 1, 0) == k;
      }
    }
  }

  lemma AtLeastFirst(ticks: nat -> int, t: nat, n: nat)
    requires n > 0
    ensures Elapsed(ticks, t, n) >= Ms(ticks(t))
  {
  }

  lemma {:induction false} DriveSplits(l: Link, ticks: nat -> int, t: nat, a: nat, b: nat)
    requires l.tx.rate > 0
    ensures Drive(l, ticks, t, a + b) == Drive(Drive(l, ticks, t, a), ticks, t + a, b)
    decreases a
  {
    hide Advance;
    if a > 0 {
      RateKept(l, ticks(t));
      DriveSplits(Advance(l, ticks(t)), ticks, t + 1, a - 1, b);
    }
  }

  /** How often the indicator is sent: the V.21 preamble three times, training once. */
  function Repeats(m: Modem): nat {
    if m.V21? then 3 else 1
  }

  /** A carrier opens with its indicators and then stays silent for the time of training; what
      follows begins with the first tick after that. */
  lemma TrainingIsGiven(l: Link, m: Modem, ticks: nat -> int, n: nat)
    requires l.tx.rate > 0 && l.tx.phase.Preamble? && l.tx.indLeft + 1 == Repeats(m) && (l.tx.follow.FollowImage? || l.tx.follow.FollowHdlc?)
    requires IndicatorDelay(l.tx.ind) > 0
    ensures var r := Repeats(m); var d := Drive(l, ticks, 0, n); var p := Indicator(l.tx.ind);
            && (n <= r ==> d.sent == l.sent + Copies(p, n) && d.steps == l.steps)
            && ((n >= r && Elapsed(ticks, r, n - r) < IndicatorDelay(l.tx.ind))
                ==> d.sent == l.sent + Copies(p, r) && d.steps == l.steps && d.tx.phase.PreambleWait?)
            && ((n > r && Elapsed(ticks, r, n - r - 1) < IndicatorDelay(l.tx.ind) <= Elapsed(ticks, r, n - r))
                ==> d.sent == l.sent + Copies(p, r) && d.steps == l.steps && d.tx.phase == Opens(l.tx))
  {
    hide IndicatorDelay, Elapsed, Drive;
    var r := Repeats(m);
    var p := Indicator(l.tx.ind);
    if n < r {
      Announced(l, ticks, 0, n);
    } else {
      var before := Link(l.tx.(indLeft := 0), l.sent + Copies(p, r - 1), l.steps);
      Announced(l, ticks, 0, r - 1);
      DriveSplits(l, ticks, 0, r - 1, 1);
      var k := Drive(l, ticks, 0, r);
      LastIndicator(before, ticks, r - 1);
      OneCopyBehind(l.sent, p, r - 1);
      DriveSplits(l, ticks, 0, r, n - r);
      HeldBack(k, ticks, r, n - r);
      if n == r { DriveNone(k, ticks, r); }
    }
  }

  lemma DriveNone(l: Link, ticks: nat -> int, t: nat)
    requires l.tx.rate > 0
    ensures Drive(l, ticks, t, 0) == l && Elapsed(ticks, t, 0) == 0
  {
  }

  lemma OneCopyBehind(ps: seq<Packet>, p: Packet, n: nat)
    ensures ps + Copies(p, n) + [p] == ps + Copies(p, n + 1)
  {
  }

  /** The phase behind training. */
  function Opens(s: Tx): Phase {
    if s.follow.FollowImage? then NonEcm else if s.stream || s.haveFrame then HdlcData else HdlcEnd
  }

  lemma LastIndicator(l: Link, ticks: nat -> int, t: nat)
    requires l.tx.rate > 0 && l.tx.phase.Preamble? && l.tx.indLeft == 0 && (l.tx.follow.FollowImage? || l.tx.follow.FollowHdlc?)
    requires IndicatorDelay(l.tx.ind) > 0
    ensures Drive(l, ticks, t, 1) == Link(l.tx.(next := Opens(l.tx), wait := IndicatorDelay(l.tx.ind), phase := PreambleWait),
                                          l.sent + [Indicator(l.tx.ind)], l.steps)
  {
    hide IndicatorDelay;
    assert Drive(Advance(l, ticks(t)), ticks, t + 1, 0) == Advance(l, ticks(t));
  }

  /** Every burst a data modem is set up for opens this way. */
  lemma CarrierOpens(s: Tx, m: Modem, rate: int, short: int, hdlc: bool)
    requires DataModem(m)
    ensures var b := SetTxType(s, m, rate, short, hdlc);
            && b.phase.Preamble? && b.indLeft + 1 == Repeats(m) && (b.follow.FollowImage? || b.follow.FollowHdlc?)
            && IndicatorDelay(b.ind) == Training(m, rate, short) > 0
  {
  }

  /** Indicator and data type name the same modulation, and the type of the fastest one a rate
      allows; training is short exactly where V.17 was asked for it. */
  lemma SameModulation(m: Modem, rate: int, short: bool)
    requires DataModem(m)
    ensures var r := MapModem(m, rate, short);
            && (r.1 == if r.0 < 8 then r.0 - 3 else r.0 / 2 + 1)
            && (m.V17? ==> r.0 >= 8 && (r.0 % 2 == 0) == short)
            && TypeRate(r.1) == (match m
                                 case V21 => 300
                                 case V27ter => if rate >= 4800 then 4800 else 2400
                                 case V29 => if rate >= 9600 then 9600 else 7200
                                 case V17 => if rate == 14400 || rate == 12000 || rate == 9600 then rate else 7200
                                 case _ => 0)
  {
  }

  /** Bit rates of the T.38 data types. */
  function TypeRate(dt: nat): nat {
    match dt
    case 0 => 300 case 1 => 2400 case 2 => 4800 case 3 => 7200 case 4 => 9600
    case 5 => 7200 case 6 => 9600 case 7 => 12000 case 8 => 14400
    case _ => 0
  }

  /** A peer that hears a modem's indicator: tones and silence leave it without a carrier, a data
      modem raises one, announced as trained unless it is V.21; what was collected is dropped. */
  lemma IndicatorUnderstood(r: Rx, m: Modem, rate: int, short: bool)
    ensures var h := Handle(r, Ind(MapModem(m, rate, short).0)); var down := if r.carrier && r.fast then [CarrierDown] else [];
            && h.rx == Rx([], DataModem(m), DataModem(m) && !m.V21?)
            && h.out == down + Opening(DataModem(m) && !m.V21?)
  {
    var down := if r.carrier && r.fast then [CarrierDown] else [];
    assert down + [] == down;
  }

  // ---------------------------------------------------------------- pauses and tones

  /** A pause or tone under way ends with the first tick that completes its time: one step is
      reported then, nothing is sent, and nothing more happens. */
  lemma {:induction false} WaitedFor(l: Link, ticks: nat -> int, t: nat, n: nat)
    requires l.tx.rate > 0 && (l.tx.phase.PauseWait? || l.tx.phase.ToneWait?) && l.tx.wait > 0
    ensures var d := Drive(l, ticks, t, n); var over := Elapsed(ticks, t, n) >= l.tx.wait;
            d.sent == l.sent && d.steps == (if over then l.steps + 1 else l.steps) && d.tx.phase == if over then Idle else l.tx.phase
    decreases n
  {
    if n > 0 {
      var k := Advance(l, ticks(t));
      assert l.sent + [] == l.sent;
      if l.tx.wait - Ms(ticks(t)) > 0 {
        WaitedFor(k, ticks, t + 1, n - 1);
      } else {
        IdleForEver(k, ticks, t + 1, n - 1);
      }
    }
  }

  /** A pause lasts the milliseconds asked for, 75 if none were. */
  lemma PauseLasts(s: Tx, rate: int, short: int, hdlc: bool, ticks: nat -> int, n: nat)
    ensures var l := Link(SetTxType(s, Pause, rate, short, hdlc), [], 0);
            var time := if rate > 0 then rate else if short > 0 then short else 75;
            l.tx.rate > 0 && Drive(l, ticks, 0, n).sent == []
            && Drive(l, ticks, 0, n).steps == if Elapsed(ticks, 0, n) >= time then 1 else 0
  {
    var l := Link(SetTxType(s, Pause, rate, short, hdlc), [], 0);
    assert l.tx.rate > 0 && l.tx.phase.PauseWait?;
    hide Drive, Elapsed;
    WaitedFor(l, ticks, 0, n);
  }

  /** A tone is told three times and then lasts 200 ms. */
  lemma ToneLasts(s: Tx, m: Modem, rate: int, short: int, hdlc: bool, ticks: nat -> int, n: nat)
    requires m.Ced? || m.Cng?
    ensures var l := Link(SetTxType(s, m, rate, short, hdlc), [], 0); var p := Indicator(if m.Ced? then CED else CNG);
            && l.tx.rate > 0 && Drive(l, ticks, 0, n).sent == Copies(p, if n < 3 then n else 3)
            && Drive(l, ticks, 0, n).steps == if n > 3 && Elapsed(ticks, 3, n - 3) >= 200 then 1 else 0
  {
    var l := Link(SetTxType(s, m, rate, short, hdlc), [], 0);
    assert l.tx.rate > 0 && l.tx.phase.Preamble? && l.tx.indLeft == 2 && l.tx.follow.FollowTone? && l.tx.wait == 200;
    assert l.tx.ind == if m.Ced? then CED else CNG;
    hide *;
    ToneRuns(l, ticks, n);
  }

  lemma ToneRuns(l: Link, ticks: nat -> int, n: nat)
    requires l.tx.rate > 0 && l.tx.phase.Preamble? && l.tx.indLeft == 2 && l.tx.follow.FollowTone? && l.tx.wait == 200
    requires l.sent == [] && l.steps == 0
    ensures Drive(l, ticks, 0, n).sent == Copies(Indicator(l.tx.ind), if n < 3 then n else 3)
    ensures Drive(l, ticks, 0, n).steps == if n > 3 && Elapsed(ticks, 3, n - 3) >= 200 then 1 else 0
  {
    hide *;
    var p := Indicator(l.tx.ind);
    if n <= 2 {
      Announced(l, ticks, 0, n);
      NoneBefore(p, n);
    } else {
      var k := ToneStarts(l, ticks);
      NoneBefore(p, 3);
      DriveSplits(l, ticks, 0, 3, n - 3);
      WaitedFor(k, ticks, 3, n - 3);
      DriveNone(k, ticks, 3);
    }
  }

  lemma NoneBefore(p: Packet, n: nat)
    ensures [] + Copies(p, n) == Copies(p, n)
  {
  }

  lemma ToneStarts(l: Link, ticks: nat -> int) returns (k: Link)
    requires l.tx.rate > 0 && l.tx.phase.Preamble? && l.tx.indLeft == 2 && l.tx.follow.FollowTone?
    ensures k == Link(l.tx.(indLeft := 0, phase := ToneWait), l.sent + Copies(Indicator(l.tx.ind), 3), l.steps)
    ensures Drive(l, ticks, 0, 3) == k
  {
    hide *;
    var p := Indicator(l.tx.ind);
    Announced(l, ticks, 0, 2);
    var before := Link(l.tx.(indLeft := 0), l.sent + Copies(p, 2), l.steps);
    DriveSplits(l, ticks, 0, 2, 1);
    LastTone(before, ticks, 2);
    OneCopyBehind(l.sent, p, 2);
    k := Link(l.tx.(indLeft := 0, phase := ToneWait), l.sent + Copies(p, 3), l.steps);
  }

  lemma LastTone(l: Link, ticks: nat -> int, t: nat)
    requires l.tx.rate > 0 && l.tx.phase.Preamble? && l.tx.indLeft == 0 && l.tx.follow.FollowTone?
    ensures Drive(l, ticks, t, 1) == Link(l.tx.(phase := ToneWait), l.sent + [Indicator(l.tx.ind)], l.steps)
  {
    assert Drive(Advance(l, ticks(t)), ticks, t + 1, 0) == Advance(l, ticks(t));
  }

  /** No modem, or the end of a call: silence is told three times, and no step is reported. */
  lemma SilenceIsTold(s: Tx, m: Modem, rate: int, short: int, hdlc: bool, ticks: nat -> int, n: nat)
    requires m.NoModem? || m.Done?
    ensures var l := Link(SetTxType(s, m, rate, short, hdlc), [], 0);
            && l.tx.rate > 0 && Drive(l, ticks, 0, n).sent == Copies(Indicator(NO_SIGNAL), if n < 3 then n else 3)
            && Drive(l, ticks, 0, n).steps == 0 && (n >= 3 ==> Drive(l, ticks, 0, n).tx.phase.Idle?)
  {
    var l := Link(SetTxType(s, m, rate, short, hdlc), [], 0);
    var p := Indicator(l.tx.ind);
    assert l.tx.rate > 0 && l.tx.phase.Preamble? && l.tx.indLeft == 2 && l.tx.follow.FollowNothing? && l.tx.ind == NO_SIGNAL;
    hide *;
    if n <= 2 {
      Announced(l, ticks, 0, n);
      NoneBefore(p, n);
    } else {
      Announced(l, ticks, 0, 2);
      var before := Link(l.tx.(indLeft := 0), [] + Copies(p, 2), 0);
      DriveSplits(l, ticks, 0, 2, 1);
      LastSilence(before, ticks, 2);
      OneCopyBehind([], p, 2);
      NoneBefore(p, 3);
      var k := Link(l.tx.(indLeft := 0, phase := Idle), Copies(p, 3), 0);
      DriveSplits(l, ticks, 0, 3, n - 3);
      IdleForEver(k, ticks, 3, n - 3);
    }
  }

  lemma LastSilence(l: Link, ticks: nat -> int, t: nat)
    requires l.tx.rate > 0 && l.tx.phase.Preamble? && l.tx.indLeft == 0 && l.tx.follow.FollowNothing?
    ensures Drive(l, ticks, t, 1) == Link(l.tx.(phase := Idle), l.sent + [Indicator(l.tx.ind)], l.steps)
  {
    assert Drive(Advance(l, ticks(t)), ticks, t + 1, 0) == Advance(l, ticks(t));
  }

  // ---------------------------------------------------------------- pacing

  /** Payload octets of some packets. */
  function Payload(ps: seq<Packet>): nat {
    if ps == [] then 0 else (if ps[0].Data? then |ps[0].payload| else 0) + Payload(ps[1..])
  }

  lemma {:induction false} PayloadAppend(a: seq<Packet>, b: seq<Packet>)
    ensures Payload(a + b) == Payload(a) + Payload(b)
    decreases |a|
  {
    if a == [] {
      assert a + b == b;
    } else {
      assert (a + b)[0] == a[0] && (a + b)[1..] == a[1..] + b;
      PayloadAppend(a[1..], b);
    }
  }

  /** What some ticks have room for at a rate: eight octets each at least. */
  function Room(rate: nat, ticks: nat -> int, t: nat, n: nat): nat
    decreases n
  {
    if n == 0 then 0
    else
      var r := rate * Ms(ticks(t)) / 8000;
      (if r < 8 then 8 else r) + Room(rate, ticks, t + 1, n - 1)
  }

  lemma PayloadOne(p: Packet)
    ensures Payload([p]) == if p.Data? then |p.payload| else 0
  {
    assert Payload([p][1..]) == 0;
  }

  lemma PayloadTwo(p: Packet, q: Packet)
    ensures Payload([p, q]) == (if p.Data? then |p.payload| else 0) + if q.Data? then |q.payload| else 0
  {
    assert [p, q][1..] == [q];
    PayloadOne(q);
  }

  lemma ChunkPaced(s: Tx, ms: nat)
    requires s.off < |s.frame|
    ensures var r := s.rate * ms / 8000; Payload(EmitChunk(s, ms).sent) <= if r < 8 then 8 else r
  {
    hide Payload;
    PayloadOne(EmitChunk(s, ms).sent[0]);
  }

  lemma DataPaced(s: Tx, ms: nat)
    ensures var r := s.rate * ms / 8000; Payload(TickData(s, ms).sent) <= if r < 8 then 8 else r
  {
    hide EmitChunk;
    if s.off < |s.frame| {
      ChunkPaced(s, ms);
    } else if s.stream && s.queue != [] && s.queue[0] != [] {
      LoadShape(s);
      LoadedFrame(s);
      ChunkPaced(Load(s, s.queue[0]).(queue := s.queue[1..]), ms);
    } else {
      assert Payload([]) == 0;
    }
  }

  lemma LoadedFrame(s: Tx)
    requires s.queue != [] && s.queue[0] != []
    ensures var t := Load(s, s.queue[0]); t.off < |t.frame|
  {
    hide RevAll;
  }

  lemma ImagePaced(s: Tx, ms: nat)
    ensures var r := s.rate * ms / 8000;
            Payload(TickImage(s, ms).sent) <= (if r < 8 then 8 else r) && Payload(TickTrail(s, ms).sent) <= if r < 8 then 8 else r
  {
    hide Pack, Payload;
    var t := TickImage(s, ms);
    if t.sent != [] { PayloadOne(t.sent[0]); assert t.sent == [t.sent[0]]; } else { NoPayload(); }
    PayloadOne(TickTrail(s, ms).sent[0]);
  }

  lemma NoPayload()
    ensures Payload([]) == 0
  {
  }

  lemma TickPaced(s: Tx, tick: int)
    requires s.rate > 0
    ensures var r := s.rate * Ms(tick) / 8000; Payload(Tick(s, tick).sent) <= if r < 8 then 8 else r
  {
    hide TickData, TickImage, TickTrail, Payload, IndicatorDelay;
    var ms := Ms(tick);
    var t := Tick(s, tick);
    NoPayload();
    match s.phase
    case HdlcData => DataPaced(s.(ms := s.ms + ms), ms);
    case NonEcm => ImagePaced(s, ms);
    case NonEcmTrail => ImagePaced(s, ms);
    case Preamble => PayloadOne(Indicator(s.ind));
    case HdlcFcs => PayloadOne(t.sent[0]);
    case HdlcEnd => PayloadTwo(t.sent[0], t.sent[1]);
    case NonEcmEnd => PayloadTwo(t.sent[0], t.sent[1]);
    case _ =>
  }

  /** A pump sends no faster than its carrier. */
  lemma {:induction false} KeepsPace(l: Link, ticks: nat -> int, t: nat, n: nat)
    requires l.tx.rate > 0
    ensures Payload(Drive(l, ticks, t, n).sent) <= Payload(l.sent) + Room(l.tx.rate, ticks, t, n)
    decreases n
  {
    hide Payload, Tick;
    if n > 0 {
      var k := Advance(l, ticks(t));
      RateStays(l.tx, ticks(t));
      TickPaced(l.tx, ticks(t));
      PayloadAppend(l.sent, Tick(l.tx, ticks(t)).sent);
      KeepsPace(k, ticks, t + 1, n - 1);
    }
  }

  /** Image octets due in some ticks: what the rate gives, eight and no more than 504 each. */
  function DueOctets(rate: nat, ticks: nat -> int, t: nat, n: nat): nat
    decreases n
  {
    if n == 0 then 0
    else
      var r := rate * Ms(ticks(t)) / 8000;
      (if r < 8 then 8 else if r > 504 then 504 else r) + DueOctets(rate, ticks, t + 1, n - 1)
  }

  lemma ImageTick(s: Tx, tick: int)
    requires s.rate > 0 && s.phase.NonEcm? && Tick(s, tick).tx.phase.NonEcm?
    ensures var r := s.rate * Ms(tick) / 8000; var n := if r < 8 then 8 else if r > 504 then 504 else r;
            Payload(Tick(s, tick).sent) == n && Tick(s, tick).tx.rate == s.rate
  {
    hide Pack, Payload;
    var t := Tick(s, tick);
    PayloadOne(t.sent[0]);
    assert t.sent == [t.sent[0]];
  }

  /** The bits do not end in the next ticks. */
  predicate KeepsImaging(l: Link, ticks: nat -> int, t: nat, n: nat)
    requires l.tx.rate > 0
    decreases n
  {
    l.tx.phase.NonEcm? && (n == 0 || (RateStays(l.tx, ticks(t)); KeepsImaging(Advance(l, ticks(t)), ticks, t + 1, n - 1)))
  }

  /** While there are image bits they go out at the carrier's rate. */
  lemma {:induction false} ImageAtPace(l: Link, ticks: nat -> int, t: nat, n: nat)
    requires l.tx.rate > 0 && KeepsImaging(l, ticks, t, n)
    ensures Payload(Drive(l, ticks, t, n).sent) == Payload(l.sent) + DueOctets(l.tx.rate, ticks, t, n)
    decreases n
  {
    hide Payload, Tick, Ms;
    if n > 0 {
      var k := Advance(l, ticks(t));
      RateStays(l.tx, ticks(t));
      ImageTick(l.tx, ticks(t));
      PayloadAppend(l.sent, Tick(l.tx, ticks(t)).sent);
      ImageAtPace(k, ticks, t + 1, n - 1);
    }
  }

  /** A frame goes out at the carrier's rate, an octet a tick at least: each tick sends what the
      rate gives, or the rest of the frame. */
  lemma ChunkAtPace(s: Tx, tick: int)
    requires s.rate > 0 && s.phase.HdlcData? && s.off < |s.frame|
    ensures var r := s.rate * Ms(tick) / 8000; var n := if r < 1 then 1 else r; var t := Tick(s, tick);
            && |t.sent| == 1 && t.sent[0].Data? && t.sent[0].payload == s.frame[s.off..t.tx.off] && t.tx.frame == s.frame
            && t.tx.off == (if s.off + n < |s.frame| then s.off + n else |s.frame|)
            && (t.tx.phase.HdlcFcs? <==> t.tx.off == |s.frame|)
  {
  }
}
