/** The T.38 transmit pump (nf_t38.c: t38_set_tx_type, t38_send_hdlc, nf_t38_pump) as a state
    machine over ticks of any length, and what a receiver makes of a burst. */
module T38Pump {
  import opened BitIo
  import opened T38Ifp

  /** The longest payload of one packet: 512 octets with a five-octet header. */
  const MAX_PAYLOAD: nat := 507
  const MAX_IMAGE: nat := 504

  datatype Phase = Idle | Preamble | PreambleWait | HdlcData | HdlcFcs | HdlcDrain | HdlcEnd
                 | NonEcm | NonEcmTrail | NonEcmEnd | ToneWait | PauseWait

  datatype Follow = FollowNothing | FollowTone | FollowImage | FollowHdlc

  datatype Modem = NoModem | Done | Pause | Ced | Cng | V21 | V27ter | V29 | V17

  /** The sending half of nf_t38_t, with the frames and image bits its user still has. */
  datatype Tx = Tx(phase: Phase, next: Phase, ind: nat, indLeft: nat, dt: nat, rate: nat, follow: Follow, stream: bool,
                   haveFrame: bool, wait: int, frame: Octets, off: nat, trailer: nat, octets: nat, ms: nat,
                   queue: seq<Octets>, bits: Bits)

  // ---------------------------------------------------------------- starting a burst

  /** indicator_delay, in milliseconds. */
  function IndicatorDelay(ind: nat): nat {
    if ind == 3 then 200
    else if ind == 4 then 900
    else if ind == 5 then 700
    else if ind == 6 || ind == 7 then 270
    else if 8 <= ind < 16 then if ind % 2 == 0 then 300 else 1400
    else 0
  }

  /** map_modem: indicator and data type. */
  function MapModem(m: Modem, rate: int, short: bool): (r: (nat, nat))
    ensures r.0 < 16 && r.1 < 9
  {
    match m
    case V21 => (V21_PREAMBLE, 0)
    case V27ter => if rate >= 4800 then (5, 2) else (4, 1)
    case V29 => if rate >= 9600 then (7, 4) else (6, 3)
    case V17 =>
      var long := if short then 0 else 1;
      if rate == 14400 then (14 + long, 8) else if rate == 12000 then (12 + long, 7)
      else if rate == 9600 then (10 + long, 6) else (8 + long, 5)
    case Ced => (CED, 0)
    case Cng => (CNG, 0)
    case _ => (NO_SIGNAL, 0)
  }

  function PhaseOf(m: Modem): Phase {
    if m.Pause? then PauseWait else Preamble
  }

  function FollowOf(m: Modem, hdlc: bool): Follow {
    if m.NoModem? || m.Done? then FollowNothing
    else if m.Ced? || m.Cng? then FollowTone
    else if hdlc then FollowHdlc else FollowImage
  }

  /** The time of a pause or tone; `short` is the duration for a pause. */
  function WaitOf(m: Modem, rate: int, short: int, wait: int): int {
    if m.Pause? then (if rate > 0 then rate else if short > 0 then short else 75)
    else if m.Ced? || m.Cng? then 200 else wait
  }

  /** t38_set_tx_type. */
  function SetTxType(s: Tx, m: Modem, rate: int, short: int, hdlc: bool): Tx {
    var r := MapModem(m, rate, short != 0);
    var left := if PhaseOf(m).Preamble? && r.0 <= V21_PREAMBLE then 2 else 0;
    Tx(PhaseOf(m), s.next, r.0, left, r.1, if rate > 0 then rate else 14400, FollowOf(m, hdlc), false, false,
       WaitOf(m, rate, short, s.wait), [], 0, 0, 0, 0, s.queue, s.bits)
  }

  /** load_hdlc_frame. */
  function Load(s: Tx, f: Octets): Tx {
    var g := if |f| > ROOM then f[..ROOM] else f;
    s.(frame := RevAll(g), off := 0, octets := s.octets + |g| + 4)
  }

  /** t38_send_hdlc. */
  function SendHdlc(s: Tx, f: Octets): Tx {
    Load(s, f).(haveFrame := true)
  }

  /** t38_begin_hdlc_stream, with the frames the user will hand out. */
  function BeginStream(s: Tx, frames: seq<Octets>): Tx {
    s.(stream := true, queue := frames)
  }

  // ---------------------------------------------------------------- the pump

  datatype Ticked = Ticked(tx: Tx, sent: seq<Packet>, done: bool)

  function Quiet(s: Tx): Ticked {
    Ticked(s, [], false)
  }

  /** Octets a tick has room for at the carrier's rate, but some in any case. */
  function Paced(rate: nat, ms: nat, least: nat): (n: nat)
    ensures n >= least
  {
    var n := rate * ms / 8000;
    if n < least then least else n
  }

  function Min(a: nat, b: nat): nat {
    if a < b then a else b
  }

  function TickPreamble(s: Tx): Ticked {
    var p := [Indicator(s.ind)];
    if s.indLeft > 0 then Ticked(s.(indLeft := s.indLeft - 1), p, false)
    else if s.follow.FollowNothing? then Ticked(s.(phase := Idle), p, false)
    else if s.follow.FollowTone? then Ticked(s.(phase := ToneWait), p, false)
    else
      var next := if s.follow.FollowImage? then NonEcm else if s.stream || s.haveFrame then HdlcData else HdlcEnd;
      var delay := IndicatorDelay(s.ind);
      Ticked(s.(next := next, wait := delay, phase := if delay > 0 then PreambleWait else next), p, false)
  }

  function TickWait(s: Tx, ms: nat, done: Phase): (t: Ticked)
    ensures t.sent == [] && !t.done
  {
    var w := s.wait - ms;
    Ticked(s.(wait := w, phase := if w <= 0 then done else s.phase), [], false)
  }

  /** A chunk of the frame that fits the carrier. */
  function EmitChunk(s: Tx, ms: nat): Ticked
    requires s.off < |s.frame|
  {
    var n := Min(Paced(s.rate, ms, 1), |s.frame| - s.off);
    Ticked(s.(off := s.off + n, phase := if s.off + n >= |s.frame| then HdlcFcs else s.phase),
           [Data(s.dt, HDLC_DATA, s.frame[s.off..s.off + n])], false)
  }

  function TickData(s: Tx, ms: nat): Ticked {
    if s.off < |s.frame| then EmitChunk(s, ms)
    else if s.stream && s.queue != [] && s.queue[0] != [] then
      var t := Load(s, s.queue[0]).(queue := s.queue[1..]);
      EmitChunk(t, ms)
    else Quiet(s.(phase := HdlcDrain))
  }

  function TickDrain(s: Tx): Ticked
    requires s.rate > 0
  {
    if s.ms < s.octets * 8000 / s.rate then Quiet(s) else Quiet(s.(phase := HdlcEnd))
  }

  function TickImage(s: Tx, ms: nat): Ticked {
    var want := Min(Paced(s.rate, ms, 8), MAX_IMAGE);
    var ended := |s.bits| < 8 * want;
    var n := if ended then |s.bits| / 8 else want;
    var sent := if n > 0 then [Data(s.dt, NONECM_DATA, Pack(s.bits[..8 * n]))] else [];
    if ended then Ticked(s.(bits := [], trailer := s.rate * 200 / 8000, phase := NonEcmTrail), sent, false)
    else Ticked(s.(bits := s.bits[8 * want..]), sent, false)
  }

  function TickTrail(s: Tx, ms: nat): Ticked {
    var n := Min(Min(Paced(s.rate, ms, 8), s.trailer), MAX_IMAGE);
    var left := s.trailer - n;
    Ticked(s.(trailer := left, phase := if left == 0 then NonEcmEnd else s.phase),
           [Data(s.dt, NONECM_DATA, seq(n, _ => 0))], false)
  }

  function TickFcs(s: Tx): Ticked {
    Ticked(s.(phase := if s.stream then HdlcData else HdlcDrain), [Data(s.dt, FCS_OK, [])], false)
  }

  /** The end of a burst, by the field type that ends its signal. */
  function TickEnd(s: Tx, ft: nat): Ticked {
    Ticked(s.(phase := Idle), [Data(s.dt, ft, []), Indicator(NO_SIGNAL)], true)
  }

  function TickTone(s: Tx, ms: nat): Ticked {
    var w := s.wait - ms;
    Ticked(s.(wait := w, phase := if w <= 0 then Idle else s.phase), [], w <= 0)
  }

  /** nf_t38_pump: the packets of one tick and whether the step was reported complete. */
  function Tick(s0: Tx, tick: int): Ticked
    requires s0.rate > 0
  {
    var ms: nat := if tick <= 0 then 30 else tick;
    var s := if s0.phase.HdlcData? || s0.phase.HdlcFcs? || s0.phase.HdlcDrain? then s0.(ms := s0.ms + ms) else s0;
    match s.phase
    case Idle => Quiet(s)
    case Preamble => TickPreamble(s)
    case PreambleWait => TickWait(s, ms, s.next)
    case HdlcData => TickData(s, ms)
    case HdlcFcs => TickFcs(s)
    case HdlcDrain => TickDrain(s)
    case HdlcEnd => TickEnd(s, HDLC_SIG_END)
    case NonEcm => TickImage(s, ms)
    case NonEcmTrail => TickTrail(s, ms)
    case NonEcmEnd => TickEnd(s, NONECM_SIG_END)
    case _ => TickTone(s, ms)
  }

  /** A pump, the packets it has sent so far, and the steps it has reported complete. */
  datatype Link = Link(tx: Tx, sent: seq<Packet>, steps: nat)

  function Advance(l: Link, tick: int): Link
    requires l.tx.rate > 0
  {
    var t := Tick(l.tx, tick);
    Link(t.tx, l.sent + t.sent, l.steps + if t.done then 1 else 0)
  }

  lemma RateStays(s: Tx, tick: int)
    requires s.rate > 0
    ensures Tick(s, tick).tx.rate == s.rate
  {
  }

  /** After `n` ticks. */
  function Drive(l: Link, ticks: nat -> int, t: nat, n: nat): (r: Link)
    requires l.tx.rate > 0
    ensures r.tx.rate == l.tx.rate
    decreases n
  {
    if n == 0 then l else RateStays(l.tx, ticks(t)); Drive(Advance(l, ticks(t)), ticks, t + 1, n - 1)
  }
}
