/** The two halves of a T.38 terminal (nf_t38.c: struct nf_t38): the pump with its paced frame
    buffer, the receiver with its reassembly buffer. */
module T38Stations {
  import opened BitIo
  import opened T38Ifp
  import opened T38Pump
  import opened T38Bursts
  import opened T38Transfer
  import U = Udptl

  // ---------------------------------------------------------------- coding

  /** ifp_data into a buffer. */
  method IfpData(buf: array<Byte>, dt: nat, ft: nat, payload: Octets) returns (len: nat)
    requires dt < 32 && ft < 8 && |payload| <= 65536 && buf.Length >= 5 + |payload|
    modifies buf
    ensures len <= buf.Length && buf[..len] == Encode(Data(dt, ft, payload))
  {
    buf[0] := 192 + 2 * dt;
    buf[1] := 1;
    buf[2] := (if payload != [] then 128 else 0) + 16 * ft;
    len := 3;
    if payload != [] {
      buf[3] := (|payload| - 1) / 256;
      buf[4] := (|payload| - 1) % 256;
      ghost var head := buf[..5];
      for i := 0 to |payload|
        invariant buf[..5] == head && buf[5..5 + i] == payload[..i]
      {
        buf[5 + i] := payload[i];
        assert buf[5..5 + (i + 1)] == buf[5..5 + i] + [payload[i]];
      }
      len := 5 + |payload|;
      assert buf[..len] == buf[..5] + buf[5..len];
    }
  }

  method DataPacket(dt: nat, ft: nat, payload: Octets) returns (ifp: Octets)
    requires dt < 32 && ft < 8 && |payload| <= MAX_PAYLOAD
    ensures ifp == Encode(Data(dt, ft, payload))
  {
    var buf := new Byte[U.MAX_IFP];
    var len := IfpData(buf, dt, ft, payload);
    ifp := buf[..len];
  }

  /** ifp_indicator. */
  method IndicatorPacket(ind: nat) returns (ifp: Octets)
    requires ind < 32
    ensures ifp == Encode(Indicator(ind))
  {
    ifp := [2 * ind];
  }

  /** Coded packets, one by one. */
  ghost predicate Sends(out: seq<Octets>, ps: seq<Packet>) {
    |out| == |ps| && forall i :: 0 <= i < |ps| ==> Codable(ps[i]) && out[i] == Encode(ps[i])
  }

  // ---------------------------------------------------------------- the pump

  class Sender {
    var phase: Phase
    var next: Phase
    var ind: nat
    var indLeft: nat
    var dt: nat
    var rate: nat
    var follow: Follow
    var stream: bool
    var haveFrame: bool
    var wait: int
    const frame: array<Byte>
    var frameLen: nat
    var off: nat
    var trailer: nat
    var octets: nat
    var ms: nat
    /** What the user of the terminal still has to hand out. */
    var queue: seq<Octets>
    var bits: Bits

    ghost predicate Valid()
      reads this
    {
      frame.Length == ROOM && frameLen <= ROOM && rate > 0 && dt < 9 && ind < 16
    }

    ghost function State(): Tx
      reads this, frame
      requires frameLen <= frame.Length
    {
      Tx(phase, next, ind, indLeft, dt, rate, follow, stream, haveFrame, wait, frame[..frameLen], off, trailer, octets, ms, queue, bits)
    }

    constructor ()
      ensures Valid() && fresh(frame) && phase.Idle? && queue == [] && bits == []
    {
      frame := new Byte[ROOM];
      phase, next, ind, indLeft, dt, rate, follow := Idle, Idle, 0, 0, 0, 14400, FollowNothing;
      stream, haveFrame, wait, frameLen, off, trailer, octets, ms := false, false, 0, 0, 0, 0, 0, 0;
      queue, bits := [], [];
    }

    /** t38_set_tx_type. */
    method SetType(m: Modem, r: int, short: int, hdlc: bool)
      requires Valid()
      modifies this
      ensures Valid() && State() == SetTxType(old(State()), m, r, short, hdlc)
    {
      hide MapModem, PhaseOf, FollowOf, WaitOf, SetTxType, State;
      ghost var s := State();
      StateFields();
      var i, d := MapModem(m, r, short != 0).0, MapModem(m, r, short != 0).1;
      var p, fo, w := Choose(m, r, short, hdlc, wait);
      phase, follow, wait := p, fo, w;
      SetCarrier(i, d, r);
      ClearBurst();
      indLeft := if p.Preamble? && i <= V21_PREAMBLE then 2 else 0;
      TypeSet(s, m, r, short, hdlc);
    }

    lemma PhaseFields()
      requires frameLen <= frame.Length
      ensures var s := State(); s.phase == phase && s.ms == ms && s.wait == wait && s.next == next && s.octets == octets && s.rate == rate
    {
    }

    lemma StateFields()
      requires frameLen <= frame.Length
      ensures var s := State(); s.next == next && s.wait == wait && s.queue == queue && s.bits == bits
    {
    }

    lemma TypeSet(s: Tx, m: Modem, r: int, short: int, hdlc: bool)
      requires Valid() && s.next == next && s.queue == queue && s.bits == bits
      requires phase == PhaseOf(m) && follow == FollowOf(m, hdlc) && wait == WaitOf(m, r, short, s.wait)
      requires var c := MapModem(m, r, short != 0);
               ind == c.0 && dt == c.1 && indLeft == if phase.Preamble? && c.0 <= V21_PREAMBLE then 2 else 0
      requires rate == (if r > 0 then r else 14400) && !stream && !haveFrame && trailer == octets == ms == frameLen == off == 0
      ensures State() == SetTxType(s, m, r, short, hdlc)
    {
      hide MapModem, PhaseOf, FollowOf, WaitOf;
      assert frame[..0] == [];
    }

    method SetCarrier(i: nat, d: nat, r: int)
      requires Valid() && i < 16 && d < 9
      modifies this`ind, this`dt, this`rate
      ensures Valid() && ind == i && dt == d && rate == if r > 0 then r else 14400
    {
      ind, dt, rate := i, d, if r > 0 then r else 14400;
    }

    /** Nothing is left of an earlier burst. */
    method ClearBurst()
      requires Valid()
      modifies this`stream, this`haveFrame, this`trailer, this`octets, this`ms, this`frameLen, this`off
      ensures Valid() && !stream && !haveFrame && trailer == octets == ms == frameLen == off == 0
    {
      stream, haveFrame, trailer := false, false, 0;
      octets, ms := 0, 0;
      frameLen, off := 0, 0;
    }

    /** What follows for each modem. */
    static method Choose(m: Modem, r: int, short: int, hdlc: bool, was: int) returns (p: Phase, fo: Follow, w: int)
      ensures p == PhaseOf(m) && fo == FollowOf(m, hdlc) && w == WaitOf(m, r, short, was)
    {
      p, fo, w := Preamble, if hdlc then FollowHdlc else FollowImage, was;
      if m.NoModem? || m.Done? {
        fo := FollowNothing;
      } else if m.Pause? {
        w := if r > 0 then r else short;
        if w <= 0 { w := if short > 0 then short else 75; }
        p := PauseWait;
      } else if m.Ced? || m.Cng? {
        w, fo := 200, FollowTone;
      }
    }

    /** load_hdlc_frame: reversed into the buffer, cut at its end. */
    method LoadFrame(f: Octets)
      requires Valid()
      modifies this`frameLen, this`off, this`octets, frame
      ensures Valid() && State() == Load(old(State()), f)
    {
      hide BitRev8;
      var len := |f|;
      if len > ROOM { len := ROOM; }
      for i := 0 to len
        invariant octets == old(octets) && forall k :: 0 <= k < i ==> frame[k] == BitRev8(f[k])
      {
        frame[i] := BitRev8(f[i]);
      }
      frameLen, off := len, 0;
      octets := octets + len + 4;
      ghost var g := if |f| > ROOM then f[..ROOM] else f;
      assert f[..len] == g && |g| == len;
      assert frame[..len] == RevAll(g);
    }

    /** t38_send_hdlc. */
    method SendFrame(f: Octets)
      requires Valid()
      modifies this`frameLen, this`off, this`octets, this`haveFrame, frame
      ensures Valid() && State() == SendHdlc(old(State()), f)
    {
      hide RevAll;
      LoadFrame(f);
      haveFrame := true;
    }

    /** t38_begin_hdlc_stream. */
    method Begin(frames: seq<Octets>)
      requires Valid()
      modifies this`stream, this`queue
      ensures Valid() && State() == BeginStream(old(State()), frames)
    {
      stream, queue := true, frames;
    }

    /** One chunk of the loaded frame. */
    method Chunk(tick: nat) returns (out: Octets)
      requires Valid() && off < frameLen <= MAX_PAYLOAD
      modifies this`off, this`phase
      ensures Valid()
      ensures var t := EmitChunk(old(State()), tick); State() == t.tx && Sends([out], t.sent)
    {
      hide Encode;
      var want := rate * tick / 8000;
      if want < 1 { want := 1; }
      var avail := frameLen - off;
      if want > avail { want := avail; }
      assert want == Min(Paced(rate, tick, 1), frameLen - off);
      assert frame[off..off + want] == frame[..frameLen][off..off + want];
      out := DataPacket(dt, HDLC_DATA, frame[off..off + want]);
      off := off + want;
      if off >= frameLen { phase := HdlcFcs; }
    }

    /** The HDLC data phase. */
    method PumpData(tick: nat) returns (out: seq<Octets>)
      requires Valid() && frameLen <= MAX_PAYLOAD && (stream && queue != [] ==> |queue[0]| <= MAX_PAYLOAD)
      modifies this`off, this`phase, this`frameLen, this`octets, this`queue, frame
      ensures Valid()
      ensures var t := TickData(old(State()), tick); State() == t.tx && Sends(out, t.sent)
    {
      hide EmitChunk, RevAll, Encode;
      out := [];
      if off >= frameLen {
        if stream && queue != [] && queue[0] != [] {
          var f := queue[0];
          queue := queue[1..];
          LoadFrame(f);
        } else {
          phase := HdlcDrain;
          return;
        }
      }
      var p := Chunk(tick);
      out := [p];
    }

    /** Up to eight bits of the next octet. */
    method TakeOctet() returns (got: Bits)
      requires Valid()
      modifies this`bits
      ensures Valid() && |got| <= 8 && old(bits) == got + bits && (|got| < 8 ==> bits == [])
    {
      got := [];
      while |got| < 8 && bits != []
        invariant |got| <= 8 && old(bits) == got + bits
      {
        got := got + [bits[0]];
        bits := bits[1..];
      }
    }

    /** Whole octets, until there are enough or the bits run out. */
    method TakeOctets(want: nat) returns (chunk: Octets, ended: bool)
      requires Valid()
      modifies this`bits
      ensures Valid() && ended == (|old(bits)| < 8 * want)
      ensures var n := if ended then |old(bits)| / 8 else want;
              chunk == Pack(old(bits)[..8 * n]) && bits == if ended then [] else old(bits)[8 * n..]
    {
      hide PackOne;
      ghost var was := bits;
      chunk, ended := [], false;
      while |chunk| < want && !ended
        invariant Valid() && |chunk| <= want && 8 * |chunk| <= |was| && chunk == Pack(was[..8 * |chunk|])
        invariant if ended then bits == [] && |was| / 8 == |chunk| < want else bits == was[8 * |chunk|..]
        decreases want - |chunk|, if ended then 0 else 1
      {
        var n := |chunk|;
        var got := TakeOctet();
        if |got| < 8 {
          ended := true;
        } else {
          assert got == was[8 * n..8 * n + 8];
          chunk := chunk + [PackOne(got)];
          PackNext(was, n);
        }
      }
    }

    /** The image phase: whole octets at the carrier's pace, until the bits run out. */
    method PumpImage(tick: nat) returns (out: seq<Octets>)
      requires Valid()
      modifies this`bits, this`trailer, this`phase
      ensures Valid()
      ensures var t := TickImage(old(State()), tick); State() == t.tx && Sends(out, t.sent)
    {
      hide Pack, Encode, Sends;
      var want := rate * tick / 8000;
      if want < 8 { want := 8; }
      if want > MAX_IMAGE { want := MAX_IMAGE; }
      assert want == Min(Paced(rate, tick, 8), MAX_IMAGE);
      hide Paced;
      var chunk, ended := TakeOctets(want);
      out := [];
      SendsNone();
      if |chunk| > 0 {
        var p := DataPacket(dt, NONECM_DATA, chunk);
        SendsOne(Data(dt, NONECM_DATA, chunk));
        out := [p];
      }
      if ended {
        trailer := rate * 200 / 8000;
        phase := NonEcmTrail;
      }
    }

    /** The zero trailer. */
    method PumpTrail(tick: nat) returns (out: Octets)
      requires Valid()
      modifies this`trailer, this`phase
      ensures Valid()
      ensures var t := TickTrail(old(State()), tick); State() == t.tx && Sends([out], t.sent)
    {
      hide Encode;
      var want := rate * tick / 8000;
      if want < 8 { want := 8; }
      if want > trailer { want := trailer; }
      if want > MAX_IMAGE { want := MAX_IMAGE; }
      assert want == Min(Min(Paced(rate, tick, 8), trailer), MAX_IMAGE);
      out := DataPacket(dt, NONECM_DATA, seq(want, _ => 0));
      trailer := trailer - want;
      if trailer <= 0 { phase := NonEcmEnd; }
    }

    /** The preamble. */
    method PumpPreamble() returns (out: Octets)
      requires Valid() && phase.Preamble?
      modifies this`indLeft, this`phase, this`next, this`wait
      ensures Valid()
      ensures var t := TickPreamble(old(State())); State() == t.tx && Sends([out], t.sent)
    {
      hide Encode;
      out := IndicatorPacket(ind);
      if indLeft > 0 {
        indLeft := indLeft - 1;
      } else if follow.FollowNothing? {
        phase := Idle;
      } else if follow.FollowTone? {
        phase := ToneWait;
      } else {
        next := if follow.FollowHdlc? then (if stream then HdlcData else if haveFrame then HdlcData else HdlcEnd) else NonEcm;
        wait := IndicatorDelay(ind);
        phase := if wait > 0 then PreambleWait else next;
      }
    }

    /** The end of a burst: signal end, then no signal. */
    method PumpEnd(ft: nat) returns (out: seq<Octets>)
      requires Valid() && ft < 8
      modifies this`phase
      ensures Valid()
      ensures var t := TickEnd(old(State()), ft); State() == t.tx && t.done && Sends(out, t.sent)
    {
      hide Encode, Sends;
      SendsEnd(Data(dt, ft, []));
      var p := DataPacket(dt, ft, []);
      var q := IndicatorPacket(NO_SIGNAL);
      out, phase := [p, q], Idle;
    }

    method PumpFcs() returns (out: seq<Octets>)
      requires Valid()
      modifies this`phase
      ensures Valid()
      ensures var t := TickFcs(old(State())); State() == t.tx && !t.done && Sends(out, t.sent)
    {
      hide Encode, Sends;
      SendsOne(Data(dt, FCS_OK, []));
      var p := DataPacket(dt, FCS_OK, []);
      out, phase := [p], if stream then HdlcData else HdlcDrain;
    }

    /** Waiting after the preamble or through a tone. */
    method PumpWait(span: nat, then': Phase) returns (over: bool)
      requires Valid()
      modifies this`wait, this`phase
      ensures Valid() && over == (old(wait) - span <= 0)
      ensures State() == old(State()).(wait := old(wait) - span, phase := if over then then' else old(phase))
    {
      wait := wait - span;
      over := wait <= 0;
      if over { phase := then'; }
    }

    /** The carrier is held until what was sent could have been played out. */
    method PumpDrain()
      requires Valid()
      modifies this`phase
      ensures Valid() && State() == if ms < octets * 8000 / rate then old(State()) else old(State()).(phase := HdlcEnd)
    {
      if ms >= octets * 8000 / rate { phase := HdlcEnd; }
    }

    /** Time on the carrier counts in the HDLC phases. */
    method CountTime(span: nat)
      requires Valid()
      modifies this`ms
      ensures Valid() && State() == old(State()).(ms := if phase.HdlcData? || phase.HdlcFcs? || phase.HdlcDrain? then old(ms) + span else old(ms))
    {
      if phase.HdlcData? || phase.HdlcFcs? || phase.HdlcDrain? { ms := ms + span; }
    }

    /** nf_t38_pump. */
    method Pump(tick: int) returns (out: seq<Octets>, done: bool)
      requires Valid() && frameLen <= MAX_PAYLOAD && (stream && queue != [] ==> |queue[0]| <= MAX_PAYLOAD)
      modifies this, frame
      ensures Valid()
      ensures var t := Tick(old(State()), tick); State() == t.tx && done == t.done && Sends(out, t.sent)
    {
      hide Tick, TickPreamble, TickData, TickImage, TickTrail, TickFcs, TickEnd, TickDrain, TickTone, TickWait, Encode, Sends, State;
      SendsNone();
      var span: nat := if tick <= 0 then 30 else tick;
      ghost var s := State();
      PhaseFields();
      CountTime(span);
      PhaseFields();
      out, done := [], false;
      TickCases(s, tick);
      match phase {
        case Idle =>
        case Preamble =>
          var p := PumpPreamble();
          out := [p];
        case PreambleWait => var over := PumpWait(span, next);
        case HdlcData => out := PumpData(span);
        case HdlcFcs => out := PumpFcs();
        case HdlcDrain => PumpDrain();
        case HdlcEnd =>
          out := PumpEnd(HDLC_SIG_END);
          done := true;
        case NonEcm => out := PumpImage(span);
        case NonEcmTrail =>
          var p := PumpTrail(span);
          out := [p];
        case NonEcmEnd =>
          out := PumpEnd(NONECM_SIG_END);
          done := true;
        case ToneWait => done := PumpWait(span, Idle);
        case PauseWait => done := PumpWait(span, Idle);
      }
    }
  }

  /** The tick, phase by phase. */
  lemma TickCases(s: Tx, tick: int)
    requires s.rate > 0
    ensures var ms: nat := if tick <= 0 then 30 else tick; var u := s.(ms := s.ms + ms);
            var w := s.wait - ms; var t := Tick(s, tick);
            match s.phase
            case Idle => t == Ticked(s, [], false)
            case Preamble => t == TickPreamble(s) && !t.done
            case PreambleWait => t == Ticked(s.(wait := w, phase := if w <= 0 then s.next else s.phase), [], false)
            case HdlcData => t == TickData(u, ms) && !t.done
            case HdlcFcs => t == TickFcs(u) && !t.done
            case HdlcDrain => t == Ticked(if u.ms < u.octets * 8000 / u.rate then u else u.(phase := HdlcEnd), [], false)
            case HdlcEnd => t == TickEnd(s, HDLC_SIG_END) && t.done
            case NonEcm => t == TickImage(s, ms) && !t.done
            case NonEcmTrail => t == TickTrail(s, ms) && !t.done
            case NonEcmEnd => t == TickEnd(s, NONECM_SIG_END) && t.done
            case _ => t == Ticked(s.(wait := w, phase := if w <= 0 then Idle else s.phase), [], w <= 0)
  {
    hide TickPreamble, TickData, TickImage, TickTrail, TickFcs, TickEnd;
    var ms: nat := if tick <= 0 then 30 else tick;
    NotDone(s, ms);
    NotDone(s.(ms := s.ms + ms), ms);
  }

  /** Only the last phase completes the step. */
  lemma NotDone(s: Tx, ms: nat)
    ensures !TickPreamble(s).done && !TickData(s, ms).done && !TickFcs(s).done && !TickImage(s, ms).done && !TickTrail(s, ms).done
    ensures TickEnd(s, HDLC_SIG_END).done && TickEnd(s, NONECM_SIG_END).done
  {
    hide Paced, Pack, RevAll;
  }

  lemma SendsNone()
    ensures Sends([], [])
  {
  }

  lemma SendsOne(p: Packet)
    requires Codable(p)
    ensures Sends([Encode(p)], [p])
  {
    hide Encode;
  }

  lemma SendsEnd(p: Packet)
    requires Codable(p)
    ensures Codable(Indicator(NO_SIGNAL)) && Sends([Encode(p), Encode(Indicator(NO_SIGNAL))], [p, Indicator(NO_SIGNAL)])
  {
    hide Encode;
  }

  lemma PackNext(b: Bits, n: nat)
    requires 8 * n + 8 <= |b|
    ensures Pack(b[..8 * (n + 1)]) == Pack(b[..8 * n]) + [PackOne(b[8 * n..8 * n + 8])]
  {
    hide PackOne;
    var p, q := Pack(b[..8 * (n + 1)]), Pack(b[..8 * n]);
    forall i | 0 <= i < n ensures p[i] == q[i] {
      assert b[..8 * (n + 1)][8 * i..8 * i + 8] == b[..8 * n][8 * i..8 * i + 8];
    }
    assert b[..8 * (n + 1)][8 * n..8 * n + 8] == b[8 * n..8 * n + 8];
  }

  // ---------------------------------------------------------------- the receiver

  class Receiver {
    const hdlc: array<Byte>
    var len: nat
    var carrier: bool
    var fast: bool

    ghost predicate Valid()
      reads this
    {
      hdlc.Length == ROOM && len <= ROOM
    }

    ghost function State(): Rx
      reads this, hdlc
      requires len <= hdlc.Length
    {
      Rx(hdlc[..len], carrier, fast)
    }

    constructor ()
      ensures Valid() && fresh(hdlc) && State() == Rx([], false, false)
    {
      hdlc := new Byte[ROOM];
      len, carrier, fast := 0, false, false;
    }

    method CarrierDown() returns (out: seq<Output>)
      requires Valid()
      modifies this`carrier
      ensures Valid() && Drop(old(State())) == Handled(State(), out)
    {
      out := if carrier && fast then [Output.CarrierDown] else [];
      carrier := false;
    }

    method HdlcFrame(ok: bool) returns (out: seq<Output>)
      requires Valid()
      modifies this`len
      ensures Valid() && TakeFrame(old(State()), ok) == Handled(State(), out)
    {
      out := if len > 0 then [Accept(hdlc[..len], ok)] else [];
      len := 0;
    }

    method FrameAndDown(ok: bool) returns (out: seq<Output>)
      requires Valid()
      modifies this`len, this`carrier
      ensures Valid() && TakeAndDrop(old(State()), ok) == Handled(State(), out)
    {
      out := HdlcFrame(ok);
      var down := CarrierDown();
      out := out + down;
    }

    /** rx_indicator. */
    method TakeIndicator(ind: nat) returns (out: seq<Output>)
      requires Valid()
      modifies this`len, this`carrier, this`fast
      ensures Valid() && Handle(old(State()), Ind(ind)) == Handled(State(), out)
    {
      out := CarrierDown();
      len := 0;
      if ind == NO_SIGNAL || ind == CED || ind == CNG {
        fast := false;
        return;
      }
      fast := ind != V21_PREAMBLE;
      carrier := true;
      if fast { out := out + [CarrierUp, Trained]; } else { assert out + [] == out; }
    }

    /** HDLC octets are appended while there is room for the whole payload. */
    method Append(p: Octets)
      requires Valid()
      modifies this`len, hdlc
      ensures Valid() && Handled(State(), []) == Handle(old(State()), Field(HDLC_DATA, p))
    {
      hide BitRev8;
      ghost var was := hdlc[..len];
      if p != [] && len + |p| <= ROOM {
        for i := 0 to |p|
          invariant len == old(len) && hdlc[..len] == was && forall k :: 0 <= k < i ==> hdlc[len + k] == BitRev8(p[k])
        {
          hdlc[len + i] := BitRev8(p[i]);
        }
        len := len + |p|;
        assert hdlc[..len] == was + RevAll(p);
      }
    }

    /** Image octets go up bit by bit, the highest first. */
    method ImageBits(p: Octets) returns (out: seq<Output>)
      ensures out == BitsUp(Unpack(p))
    {
      hide ByteBits;
      out := [];
      for i := 0 to |p|
        invariant out == BitsUp(Unpack(p))[..8 * i]
      {
        for b := 0 to 8
          invariant out == BitsUp(Unpack(p))[..8 * i + b]
        {
          assert Unpack(p)[8 * i + b] == ByteBits(p[i])[7 - b];
          out := out + [Bit(ByteBits(p[i])[7 - b])];
        }
      }
    }

    /** rx_data_field. */
    method TakeField(ft: nat, p: Octets) returns (out: seq<Output>)
      requires Valid()
      modifies this`len, this`carrier, hdlc
      ensures Valid() && Handle(old(State()), Field(ft, p)) == Handled(State(), out)
    {
      hide TakeFrame, TakeAndDrop, Drop, BitsUp, Unpack, RevAll;
      out := [];
      if ft == HDLC_DATA { Append(p); }
      else if ft == FCS_OK { out := HdlcFrame(true); }
      else if ft == FCS_BAD { out := HdlcFrame(false); }
      else if ft == FCS_OK_SIG_END { out := FrameAndDown(true); }
      else if ft == FCS_BAD_SIG_END { out := FrameAndDown(false); }
      else if ft == HDLC_SIG_END { out := FrameAndDown(true); }
      else if ft == NONECM_DATA { out := ImageBits(p); }
      else if ft == NONECM_SIG_END { out := CarrierDown(); }
    }

    /** The fields of a data packet, up to where it breaks off. */
    method TakeFields(buf: Octets, start: nat, count: nat) returns (out: seq<Output>)
      requires Valid()
      modifies this`len, this`carrier, hdlc
      ensures Valid() && HandleAll(old(State()), DecodeFields(buf, start, count)) == Handled(State(), out)
    {
      hide Handle, HandleAll, DecodeFields;
      out := [];
      ghost var s := State();
      ghost var es: seq<Event> := [];
      HandleNothing(s);
      var ptr: nat := start;
      var i: nat := 0;
      assert [] + DecodeFields(buf, start, count) == DecodeFields(buf, start, count);
      while i < count
        invariant Valid() && i <= count && HandleAll(s, es) == Handled(State(), out)
        invariant DecodeFields(buf, start, count) == es + DecodeFields(buf, ptr, count - i)
      {
        FieldStep(buf, ptr, count - i);
        if ptr >= |buf| { assert es + [] == es; return; }
        var fb := buf[ptr];
        var ft := fb / 16 % 8;
        var p: Octets := [];
        ptr := ptr + 1;
        if fb >= 128 {
          if ptr + 1 >= |buf| { assert es + [] == es; return; }
          var hi: int, lo: int := buf[ptr], buf[ptr + 1];
          var flen: nat := hi * 256 + lo + 1;
          ptr := ptr + 2;
          if ptr + flen > |buf| { assert es + [] == es; return; }
          p := buf[ptr..ptr + flen];
          ptr := ptr + flen;
        }
        var o := TakeField(ft, p);
        HandleAllAppend(s, es, [Field(ft, p)]);
        HandleOne(HandleAll(s, es).rx, Field(ft, p));
        Assoc(es, [Field(ft, p)], DecodeFields(buf, ptr, count - (i + 1)));
        es := es + [Field(ft, p)];
        out := out + o;
        i := i + 1;
      }
      FieldStep(buf, ptr, 0);
      assert es + [] == es;
    }

    /** rx_ifp. */
    method RxIfp(buf: Octets) returns (out: seq<Output>)
      requires Valid()
      modifies this`len, this`carrier, this`fast, hdlc
      ensures Valid() && HandleAll(old(State()), Decode(buf)) == Handled(State(), out)
    {
      hide Handle, HandleAll, DecodeFields;
      HandleNothing(State());
      out := [];
      if |buf| < 1 { return; }
      if buf[0] / 64 % 2 == 0 {
        if buf[0] >= 128 { return; }
        HandleOne(State(), Ind(buf[0] / 2 % 64));
        out := TakeIndicator(buf[0] / 2 % 64);
        return;
      }
      if |buf| == 1 { return; }
      var ptr: nat := 1;
      var count: nat;
      if buf[1] >= 128 {
        if |buf| == 2 { return; }
        var hi: int, lo: int := buf[1], buf[2];
        count := hi % 64 * 256 + lo;
        ptr := 3;
      } else {
        count := buf[1];
        ptr := 2;
      }
      if count > 64 { return; }
      out := TakeFields(buf, ptr, count);
    }
  }

  lemma HandleNothing(s: Rx)
    ensures HandleAll(s, []) == Handled(s, [])
  {
  }

  /** One field more, or the end. */
  lemma FieldStep(b: Octets, pos: nat, count: nat)
    ensures count == 0 || pos >= |b| ==> DecodeFields(b, pos, count) == []
    ensures count > 0 && pos < |b| && b[pos] < 128 ==>
              DecodeFields(b, pos, count) == [Field(b[pos] / 16 % 8, [])] + DecodeFields(b, pos + 1, count - 1)
    ensures count > 0 && pos < |b| && b[pos] >= 128 && pos + 2 >= |b| ==> DecodeFields(b, pos, count) == []
    ensures count > 0 && pos < |b| && b[pos] >= 128 && pos + 2 < |b| ==>
              var hi: int, lo: int := b[pos + 1], b[pos + 2];
              var n := hi * 256 + lo + 1;
              DecodeFields(b, pos, count)
              == if pos + 3 + n > |b| then []
                 else [Field(b[pos] / 16 % 8, b[pos + 3..pos + 3 + n])] + DecodeFields(b, pos + 3 + n, count - 1)
  {
  }

  // ---------------------------------------------------------------- both together

  /** The packets of a tick, one after another. */
  method TakeAll(rx: Receiver, sent: seq<Octets>, ghost ps: seq<Packet>) returns (out: seq<Output>)
    requires rx.Valid() && Sends(sent, ps)
    modifies rx, rx.hdlc
    ensures rx.Valid() && HandleAll(old(rx.State()), Events(ps)) == Handled(rx.State(), out)
  {
    hide HandleAll, Handle, Encode, Decode;
    out := [];
    ghost var s := rx.State();
    HandleNothing(s);
    assert Events(ps[..0]) == [];
    for i := 0 to |sent|
      invariant rx.Valid() && HandleAll(s, Events(ps[..i])) == Handled(rx.State(), out)
    {
      IfpRoundTrip(ps[i]);
      var o := rx.RxIfp(sent[i]);
      assert Events(ps[..i + 1]) == Events(ps[..i]) + [EventOf(ps[i])];
      HandleAllAppend(s, Events(ps[..i]), [EventOf(ps[i])]);
      out := out + o;
    }
    assert ps[..|sent|] == ps;
  }

  lemma PeerAppend(r: Rx, sent: seq<Packet>, ps: seq<Packet>)
    ensures var h := Peer(r, sent); var t := HandleAll(h.rx, Events(ps)); Peer(r, sent + ps) == Handled(t.rx, h.out + t.out)
  {
    hide HandleAll;
    assert Events(sent + ps) == Events(sent) + Events(ps);
    HandleAllAppend(r, Events(sent), Events(ps));
  }

  /** A terminal pumped at any pace into a peer until its step is complete: the peer hands up
      exactly the frames of the stream, and one completion is reported. */
  method RunStream(tx: Sender, rx: Receiver, m: Modem, rate: int, short: int, frames: seq<Octets>, ticks: nat -> int)
    returns (out: seq<Output>, completions: nat)
    requires tx.Valid() && rx.Valid() && tx.frame != rx.hdlc && DataModem(m) && Fit(frames) && !(rx.carrier && rx.fast)
    modifies tx, tx.frame, rx, rx.hdlc
    ensures tx.Valid() && rx.Valid() && tx.phase.Idle? && completions == 1
    ensures out == Opening(!m.V21?) + Accepts(frames) + Closing(!m.V21?)
  {
    hide SetTxType, BeginStream, Carrying, InBurst, Tick, Nearer, Rank, Amount, Peer, Sends, Accepts, Opening, Closing, HandleAll, Events;
    ghost var r, fast := rx.State(), !m.V21?;
    StreamStarts(tx.State(), m, rate, short, frames, r);
    tx.SetType(m, rate, short, true);
    tx.Begin(frames);
    ghost var l := Link(tx.State(), [], 0);
    PeerNothing(r);
    RateOf(l.tx);
    out, completions := [], 0;
    var t := 0;
    while !tx.phase.Idle?
      invariant tx.Valid() && rx.Valid() && l.tx == tx.State() && l.tx.rate > 0 && l.steps == completions
      invariant InBurst(l.tx) && Carrying(l, r, frames, fast) && Peer(r, l.sent) == Handled(rx.State(), out)
      decreases Rank(tx.phase), Amount(tx.State())
    {
      CarryingShort(l, r, frames, fast);
      TickNearer(l.tx, ticks(t));
      TickKeeps(l, r, frames, fast, ticks(t));
      RateStays(l.tx, ticks(t));
      NearerMeans(l.tx, Tick(l.tx, ticks(t)).tx);
      ghost var ps := Tick(l.tx, ticks(t)).sent;
      var sent, done := tx.Pump(ticks(t));
      var o := TakeAll(rx, sent, ps);
      PeerAppend(r, l.sent, ps);
      l := Advance(l, ticks(t));
      out := out + o;
      if done { completions := completions + 1; }
      t := t + 1;
    }
    CarryingMeans(l, r, frames, fast);
  }
}
