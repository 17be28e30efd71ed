/** The HDLC transmit pump and the bit receiver as objects (nf_hdlc.c: nf_hdlc_tx_t,
    nf_hdlc_rx_t), proved against HdlcFraming: the pump puts out exactly the prescribed
    stream, the receiver reacts as prescribed. */
module HdlcStations {
  import opened Arithmetic
  import opened BitIo
  import opened HdlcCrc
  import opened HdlcFraming

  const SIG_END_OF_DATA: int := -7

  /** What follows a frame: flags, and the frames the source still has. */
  ghost function Tail(source: seq<seq<Byte>>, gap: nat): Bits {
    if source == [] then Flags(3) else Flags(gap) + FrameBits(source[0]) + Tail(source[1..], gap)
  }

  /** What follows the preamble when nothing is queued. */
  ghost function FromSource(source: seq<seq<Byte>>, gap: nat): Bits {
    if source == [] then [] else FrameBits(source[0]) + Tail(source[1..], gap)
  }

  /** A source's frames make a burst. */
  lemma {:induction false} SourceIsBurst(source: seq<seq<Byte>>, gap: nat)
    ensures FromSource(source, gap) == Burst(source, gap)
  {
    hide FrameBits, Flags;
    if source != [] {
      SourceIsBurst(source[1..], gap);
      if |source| == 1 {
        assert source[1..] == [];
      } else {
        assert Tail(source[1..], gap) == Flags(gap) + FromSource(source[1..], gap);
      }
      var n := if |source| == 1 then 3 else gap;
      assert FrameBits(source[0]) + (Flags(n) + Burst(source[1..], gap)) == FrameBits(source[0]) + Flags(n) + Burst(source[1..], gap);
    }
  }

  class HdlcTx {
    const interFrameFlags: nat
    var buf: seq<Byte>
    var pos: nat
    var bytebit: nat
    var ones: nat
    var stuff: bool
    var sendingData: bool
    var flagBitpos: nat
    var flagOctets: nat
    var reportFlagUnderflow: bool
    var txEnd: bool
    /** The streaming source behind the underflow handler. */
    var streaming: bool
    var source: seq<seq<Byte>>

    ghost predicate Valid()
      reads this
    {
      && flagBitpos < 8
      && (sendingData ==> pos <= |buf| && bytebit < 8 && (pos == |buf| ==> bytebit == 0) && |buf| > 0
                          && (if stuff then ones == 5 else ones <= 4) && flagBitpos == 0)
    }

    /** The pump will come to an end: the source still streams, or the end is marked. */
    ghost predicate Active()
      reads this
    {
      && Valid() && AllSendable(source)
      && (if streaming then sendingData || buf != [] || (flagOctets > 0 && reportFlagUnderflow) else txEnd)
    }

    ghost function Queue(): seq<seq<Byte>>
      reads this`streaming, this`source
    {
      if streaming then source else []
    }

    ghost function FlagPart(): Bits
      reads this
      requires flagBitpos < 8
    {
      if flagBitpos == 0 then Flags(flagOctets)
      else Flag()[flagBitpos..] + Flags(if flagOctets > 0 then flagOctets - 1 else 0)
    }

    /** Everything the pump has yet to put out. */
    ghost function Rest(): Bits
      reads this
      requires Active()
    {
      if sendingData then
        (if stuff then [false] else []) + Stuff(BytesBits(buf)[8 * pos + bytebit..], if stuff then 0 else ones)
          + Tail(Queue(), interFrameFlags)
      else
        FlagPart() + (if buf != [] then Stuff(BytesBits(buf), 0) + Tail(Queue(), interFrameFlags) else FromSource(Queue(), interFrameFlags))
    }

    constructor (interFrameFlags: nat)
      ensures Valid() && this.interFrameFlags == interFrameFlags && buf == [] && !sendingData && !streaming && !txEnd
      ensures flagOctets == 0 && flagBitpos == 0
    {
      this.interFrameFlags := interFrameFlags;
      buf, pos, bytebit, ones, stuff, sendingData := [], 0, 0, 0, false, false;
      flagBitpos, flagOctets, reportFlagUnderflow, txEnd := 0, 0, false, false;
      streaming, source := false, [];
    }

    /** nf_hdlc_tx_frame: queues a frame with its check sequence; none marks the end. */
    method TxFrame(payload: seq<Byte>, crc: CrcTable) returns (ok: bool)
      requires crc.Valid()
      modifies this`buf, this`pos, this`bytebit, this`txEnd, crc`ready, crc.table
      ensures crc.Valid() && ok == (|payload| == 0 || (Sendable(payload) && old(buf) == []))
      ensures if |payload| == 0 then txEnd && buf == old(buf) && pos == old(pos) && bytebit == old(bytebit)
              else if ok then buf == payload + Fcs(payload) && pos == 0 && bytebit == 0 && !txEnd
              else buf == old(buf) && pos == old(pos) && bytebit == old(bytebit) && txEnd == old(txEnd)
    {
      hide Fcs, Divide, BytesBits;
      if |payload| == 0 { txEnd := true; return true; }
      if |payload| > MAX_FRAME || buf != [] { return false; }
      var c := crc.Crc16(payload, Ones());
      c := Xor(c, Ones());
      FcsIs(payload);
      buf := payload + [OctetOf(c[..8]), OctetOf(c[8..])];
      pos, bytebit, txEnd := 0, 0, false;
      ok := true;
    }

    /** nf_hdlc_tx_flags. */
    method TxFlags(count: nat)
      modifies this`flagOctets, this`reportFlagUnderflow, this`txEnd
      ensures flagOctets == count && reportFlagUnderflow && !txEnd
    {
      flagOctets, reportFlagUnderflow, txEnd := count, true, false;
    }

    /** begin_hdlc_stream: the frames will be asked for one by one. */
    method Stream(frames: seq<seq<Byte>>)
      requires Valid() && !sendingData && buf == [] && flagOctets > 0 && reportFlagUnderflow && AllSendable(frames)
      modifies this`streaming, this`source
      ensures Active() && streaming && source == frames && Rest() == FlagPart() + FromSource(frames, interFrameFlags)
    {
      streaming, source := true, frames;
    }

    /** The underflow handler: the next frame of the source, or the end. */
    method Underflow(crc: CrcTable)
      requires crc.Valid() && buf == [] && AllSendable(source)
      modifies this`buf, this`pos, this`bytebit, this`txEnd, this`streaming, this`source, crc`ready, crc.table
      ensures crc.Valid() && AllSendable(source)
      ensures var q := old(Queue());
              if q == [] then buf == [] && !streaming && (old(streaming) ==> txEnd) && (!old(streaming) ==> txEnd == old(txEnd))
              else buf == q[0] + Fcs(q[0]) && pos == 0 && bytebit == 0 && streaming && source == q[1..]
    {
      hide Fcs;
      if !streaming { return; }
      if source != [] {
        var _ := TxFrame(source[0], crc);
        source := source[1..];
      } else {
        streaming := false;
        var _ := TxFrame([], crc);
      }
    }

    /** Moving on from data bit to data bit, stuffing after the fifth one. */
    method DataBit() returns (bit: int)
      requires Active() && sendingData && !stuff && pos < |buf|
      modifies this`bytebit, this`pos, this`ones, this`stuff
      ensures Active() && old(Rest()) != [] && bit == (if old(Rest())[0] then 1 else 0) && Rest() == old(Rest())[1..]
    {
      hide BytesBits, Tail, Pow, AllSendable, Stuff, FromSource, FrameBits, Flags, Flag;
      ghost var i, tail := 8 * pos + bytebit, Tail(Queue(), interFrameFlags);
      ghost var x := BytesBits(buf)[i..];
      BytesBitAt(buf, i);
      assert i / 8 == pos && i % 8 == bytebit && x[0] == BytesBits(buf)[i] && x[1..] == BytesBits(buf)[i + 1..];
      bit := (buf[pos] / Pow(2, bytebit)) % 2;
      bytebit := bytebit + 1;
      if bytebit == 8 {
        bytebit := 0;
        pos := pos + 1;
      }
      StuffStep(x, ones, tail);
      if bit == 1 {
        ones := ones + 1;
        if ones == 5 { stuff := true; }
      } else {
        ones := 0;
      }
    }

    /** A frame is out: the source may queue the next; flags follow. */
    method EndFrame(crc: CrcTable)
      requires Active() && crc.Valid() && sendingData && !stuff && pos == |buf|
      modifies this, crc`ready, crc.table
      ensures crc.Valid() && Active() && !sendingData && Rest() == old(Rest())
    {
      hide BytesBits, Tail, Stuff, FromSource, FrameBits, Flags, AllSendable;
      FrameDone(BytesBits(buf), ones, Tail(Queue(), interFrameFlags));
      TailSplits(Queue(), interFrameFlags);
      SourceSplits([], interFrameFlags);
      sendingData := false;
      flagBitpos := 0;
      buf := [];
      reportFlagUnderflow := false;
      Underflow(crc);
      flagOctets := if buf != [] then interFrameFlags else 3;
    }

    /** nf_hdlc_tx_get_bit: the next bit of the stream, or its end. */
    method GetBit(crc: CrcTable) returns (bit: int)
      requires Active() && crc.Valid()
      modifies this, crc`ready, crc.table
      ensures crc.Valid() && Valid()
      ensures if old(Rest()) == [] then bit == SIG_END_OF_DATA && !txEnd
              else Active() && bit == (if old(Rest())[0] then 1 else 0) && Rest() == old(Rest())[1..]
    {
      hide BytesBits, Tail, Stuff, FromSource, FrameBits, Flags, AllSendable;
      if sendingData {
        if stuff {
          StuffedZero(BytesBits(buf)[8 * pos + bytebit..], Tail(Queue(), interFrameFlags));
          stuff := false;
          ones := 0;
          return 0;
        }
        if pos < |buf| {
          bit := DataBit();
          return;
        }
        EndFrame(crc);
      }
      NoFlags();
      SourceSplits([], interFrameFlags);
      if flagBitpos == 0 && flagOctets == 0 {
        if buf != [] {
          StartsWhole(BytesBits(buf), Tail(Queue(), interFrameFlags));
          sendingData := true;
          pos, bytebit := 0, 0;
          ones, stuff := 0, false;
          bit := DataBit();
          return;
        }
        if txEnd {
          txEnd := false;
          return SIG_END_OF_DATA;
        }
      }
      bit := FlagBit(crc);
    }

    /** What follows the flags. */
    ghost function Behind(): Bits
      reads this`buf, this`streaming, this`source
    {
      if buf != [] then Stuff(BytesBits(buf), 0) + Tail(Queue(), interFrameFlags) else FromSource(Queue(), interFrameFlags)
    }

    /** A flag octet is out; when timed flags run out with nothing queued the source is asked. */
    method FlagOctetDone(crc: CrcTable)
      requires Active() && crc.Valid() && !sendingData && flagBitpos == 0
      modifies this, crc`ready, crc.table
      ensures crc.Valid() && Active() && !sendingData && flagBitpos == 0
      ensures Rest() == Flags(if old(flagOctets) > 0 then old(flagOctets) - 1 else 0) + old(Behind())
    {
      hide BytesBits, Tail, Stuff, FromSource, FrameBits, Flags, Flag, AllSendable;
      NoFlags();
      if flagOctets > 0 {
        flagOctets := flagOctets - 1;
        if flagOctets == 0 && reportFlagUnderflow {
          reportFlagUnderflow := false;
          if buf == [] {
            SourceSplits(Queue(), interFrameFlags);
            SourceSplits([], interFrameFlags);
            Underflow(crc);
          }
        }
      }
    }

    /** One bit of a flag. */
    method FlagBit(crc: CrcTable) returns (bit: int)
      requires Active() && crc.Valid() && !sendingData && (flagBitpos > 0 || flagOctets > 0)
      modifies this, crc`ready, crc.table
      ensures crc.Valid() && Active()
      ensures old(Rest()) != [] && bit == (if old(Rest())[0] then 1 else 0) && Rest() == old(Rest())[1..]
    {
      hide Behind, Flags, Flag, AllSendable;
      NoFlags();
      FlagStep(flagBitpos, flagOctets, Behind());
      RestIs();
      bit := if Flag()[flagBitpos] then 1 else 0;
      flagBitpos := flagBitpos + 1;
      if flagBitpos == 8 {
        flagBitpos := 0;
        FlagOctetDone(crc);
      } else {
        RestIs();
      }
    }

    lemma RestIs()
      requires Active() && !sendingData
      ensures Rest() == FlagPart() + Behind()
    {
      hide BytesBits, Tail, Stuff, FromSource, FlagPart;
    }
  }

  lemma FcsIs(payload: seq<Byte>)
    ensures var c := Xor(Divide(Ones(), BytesBits(payload)), Ones()); Fcs(payload) == [OctetOf(c[..8]), OctetOf(c[8..])]
  {
  }

  lemma NoFlags()
    ensures Flags(0) == [] && |Flag()| == 8
  {
  }

  /** Stuffed data, one bit on. */
  lemma StuffStep(x: Bits, ones: nat, tail: Bits)
    requires x != [] && ones <= 4
    ensures var s := [] + Stuff(x, ones) + tail;
            && s != [] && s[0] == x[0]
            && s[1..] == if x[0] && ones == 4 then [false] + Stuff(x[1..], 0) + tail
                         else [] + Stuff(x[1..], if x[0] then ones + 1 else 0) + tail
  {
    var s := Stuff(x, ones);
    assert [] + s == s && s[1..] + tail == (s + tail)[1..];
    assert s[1..] == if x[0] && ones == 4 then [false] + Stuff(x[1..], 0) else Stuff(x[1..], if x[0] then ones + 1 else 0);
    var r := Stuff(x[1..], if x[0] then ones + 1 else 0);
    assert [] + r == r;
  }

  lemma StuffedZero(x: Bits, tail: Bits)
    ensures var s := [false] + Stuff(x, 0) + tail; s != [] && !s[0] && s[1..] == [] + Stuff(x, 0) + tail
  {
    hide Stuff;
  }

  lemma StartsWhole(b: Bits, tail: Bits)
    ensures [] + (Stuff(b, 0) + tail) == [] + Stuff(b[0..], 0) + tail
  {
    assert b[0..] == b;
    hide Stuff;
  }

  lemma FrameDone(b: Bits, ones: nat, tail: Bits)
    ensures b[|b|..] == [] && [] + Stuff(b[|b|..], ones) + tail == tail
  {
    assert Stuff([], ones) == [];
  }

  lemma TailSplits(q: seq<seq<Byte>>, gap: nat)
    ensures Tail(q, gap) == if q == [] then Flags(3) + [] else Flags(gap) + (FrameBits(q[0]) + Tail(q[1..], gap))
    ensures q != [] ==> FrameBits(q[0]) == Stuff(BytesBits(q[0] + Fcs(q[0])), 0)
  {
    hide Flags, Stuff, BytesBits, Fcs;
  }

  lemma SourceSplits(q: seq<seq<Byte>>, gap: nat)
    ensures FromSource(q, gap) == if q == [] then [] else Stuff(BytesBits(q[0] + Fcs(q[0])), 0) + Tail(q[1..], gap)
  {
    hide Stuff, BytesBits, Fcs, Tail;
  }

  /** Flags, one bit on. */
  lemma FlagStep(at: nat, n: nat, rest: Bits)
    requires at < 8 && (at > 0 || n > 0) && |Flag()| == 8
    ensures var f := (if at == 0 then Flags(n) else Flag()[at..] + Flags(if n > 0 then n - 1 else 0)) + rest;
            && f != [] && f[0] == Flag()[at]
            && f[1..] == (if at == 7 then Flags(if n > 0 then n - 1 else 0)
                          else Flag()[at + 1..] + Flags(if n > 0 then n - 1 else 0)) + rest
  {
    hide Flag;
    var m := if n > 0 then n - 1 else 0;
    if at == 0 { FirstFlag(n); assert Flags(n) == Flag()[0..] + Flags(m); }
    assert Flag()[at..] == [Flag()[at]] + Flag()[at + 1..];
  }

  class HdlcRx {
    const threshold: int
    const buffer: array<Byte>
    const crc: CrcTable
    /** The last eight bits, the latest at index 8. */
    var raw: Word
    var flagsSeen: int
    var announced: bool
    var byteInProgress: nat
    var numBits: nat
    var len: nat

    ghost predicate Valid()
      reads this, buffer, crc, crc.table
    {
      && buffer.Length == MAX_FRAME + 2 && len <= MAX_FRAME + 2
      && crc.Valid()
      && byteInProgress < 256
      && 1 <= threshold && 0 <= flagsSeen && (flagsSeen >= threshold ==> announced && numBits < 8)
      && forall i :: 0 <= i < 8 ==> !raw[i]
    }

    /** The bits of the octet under way: the highest `numBits` of the byte. */
    ghost function Pending(): Bits
      reads this
      requires flagsSeen >= threshold ==> numBits < 8
    {
      if flagsSeen >= threshold then TopBits(byteInProgress, numBits) else []
    }

    ghost function State(): Rx
      reads this, buffer
      requires (flagsSeen >= threshold ==> numBits < 8) && len <= buffer.Length
    {
      Rx(RunOf(raw), flagsSeen, announced, numBits, Pending(), buffer[..len])
    }

    constructor (threshold: int)
      ensures Valid() && State() == FreshRx() && this.threshold == (if threshold < 1 then 1 else threshold)
      ensures fresh(buffer) && fresh(crc) && fresh(crc.table)
    {
      this.threshold := if threshold < 1 then 1 else threshold;
      buffer := new Byte[MAX_FRAME + 2];
      crc := new CrcTable();
      raw := seq(16, _ => false);
      flagsSeen, announced, byteInProgress, numBits, len := 0, false, 0, 0, 0;
    }

    lemma ValidIsSane()
      requires Valid()
      ensures Sane(threshold, State())
    {
      hide TopBits;
    }

    /** rx_flag_or_abort: the events it raises. */
    method RxFlagOrAbort() returns (events: seq<Event>)
      requires Valid()
      modifies this`flagsSeen, this`announced, this`len, this`numBits, crc`ready, crc.table
      ensures Valid()
      ensures Reaction(State(), events) == FlagOrAbort(threshold, old(State()), raw[8])
    {
      hide RunOf, TopBits, Divide, BytesBits, Good;
      events := [];
      if raw[8] {
        events := [Abort];
        flagsSeen := if flagsSeen < threshold - 1 then 0 else threshold - 1;
      } else if flagsSeen >= threshold {
        if len > 0 {
          if numBits == 7 && len >= 2 && len <= MAX_FRAME + 2 {
            var residue := crc.Crc16(buffer[..len], Ones());
            assert buffer[..len][..len - 2] == buffer[..len - 2];
            events := [Frame(buffer[..len - 2], residue == Good())];
          } else {
            var n := if len >= 2 then len - 2 else 0;
            assert buffer[..len][..n] == buffer[..n];
            events := [Frame(buffer[..n], false)];
          }
        }
      } else {
        if flagsSeen != threshold - 1 && numBits != 7 {
          flagsSeen := if flagsSeen < threshold - 1 then 0 else threshold - 1;
        }
        flagsSeen := flagsSeen + 1;
        if flagsSeen >= threshold && !announced {
          events := [FramingOk];
          announced := true;
        }
      }
      len, numBits := 0, 0;
      NoTopBits(byteInProgress);
    }

    /** nf_hdlc_rx_put_bit: a bit, or a status passed on. */
    method PutBit(bit: int) returns (events: seq<Event>)
      requires Valid()
      modifies this, buffer, crc`ready, crc.table
      ensures Valid()
      ensures bit < 0 ==> State() == old(State()) && events == [Status(bit)]
      ensures bit >= 0 ==> Reaction(State(), events) == HdlcFraming.PutBit(threshold, old(State()), bit % 2 == 1)
    {
      hide TopBits, FlagOrAbort, TakeBit;
      if bit < 0 { return [Status(bit)]; }
      ghost var was := State();
      var b := bit % 2 == 1;
      RunShifts(raw, b);
      raw := ([false] + raw[..15])[8 := b];
      events := [];
      if raw[9] && raw[10] && raw[11] && raw[12] && raw[13] {
        if !raw[14] && !raw[8] { return; }
        if raw[14] && !raw[15] {
          events := RxFlagOrAbort();
          return;
        }
      }
      AddBit(b);
    }

    /** A data bit, shifted into the byte from above. */
    method AddBit(b: bool)
      requires Valid()
      modifies this`numBits, this`byteInProgress, this`len, this`flagsSeen, buffer
      ensures Valid() && State() == TakeBit(threshold, old(State()), b)
    {
      hide TopBits, OctetOf, RunOf;
      numBits := numBits + 1;
      if flagsSeen < threshold { return; }
      TopBitsShift(byteInProgress, numBits - 1, b);
      byteInProgress := (byteInProgress + (if b then 256 else 0)) / 2;
      if numBits == 8 {
        AllTopBits(byteInProgress);
        if len < MAX_FRAME + 2 {
          buffer[len] := byteInProgress;
          len := len + 1;
        } else {
          len := 0;
          flagsSeen := threshold - 1;
        }
        numBits := 0;
        NoTopBits(byteInProgress);
      }
    }
  }

  /** Ones from index 8 upward, seven at most: those received last. */
  function RunOf(raw: Word): nat {
    if !raw[8] then 0 else if !raw[9] then 1 else if !raw[10] then 2 else if !raw[11] then 3
    else if !raw[12] then 4 else if !raw[13] then 5 else if !raw[14] then 6 else 7
  }

  lemma RunShifts(raw: Word, b: bool)
    ensures var r: Word := ([false] + raw[..15])[8 := b];
            && RunOf(r) == (if !b then 0 else if RunOf(raw) < 7 then RunOf(raw) + 1 else 7)
            && (r[9] && r[10] && r[11] && r[12] && r[13] <==> RunOf(raw) >= 5)
            && (RunOf(raw) >= 5 ==> (r[14] <==> RunOf(raw) >= 6))
            && (RunOf(raw) >= 6 ==> (r[15] <==> RunOf(raw) >= 7))
            && r[8] == b && (forall i :: 0 <= i < 8 && (i > 0 ==> !raw[i - 1]) ==> !r[i])
  {
    var s := [false] + raw[..15];
    assert forall i :: 1 <= i < 16 ==> s[i] == raw[i - 1];
  }

  /** The `n` highest bits of an octet, the lower first. */
  function TopBits(v: nat, n: nat): (b: Bits)
    requires n <= 8
    ensures |b| == n
  {
    LsbBits(v / Pow(2, 8 - n), n)
  }

  lemma NoTopBits(v: nat)
    ensures TopBits(v, 0) == []
  {
    hide Pow;
  }

  lemma AllTopBits(v: nat)
    requires v < 256
    ensures OctetOf(TopBits(v, 8)) == v
  {
    SmallPowers();
    hide Pow, LsbBits;
    ValueOfBits(v, 8);
  }

  /** Shifting a bit in from above extends the top bits. */
  lemma TopBitsShift(v: nat, n: nat, b: bool)
    requires n < 8 && v < 256
    ensures (v + (if b then 256 else 0)) / 2 < 256
    ensures TopBits((v + (if b then 256 else 0)) / 2, n + 1) == TopBits(v, n) + [b]
  {
    hide LsbBits, Pow;
    SmallPowers();
    var w := v + (if b then 256 else 0);
    var p := Pow(2, 8 - n);
    PowStep(8 - n);
    DivDiv(w, Pow(2, 7 - n));
    PowAdd(2, 8 - n, n);
    var h := v / p;
    TopValue(v, p, Pow(2, n), if b then 1 else 0);
    LsbBitsShifted(h, if b then 1 else 0, n, 1);
    OneBit(b);
  }

  lemma OneBit(b: bool)
    ensures LsbBits(if b then 1 else 0, 1) == [b]
  {
  }

  lemma TopValue(v: nat, p: nat, q: nat, c: nat)
    requires p > 0 && p * q == 256 && v < 256
    ensures v / p < q && (v + 256 * c) / p == v / p + c * q
  {
    DivBound(v, p, q);
    assert 256 * c == (c * q) * p;
    assert v + 256 * c == (v / p + c * q) * p + v % p;
    DivModUnique(v / p + c * q, p, v % p);
  }

  /** Pump and receiver joined for one bit: whether the pump ended, and the events raised. */
  method Relay(tx: HdlcTx, rx: HdlcRx, table: CrcTable) returns (ended: bool, raised: seq<Event>)
    requires tx.Active() && table.Valid() && rx.Valid() && rx.crc != table && rx.crc.table != table.table
    modifies tx, table`ready, table.table, rx, rx.buffer, rx.crc`ready, rx.crc.table
    ensures table.Valid() && rx.Valid()
    ensures ended == (old(tx.Rest()) == [])
    ensures !ended ==> tx.Active() && |tx.Rest()| < |old(tx.Rest())|
                       && Feed(rx.threshold, old(rx.State()), old(tx.Rest())).events == raised + Feed(rx.threshold, rx.State(), tx.Rest()).events
  {
    hide Feed, HdlcFraming.PutBit, HdlcTx.Rest, HdlcTx.Active, HdlcRx.State;
    ghost var rest, r := tx.Rest(), rx.State();
    var bit := tx.GetBit(table);
    ended, raised := bit == SIG_END_OF_DATA, [];
    if !ended {
      assert rest == [rest[0]] + rest[1..];
      FeedOne(rx.threshold, r, rest[0], rest[1..]);
      raised := rx.PutBit(bit);
    }
  }

  lemma ThresholdOk(th: int, rx: Rx)
    requires Sane(th, rx)
    ensures th >= 1
  {
  }

  /** Whatever the payloads and whatever the receiver heard before, the events are those of
      its settling on the first flag and the frames sent, each once, in order and good, until
      the pump reports its end. */
  method Transfer(rx: HdlcRx, frames: seq<seq<Byte>>, preamble: nat, gap: nat) returns (events: seq<Event>)
    requires rx.Valid() && rx.threshold <= preamble && gap >= 1 && AllSendable(frames)
    modifies rx, rx.buffer, rx.crc`ready, rx.crc.table
    ensures rx.Valid() && events == Settling(rx.threshold, old(rx.State())) + Events(frames)
    ensures old(rx.State()) == FreshRx() ==> events == [FramingOk] + Events(frames)
  {
    hide Feed, FromSource, Flags, Burst, Events, Settling, AllSendable, HdlcTx.Rest, HdlcTx.Active, HdlcRx.State, Sane;
    var threshold := rx.threshold;
    rx.ValidIsSane();
    ThresholdOk(threshold, rx.State());
    FreshSettles(threshold);
    var table := new CrcTable();
    var tx := new HdlcTx(gap);
    tx.TxFlags(preamble);
    tx.Stream(frames);
    SourceIsBurst(frames, gap);
    HdlcRoundTrip(threshold, rx.State(), preamble, frames, gap);
    ghost var all := Feed(threshold, rx.State(), tx.Rest()).events;
    events := [];
    assert [] + all == all;
    var ended := false;
    while !ended
      invariant fresh(tx) && fresh(table) && fresh(table.table)
      invariant rx.crc != table && rx.crc.table != table.table && rx.threshold == threshold
      invariant table.Valid() && rx.Valid() && (!ended ==> tx.Active())
      invariant if ended then events == all else events + Feed(threshold, rx.State(), tx.Rest()).events == all
      decreases !ended, if ended then 0 else |tx.Rest()|
    {
      FedNothing(threshold, rx.State());
      Assoc(events, [], []);
      ghost var before := Feed(threshold, rx.State(), tx.Rest()).events;
      var raised;
      ended, raised := Relay(tx, rx, table);
      if ended {
        assert events + before == events;
      } else {
        Assoc(events, raised, Feed(threshold, rx.State(), tx.Rest()).events);
        events := events + raised;
      }
    }
  }
}
