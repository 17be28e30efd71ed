/** Sender and receiver of MPh sequences on the V.34 control channel (nf_v34.c: nf_v34_cc_tx_t
    at 1200 bit/s, nf_v34_mp_rx_t). */
module V34MphStations {
  import opened Arithmetic
  import opened BitIo
  import Crc = HdlcCrc
  import opened Plane
  import opened V34Scrambler
  import opened V34Mph

  // ---------------------------------------------------------------- streams piece by piece

  lemma TurnsUnfold(zn: nat, line: Bits)
    requires |line| % 2 == 0 && line != []
    ensures LastTurn(zn, line) == LastTurn(Turn(zn, line[0], line[1]), line[2..])
  {
    hide Turn;
  }

  lemma {:induction false} PointsAppend(zn: nat, a: Bits, b: Bits)
    requires |a| % 2 == 0 && |b| % 2 == 0
    ensures Points(zn, a + b) == Points(zn, a) + Points(LastTurn(zn, a), b)
    ensures LastTurn(zn, a + b) == LastTurn(LastTurn(zn, a), b)
    decreases |a|
  {
    hide *;
    if a == [] {
      assert a + b == b;
      NoPoints(zn);
    } else {
      var z := Turn(zn, a[0], a[1]);
      assert (a + b)[2..] == a[2..] + b && (a + b)[0] == a[0] && (a + b)[1] == a[1];
      PointsUnfold(zn, a);
      PointsUnfold(zn, a + b);
      TurnsUnfold(zn, a);
      TurnsUnfold(zn, a + b);
      PointsAppend(z, a[2..], b);
      Assoc([CcPoint(z)], Points(z, a[2..]), Points(LastTurn(zn, a), b));
    }
  }

  lemma NoPoints(zn: nat)
    ensures Points(zn, []) == [] && LastTurn(zn, []) == zn
  {
  }

  lemma {:induction false} SumSnoc(c: Crc.Word, gs: seq<Group>, g: Group)
    ensures Sum(c, gs + [g]) == Crc.Divide(Sum(c, gs), g)
    decreases |gs|
  {
    if gs == [] {
      assert [g][1..] == [] && gs + [g] == [g];
      assert Sum(Crc.Divide(c, g), []) == Crc.Divide(c, g);
    } else {
      assert (gs + [g])[0] == gs[0] && (gs + [g])[1..] == gs[1..] + [g];
      SumSnoc(Crc.Divide(c, gs[0]), gs[1..], g);
    }
  }

  lemma ValueNothing()
    ensures Value([]) == 0 && Pow(2, 0) == 1
  {
  }

  /** v34_mp_crc_update. */
  method CrcUpdate(crc: Crc.Word, bit: bool) returns (r: Crc.Word)
    ensures r == Crc.Step(crc, bit)
  {
    r := Crc.ShiftRight(crc, 1);
    if crc[0] != bit {
      r := Crc.Xor(r, Poly());
    }
    forall i | 0 <= i < 16 ensures r[i] == Crc.Step(crc, bit)[i] {
    }
  }

  /** 0x8408. */
  function Poly(): Crc.Word {
    seq(16, i requires 0 <= i < 16 => Crc.Tap(i))
  }

  // ---------------------------------------------------------------- sender

  class ControlSender {
    const scr: Scrambler
    var zn: nat
    var sent: seq<Point>

    ghost predicate Valid()
      reads this, scr, scr.hist
    {
      scr.Valid()
    }

    constructor (callModem: bool)
      ensures Valid() && fresh(scr) && fresh(scr.hist)
      ensures scr.taps == TapsOf(callModem) && scr.Line() == seq(DEPTH, _ => false) && zn == 0 && sent == []
    {
      scr := new Scrambler(callModem);
      zn, sent := 0, [];
    }

    /** v34_rotate_cw from (1, 1). */
    method PointAt(steps: nat) returns (z: Point)
      ensures z == CcPoint(steps)
    {
      z := Point(1.0, 1.0);
      var n := steps % 4;
      for i := 0 to n
        invariant RotateCw(z, n - i) == CcPoint(steps)
      {
        z := Point(z.im, 0.0 - z.re);
      }
    }

    /** v34_cc_tx_dibit. */
    method Dibit(b1: bool, b2: bool) returns (ghost line: Bits)
      requires Valid()
      modifies this, scr`pos, scr.hist
      ensures Valid() && line == Scramble(scr.taps, old(scr.Line()), [b1, b2])
      ensures scr.Line() == After(old(scr.Line()), line)
      ensures sent == old(sent) + Points(old(zn), line) && zn == LastTurn(old(zn), line)
    {
      hide Scrambler.Line, Mask, Push, CcPoint;
      ghost var h := scr.Line();
      var i1 := scr.ScrambleBit(b1);
      var i2 := scr.ScrambleBit(b2);
      line := [i1, i2];
      TwoBits(scr.taps, h, b1, b2);
      zn := (zn + (if i1 then 1 else 0) + 2 * (if i2 then 1 else 0)) % 4;
      OnePoint(old(zn), i1, i2);
      var z := PointAt(zn);
      sent := sent + [z];
    }

    /** nf_v34_cc_tx_bits at 1200 bit/s: an odd number of bits is refused. */
    method SendBits(bits: array<bool>, n: nat) returns (ok: bool)
      requires Valid() && n <= bits.Length && bits != scr.hist
      modifies this, scr`pos, scr.hist
      ensures Valid() && ok == (n % 2 == 0)
      ensures !ok ==> sent == old(sent) && zn == old(zn) && scr.Line() == old(scr.Line())
      ensures ok ==> var line := Scramble(scr.taps, old(scr.Line()), bits[..n]);
                     && sent == old(sent) + Points(old(zn), line) && zn == LastTurn(old(zn), line)
                     && scr.Line() == After(old(scr.Line()), line)
    {
      hide Scrambler.Line, Scramble, After, Points, LastTurn;
      if n % 2 != 0 { return false; }
      ghost var h, line: Bits := scr.Line(), [];
      Nothing(scr.taps, h, zn);
      var i := 0;
      while i < n
        invariant 0 <= i <= n && i % 2 == 0 && Valid() && |line| == i
        invariant line == Scramble(scr.taps, h, bits[..i]) && scr.Line() == After(h, line)
        invariant sent == old(sent) + Points(old(zn), line) && zn == LastTurn(old(zn), line)
      {
        ghost var two := Dibit(bits[i], bits[i + 1]);
        assert bits[..i + 2] == bits[..i] + [bits[i], bits[i + 1]];
        ScrambleAppend(scr.taps, h, bits[..i], [bits[i], bits[i + 1]]);
        PointsAppend(old(zn), line, two);
        AfterAppend(h, line, two);
        line := line + two;
        i := i + 2;
      }
      assert bits[..i] == bits[..n];
      ok := true;
    }

    /** nf_v34_cc_tx_mph. */
    method SendMph(f: Mph)
      requires Valid()
      modifies this, scr`pos, scr.hist
      ensures Valid()
      ensures var line := Scramble(scr.taps, old(scr.Line()), FrameBits(f));
              && sent == old(sent) + Points(old(zn), line) && zn == LastTurn(old(zn), line)
              && scr.Line() == After(old(scr.Line()), line)
    {
      hide Scrambler.Line, Scramble, After, Points, LastTurn, FrameBits;
      var b, n := Build(f);
      var ok := SendBits(b, n);
    }
  }

  lemma TwoBits(t: Taps, h: History, b1: bool, b2: bool)
    requires GoodTaps(t)
    ensures var i1 := Exor(b1, Mask(t, h)); var i2 := Exor(b2, Mask(t, Push(h, i1)));
            Scramble(t, h, [b1, b2]) == [i1, i2] && After(h, [i1, i2]) == Push(Push(h, i1), i2)
  {
    hide Mask, Push;
    var i1 := Exor(b1, Mask(t, h));
    var h1 := Push(h, i1);
    var i2 := Exor(b2, Mask(t, h1));
    assert [b1, b2][1..] == [b2] && [b2][1..] == [] && [i1, i2][1..] == [i2] && [i2][1..] == [];
    assert Scramble(t, Push(h1, i2), []) == [];
    assert Scramble(t, h1, [b2]) == [i2];
    assert After(h1, [i2]) == Push(h1, i2);
  }

  lemma OnePoint(zn: nat, i1: bool, i2: bool)
    ensures var z := Turn(zn, i1, i2); Points(zn, [i1, i2]) == [CcPoint(z)] && LastTurn(zn, [i1, i2]) == z
  {
    hide CcPoint, Turn;
    assert [i1, i2][2..] == [];
    assert Points(Turn(zn, i1, i2), []) == [];
  }

  lemma Nothing(t: Taps, h: History, zn: nat)
    requires GoodTaps(t)
    ensures Scramble(t, h, []) == [] && After(h, []) == h && Points(zn, []) == [] && LastTurn(zn, []) == zn
  {
  }

  // ---------------------------------------------------------------- building the frame

  const ROOM: nat := 188

  /** The buffer with zeros behind what is written. */
  function Pad(p: Bits): (b: Bits)
    requires |p| <= ROOM
    ensures |b| == ROOM
  {
    p + seq(ROOM - |p|, _ => false)
  }

  function Head(gs: seq<Group>): (b: Bits)
    ensures |b| == 18 + STRIDE * |gs|
  {
    Sync() + [false] + Framed(gs)
  }

  lemma {:induction false} FramedSnoc(gs: seq<Group>, g: Group)
    ensures Framed(gs + [g]) == Framed(gs) + g + [false]
    decreases |gs|
  {
    if gs == [] {
      assert gs + [g] == [g] && [g][1..] == [];
      assert Framed([]) == [];
    } else {
      assert (gs + [g])[0] == gs[0] && (gs + [g])[1..] == gs[1..] + [g];
      FramedSnoc(gs[1..], g);
    }
  }

  lemma HeadSnoc(gs: seq<Group>, g: Group)
    ensures Head(gs + [g]) == Head(gs) + g + [false]
  {
    hide Framed;
    FramedSnoc(gs, g);
  }

  /** The next group; the buffer is zero behind. */
  method PutGroup(b: array<bool>, ghost gs: seq<Group>, k: nat, g: Group)
    requires b.Length == ROOM && k == |gs| < 10 && b[..] == Pad(Head(gs))
    modifies b
    ensures b[..] == Pad(Head(gs + [g]))
  {
    hide Head;
    ghost var was := b[..];
    for i := 0 to 16
      invariant forall j :: 0 <= j < ROOM ==> b[j] == if 18 + STRIDE * k <= j < 18 + STRIDE * k + i then g[j - (18 + STRIDE * k)] else was[j]
    {
      b[18 + STRIDE * k + i] := g[i];
    }
    HeadSnoc(gs, g);
  }

  /** A group of zeros needs no writing. */
  lemma PutNothing(gs: seq<Group>)
    requires |gs| < 10
    ensures Pad(Head(gs)) == Pad(Head(gs + [Clear()]))
  {
    hide Head;
    HeadSnoc(gs, Clear());
  }

  /** The sum over `n` groups of a frame in the buffer. */
  method SumOf(b: array<bool>, at: nat, n: nat) returns (crc: Crc.Word)
    requires at + STRIDE * n <= b.Length
    ensures crc == Sum(Crc.Ones(), GroupsOf(b[at..at + STRIDE * n], n))
  {
    hide Sum, Crc.Step, Crc.Divide;
    ghost var body := b[at..at + STRIDE * n];
    crc := Crc.Ones();
    SumNothing();
    assert GroupsOf(body, 0) == [];
    for g := 0 to n
      invariant crc == Sum(Crc.Ones(), GroupsOf(body, g))
    {
      ghost var group := GroupAt(body, g);
      ghost var before := crc;
      DivideNothing(crc);
      assert group[..0] == [];
      for i := 0 to 16
        invariant crc == Crc.Divide(before, group[..i])
      {
        assert group[i] == b[at + STRIDE * g + i];
        crc := CrcUpdate(crc, b[at + STRIDE * g + i]);
        DivideSnoc(before, group[..i], group[i]);
        assert group[..i + 1] == group[..i] + [group[i]];
      }
      assert group[..16] == group && GroupsOf(body, g + 1) == GroupsOf(body, g) + [group];
      SumSnoc(Crc.Ones(), GroupsOf(body, g), group);
    }
    assert body == b[at..at + STRIDE * n];
  }

  lemma SumNothing()
    ensures Sum(Crc.Ones(), []) == Crc.Ones()
  {
  }

  lemma DivideNothing(c: Crc.Word)
    ensures Crc.Divide(c, []) == c
  {
  }

  lemma DivideSnoc(c: Crc.Word, b: Bits, x: bool)
    ensures Crc.Divide(c, b + [x]) == Crc.Step(Crc.Divide(c, b), x)
  {
    hide Crc.Step, Crc.Divide;
    Crc.DivideAppend(c, b, [x]);
    DivideOne(Crc.Divide(c, b), x);
  }

  lemma DivideOne(c: Crc.Word, x: bool)
    ensures Crc.Divide(c, [x]) == Crc.Step(c, x)
  {
    hide Crc.Step;
    assert [x][1..] == [];
    assert Crc.Divide(Crc.Step(c, x), []) == Crc.Step(c, x);
  }

  /** v34_mph_build_bits. */
  method Build(f: Mph) returns (b: array<bool>, n: nat)
    ensures fresh(b) && b.Length == ROOM && n == |FrameBits(f)| && b[..n] == FrameBits(f)
  {
    hide Head, Sum, Capabilities, Rates, TapBits, FrameBits, Framed;
    b := new bool[ROOM](_ => false);
    n := if f.type1 then 188 else 88;
    for i := 0 to 17
      invariant forall j :: 0 <= j < ROOM ==> b[j] == (j < i)
    {
      b[i] := true;
    }
    assert b[..] == Pad(Head([])) by { HeadNothing(); }
    PutGroup(b, [], 0, Capabilities(f));
    ghost var gs := [Capabilities(f), Rates(f)];
    assert [Capabilities(f)] + [Rates(f)] == gs && [] + [Capabilities(f)] == [Capabilities(f)];
    PutGroup(b, [Capabilities(f)], 1, Rates(f));
    var ngroups := 3;
    if f.type1 {
      for g := 0 to 3
        invariant |gs| == 2 + 2 * g && b[..] == Pad(Head(gs)) && gs == Groups(f)[..2 + 2 * g]
      {
        PutGroup(b, gs, 2 + 2 * g, TapBits(f.hRe[g]));
        PutGroup(b, gs + [TapBits(f.hRe[g])], 3 + 2 * g, TapBits(f.hIm[g]));
        gs := gs + [TapBits(f.hRe[g])] + [TapBits(f.hIm[g])];
      }
      ngroups := 9;
    }
    PutNothing(gs);
    gs := gs + [Clear()];
    assert gs == Groups(f);
    var crc := SumOf(b, 18, ngroups);
    HeadGroups(b[..], gs);
    PutGroup(b, gs, ngroups, crc);
    FrameIsHead(f);
  }

  lemma HeadNothing()
    ensures Head([]) == Sync() + [false]
  {
    assert Framed([]) == [];
  }

  lemma HeadGroups(b: Bits, gs: seq<Group>)
    requires |gs| < 10 && b == Pad(Head(gs))
    ensures GroupsOf(b[18..18 + STRIDE * |gs|], |gs|) == gs
  {
    hide Framed;
    var body := b[18..18 + STRIDE * |gs|];
    assert body == Framed(gs);
    forall k | 0 <= k < |gs| ensures GroupAt(body, k) == gs[k] { FramedAt(gs, k); }
  }

  lemma FrameIsHead(f: Mph)
    ensures Pad(Head(Groups(f) + [Sum(Crc.Ones(), Groups(f))]))[..|FrameBits(f)|] == FrameBits(f)
  {
    hide Framed, Sum, Groups;
  }

  // ---------------------------------------------------------------- receiver

  /** nf_v34_mp_rx_t. */
  class MphReceiver {
    const descr: Scrambler
    const buf: array<bool>
    var havePrev: bool
    var prevQuad: nat
    var onesRun: nat
    var pos: int
    /** The last good frame; the taps are those of the last good Type 1 frame. */
    var frame: Report

    ghost predicate Valid()
      reads this, descr, descr.hist
    {
      descr.Valid() && buf.Length == LONG && -1 <= pos < LONG && buf != descr.hist
    }

    ghost function State(): Hunt
      reads this`onesRun, this`pos, buf
      requires buf.Length == LONG && -1 <= pos < LONG
    {
      if pos < 0 then Seeking(onesRun) else Reading(buf[..pos])
    }

    constructor (callModem: bool)
      ensures Valid() && fresh(buf) && fresh(descr) && fresh(descr.hist) && !havePrev && State() == Seeking(0)
      ensures descr.taps == TapsOf(callModem) && descr.Line() == seq(DEPTH, _ => false)
    {
      descr := new Scrambler(callModem);
      buf := new bool[LONG](_ => false);
      havePrev, prevQuad, onesRun, pos := false, 0, 0, -1;
      frame := Report(false, 0, 0, false, false, 0, false, false, false, 0, false, []);
      new;
    }

    /** `n` bits from `from` as a number, the first lowest. */
    method Number(from: nat, n: nat) returns (v: nat)
      requires from + n <= buf.Length
      ensures v == Value(buf[from..from + n])
    {
      hide Value;
      v := 0;
      var weight := 1;
      ValueNothing();
      assert buf[from..from] == [];
      for i := 0 to n
        invariant v == Value(buf[from..from + i]) && weight == Pow(2, i)
      {
        ValueSnoc(buf[from..from + i], buf[from + i]);
        assert buf[from..from + (i + 1)] == buf[from..from + i] + [buf[from + i]];
        PowStep(i + 1);
        if buf[from + i] { v := v + weight; }
        weight := 2 * weight;
      }
    }

    /** v34_mp_q14. */
    method Tap(g: nat) returns (h: Q14)
      requires buf.Length == LONG && g < 9
      ensures h == TapAt(buf[..], g)
    {
      hide Value;
      ghost var group: Group := GroupAt(buf[..], g);
      assert group == buf[STRIDE * g..STRIDE * g + 16];
      GroupBound(group);
      var v := Number(STRIDE * g, 16);
      assert v == Value(group);
      h := Signed(v);
    }

    method Precoder() returns (taps: seq<Q14>)
      requires buf.Length == LONG
      ensures var b := buf[..]; taps == [TapAt(b, 2), TapAt(b, 3), TapAt(b, 4), TapAt(b, 5), TapAt(b, 6), TapAt(b, 7)]
    {
      hide TapAt;
      var t2 := Tap(2);
      var t3 := Tap(3);
      var t4 := Tap(4);
      var t5 := Tap(5);
      var t6 := Tap(6);
      var t7 := Tap(7);
      taps := [t2, t3, t4, t5, t6, t7];
    }

    /** A frame of `len` bits is in the buffer: checked, and if good its fields are taken. */
    method Finish(len: nat) returns (good: bool)
      requires buf.Length == LONG && (len == LONG || (len == SHORT && !buf[0]))
      modifies this`frame
      ensures good == Sealed(buf[..len])
      ensures good ==> Tells(frame, Fields(buf[..len]), old(frame))
      ensures !good ==> frame == old(frame)
    {
      hide Sum, Value, TapAt;
      ghost var b := buf[..len];
      var n := if len == LONG then 9 else 3;
      var startsOk := true;
      for g := 0 to n
        invariant startsOk == forall k :: 0 <= k < g ==> !b[STRIDE * k + 16]
      {
        if buf[STRIDE * g + 16] { startsOk := false; }
      }
      var crc := SumOf(buf, 0, n);
      SameGroups(b, n);
      assert buf[0..STRIDE * n] == b[..STRIDE * n];
      good := startsOk && (len == LONG ==> buf[0] && !buf[169]) && buf[STRIDE * n..STRIDE * n + 16] == crc;
      assert GroupAt(b, n) == buf[STRIDE * n..STRIDE * n + 16];
      if good { Take(len); }
    }

    /** v34_mp_parse_common and the taps of Type 1. */
    method Take(len: nat)
      requires buf.Length == LONG && len == if buf[0] then LONG else SHORT
      modifies this`frame
      ensures Tells(frame, Fields(buf[..len]), old(frame))
    {
      hide Value, TapAt;
      ghost var b := buf[..len];
      var maxRate := Number(2, 4);
      var back := Number(6, 4);
      var trellis := Number(11, 2);
      var mask := Number(17, 15);
      var taps := frame.taps;
      if len == LONG {
        taps := Precoder();
        assert b == buf[..];
      }
      frame := Report(buf[0], maxRate, back, buf[9], buf[10], trellis, buf[13], buf[14], buf[15], mask, buf[32], taps);
      assert b[2..6] == buf[2..6] && b[6..10] == buf[6..10] && b[11..13] == buf[11..13] && b[17..32] == buf[17..32];
    }

    /** v34_mp_feed_bit. */
    method FeedBit(raw: bool) returns (heard: bool)
      requires Valid()
      modifies this`onesRun, this`pos, this`frame, descr`pos, descr.hist, buf
      ensures Valid() && descr.Line() == Push(old(descr.Line()), raw)
      ensures var h := Feed(old(State()), Exor(raw, Mask(descr.taps, old(descr.Line()))));
              && State() == h.state && heard == (h.reports != []) && |h.reports| <= 1
              && if heard then Tells(frame, h.reports[0], old(frame)) else frame == old(frame)
    {
      hide Scrambler.Line, Mask, Push, Sealed, Fields;
      ghost var was := State();
      var bit := descr.DescrambleBit(raw);
      if pos < 0 {
        if bit {
          onesRun := onesRun + 1;
        } else {
          if onesRun >= 17 { pos := 0; }
          onesRun := 0;
        }
        return false;
      }
      assert was == Reading(buf[..pos]);
      ghost var got := buf[..pos];
      buf[pos] := bit;
      pos := pos + 1;
      ghost var b := buf[..pos];
      assert b == got + [bit];
      if pos == 70 && !buf[0] {
        heard := Finish(70);
        pos, onesRun := -1, 0;
      } else if pos >= 170 {
        heard := Finish(170);
        pos, onesRun := -1, 0;
      } else {
        heard := false;
      }
    }

    /** nf_v34_mp_feed_symbol: the first symbol is only a reference. */
    method FeedSymbol(z: Point) returns (heard: bool)
      requires Valid()
      modifies this, descr`pos, descr.hist, buf
      ensures Valid() && havePrev && prevQuad == Quadrant(z)
      ensures !old(havePrev) ==> !heard && State() == old(State()) && descr.Line() == old(descr.Line()) && frame == old(frame)
      ensures old(havePrev) ==>
                var line := Dibits(old(prevQuad), [z]);
                var h := Hear(old(State()), Descramble(descr.taps, old(descr.Line()), line));
                && State() == h.state && descr.Line() == After(old(descr.Line()), line) && heard == (h.reports != []) && |h.reports| <= 1
                && if heard then Tells(frame, h.reports[0], old(frame)) else frame == old(frame)
    {
      hide Scrambler.Line, Quadrant, Mask, Push, Feed, Hear, Descramble, After;
      var quad := Quadrant(z);
      if !havePrev {
        prevQuad := quad;
        havePrev := true;
        return false;
      }
      var delta := (prevQuad - quad) % 4;
      ghost var prev := prevQuad;
      prevQuad := quad;
      ghost var s, h := State(), descr.Line();
      var b0, b1 := delta % 2 == 1, delta / 2 % 2 == 1;
      var r0 := FeedBit(b0);
      var r1 := FeedBit(b1);
      heard := r0 || r1;
      OneDibit(prev, z);
      TwoDescrambled(descr.taps, h, b0, b1);
      HearTwo(s, Exor(b0, Mask(descr.taps, h)), Exor(b1, Mask(descr.taps, Push(h, b0))));
    }

    /** All symbols of a burst; the frames told of, in order. */
    method Listen(z: seq<Point>) returns (told: seq<Report>)
      requires Valid() && havePrev
      modifies this, descr`pos, descr.hist, buf
      ensures Valid() && havePrev
      ensures var line := Dibits(old(prevQuad), z);
              var h := Hear(old(State()), Descramble(descr.taps, old(descr.Line()), line));
              State() == h.state && told == h.reports && descr.Line() == After(old(descr.Line()), line)
    {
      hide Scrambler.Line, Quadrant, Hear, Descramble, After, Dibits;
      told := [];
      ghost var s, g, q, line := State(), descr.Line(), prevQuad, Dibits(prevQuad, []);
      NothingHeard(s, descr.taps, g, q);
      assert z[..0] == [];
      for i := 0 to |z|
        invariant Valid() && havePrev && line == Dibits(q, z[..i]) && prevQuad == LastQuadrant(q, z[..i])
        invariant descr.Line() == After(g, line)
        invariant Hear(s, Descramble(descr.taps, g, line)) == Heard(State(), told)
      {
        ghost var two := Dibits(prevQuad, [z[i]]);
        var heard := FeedSymbol(z[i]);
        assert z[..i + 1] == z[..i] + [z[i]];
        DibitsAppend(q, z[..i], [z[i]]);
        DescrambleAppend(descr.taps, g, line, two);
        AfterAppend(g, line, two);
        HearAppend(s, Descramble(descr.taps, g, line), Descramble(descr.taps, After(g, line), two));
        line := line + two;
        if heard { told := told + [if frame.type1 then frame else frame.(taps := [])]; }
      }
      assert z[..|z|] == z;
    }
  }

  /** The fields of report `r`; one of Type 0 leaves the taps alone. */
  predicate Tells(frame: Report, r: Report, was: Report) {
    if r.type1 then frame == r else r.taps == [] && frame == r.(taps := was.taps)
  }

  lemma SameGroups(b: Bits, n: nat)
    requires STRIDE * n <= |b|
    ensures GroupsOf(b[..STRIDE * n], n) == GroupsOf(b, n)
  {
    forall g | 0 <= g < n ensures GroupAt(b[..STRIDE * n], g) == GroupAt(b, g) {
    }
  }

  lemma OneDibit(prev: nat, z: Point)
    ensures var delta := (prev - Quadrant(z)) % 4; Dibits(prev, [z]) == [delta % 2 == 1, delta / 2 % 2 == 1]
  {
    hide Quadrant;
    assert [z][1..] == [] && Dibits(Quadrant(z), []) == [];
  }

  lemma TwoDescrambled(t: Taps, h: History, b0: bool, b1: bool)
    requires GoodTaps(t)
    ensures Descramble(t, h, [b0, b1]) == [Exor(b0, Mask(t, h)), Exor(b1, Mask(t, Push(h, b0)))]
    ensures After(h, [b0, b1]) == Push(Push(h, b0), b1)
  {
    hide Mask, Push;
    assert [b0, b1][1..] == [b1] && [b1][1..] == [];
    assert Descramble(t, Push(Push(h, b0), b1), []) == [];
    assert Descramble(t, Push(h, b0), [b1]) == [Exor(b1, Mask(t, Push(h, b0)))];
    assert After(Push(h, b0), [b1]) == Push(Push(h, b0), b1);
  }

  lemma HearTwo(s: Hunt, b0: bool, b1: bool)
    ensures var f0 := Feed(s, b0); var f1 := Feed(f0.state, b1); Hear(s, [b0, b1]) == Heard(f1.state, f0.reports + f1.reports)
    ensures Feed(s, b0).reports != [] ==> Feed(Feed(s, b0).state, b1).reports == []
  {
    hide Sealed, Fields;
    HearOne(s, b0);
    HearOne(Feed(s, b0).state, b1);
    HearAppend(s, [b0], [b1]);
    assert [b0] + [b1] == [b0, b1];
  }

  lemma NothingHeard(s: Hunt, t: Taps, g: History, q: nat)
    requires GoodTaps(t)
    ensures Dibits(q, []) == [] && Descramble(t, g, []) == [] && After(g, []) == g && Hear(s, []) == Heard(s, [])
  {
  }

  function LastQuadrant(prev: nat, z: seq<Point>): nat {
    if z == [] then prev else Quadrant(z[|z| - 1])
  }

  lemma DibitsUnfold(prev: nat, z: seq<Point>)
    requires z != []
    ensures var delta := (prev - Quadrant(z[0])) % 4;
            Dibits(prev, z) == [delta % 2 == 1, delta / 2 % 2 == 1] + Dibits(Quadrant(z[0]), z[1..])
  {
    hide Quadrant;
  }

  lemma {:induction false} DibitsAppend(prev: nat, a: seq<Point>, b: seq<Point>)
    ensures Dibits(prev, a + b) == Dibits(prev, a) + Dibits(LastQuadrant(prev, a), b)
    decreases |a|
  {
    hide Quadrant;
    if a == [] {
      assert a + b == b;
    } else {
      hide Dibits;
      assert (a + b)[1..] == a[1..] + b && (a + b)[0] == a[0];
      DibitsUnfold(prev, a);
      DibitsUnfold(prev, a + b);
      DibitsAppend(Quadrant(a[0]), a[1..], b);
      assert LastQuadrant(Quadrant(a[0]), a[1..]) == LastQuadrant(prev, a);
    }
  }

  // ---------------------------------------------------------------- end to end

  /** Frames sent on the control channel and heard by a receiver whose descrambler has seen the
      same last 23 line bits and whose last symbol was the sender's: each is told of once. */
  method Exchange(tx: ControlSender, rx: MphReceiver, fs: seq<Mph>) returns (told: seq<Report>)
    requires tx.Valid() && rx.Valid() && rx.havePrev && rx.State().Seeking?
    requires tx.scr.taps == rx.descr.taps && tx.scr.Line()[..SYNC] == rx.descr.Line()[..SYNC]
    requires rx.prevQuad == (4 - tx.zn % 4) % 4 && tx.scr != rx.descr && tx.scr.hist != rx.descr.hist && tx.scr.hist != rx.buf
    modifies tx, tx.scr`pos, tx.scr.hist, rx, rx.descr`pos, rx.descr.hist, rx.buf
    ensures told == Reports(fs)
  {
    hide Scrambler.Line, Scramble, After, Points, LastTurn, FrameBits, Hear, Descramble, Dibits;
    ghost var h, zn, line: Bits := tx.scr.Line(), tx.zn, [];
    var from := |tx.sent|;
    ghost var before := tx.sent;
    Nothing(tx.scr.taps, h, zn);
    assert Stream(fs[..0]) == [];
    for i := 0 to |fs|
      invariant tx.Valid() && |line| % 2 == 0 && line == Scramble(tx.scr.taps, h, Stream(fs[..i]))
      invariant tx.scr.Line() == After(h, line) && tx.zn == LastTurn(zn, line) && tx.sent == before + Points(zn, line)
      invariant rx.Valid() && rx.havePrev && rx.State() == old(rx.State()) && rx.prevQuad == old(rx.prevQuad) && rx.descr.Line() == old(rx.descr.Line())
    {
      ghost var more := Scramble(tx.scr.taps, tx.scr.Line(), FrameBits(fs[i]));
      tx.SendMph(fs[i]);
      assert fs[..i + 1] == fs[..i] + [fs[i]];
      StreamSnoc(fs[..i], fs[i]);
      ScrambleAppend(tx.scr.taps, h, Stream(fs[..i]), FrameBits(fs[i]));
      PointsAppend(zn, line, more);
      AfterAppend(h, line, more);
      line := line + more;
    }
    assert fs[..|fs|] == fs;
    var z := tx.sent[from..];
    assert z == Points(zn, line);
    ghost var g, prev, run := rx.descr.Line(), rx.prevQuad, rx.State().run;
    StreamIsEven(fs);
    told := rx.Listen(z);
    MphRoundTrip(tx.scr.taps, h, g, zn, prev, run, fs, z);
  }

  lemma {:induction false} StreamSnoc(fs: seq<Mph>, f: Mph)
    ensures Stream(fs + [f]) == Stream(fs) + FrameBits(f)
    decreases |fs|
  {
    hide FrameBits;
    if fs == [] {
      assert fs + [f] == [f] && [f][1..] == [];
      assert Stream([]) == [];
    } else {
      assert (fs + [f])[0] == fs[0] && (fs + [f])[1..] == fs[1..] + [f];
      StreamSnoc(fs[1..], f);
    }
  }
}
