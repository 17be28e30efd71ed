/** The MPh sequences of the V.34 control channel (ITU-T V.34, Tables 23 and 24; nf_v34.c):
    frame layout, the hunting receiver, the differential dibit coding. */
module V34Mph {
  import opened Arithmetic
  import opened BitIo
  import Crc = HdlcCrc
  import opened Plane
  import opened V34Scrambler

  const SYNC_ONES: nat := 17
  const STRIDE: nat := 17
  /** Bits after sync and the first start bit: Type 0, Type 1. */
  const SHORT: nat := 70
  const LONG: nat := 170

  type Group = Crc.Word

  /** A precoder coefficient, 16-bit two's complement. */
  type Q14 = h: int | -32768 <= h < 32768
  type Taps3 = t: seq<Q14> | |t| == 3 witness [0, 0, 0]

  /** nf_v34_mph_fields_t. */
  datatype Mph = Mph(type1: bool, maxRate: nat, ccRate: bool, trellis: nat, nonlinear: bool, shaping: bool,
                     ack: bool, rateMask: nat, asym: bool, hRe: Taps3, hIm: Taps3)

  /** The fields of a received frame; bits 24 to 27 are read both as the duplex rate and as
      the control-channel rate.  Only Type 1 carries taps, in frame order. */
  datatype Report = Report(type1: bool, maxRate: nat, maxRateBack: nat, ccRate: bool, aux: bool, trellis: nat,
                           nonlinear: bool, shaping: bool, ack: bool, rateMask: nat, asym: bool, taps: seq<Q14>)

  /** What a frame tells: every field in its width. */
  function Carried(f: Mph): Report {
    Report(f.type1, f.maxRate % 16, if f.ccRate then 8 else 0, f.ccRate, false, f.trellis % 4,
           f.nonlinear, f.shaping, f.ack, f.rateMask % 32768, f.asym,
           if f.type1 then [f.hRe[0], f.hIm[0], f.hRe[1], f.hIm[1], f.hRe[2], f.hIm[2]] else [])
  }

  // ---------------------------------------------------------------- layout

  function Clear(): Group {
    seq(16, _ => false)
  }

  /** Bit k of a field. */
  function Nth(v: nat, k: nat): bool {
    v / Pow(2, k) % 2 == 1
  }

  function Capabilities(f: Mph): Group {
    [f.type1, false, Nth(f.maxRate, 0), Nth(f.maxRate, 1), Nth(f.maxRate, 2), Nth(f.maxRate, 3), false, false, false, f.ccRate,
     false, Nth(f.trellis, 0), Nth(f.trellis, 1), f.nonlinear, f.shaping, f.ack]
  }

  function Rates(f: Mph): Group {
    LsbBits(f.rateMask, 15) + [f.asym]
  }

  function TapBits(h: Q14): Group {
    LsbBits(h % 65536, 16)
  }

  function Groups(f: Mph): (gs: seq<Group>)
    ensures |gs| == if f.type1 then 9 else 3
  {
    [Capabilities(f), Rates(f)]
    + (if f.type1
       then [TapBits(f.hRe[0]), TapBits(f.hIm[0]), TapBits(f.hRe[1]), TapBits(f.hIm[1]), TapBits(f.hRe[2]), TapBits(f.hIm[2])]
       else [])
    + [Clear()]
  }

  /** The sum over the groups, start bits left out. */
  function Sum(c: Crc.Word, gs: seq<Group>): Crc.Word
    decreases |gs|
  {
    if gs == [] then c else Sum(Crc.Divide(c, gs[0]), gs[1..])
  }

  /** Every group with a zero after it. */
  function Framed(gs: seq<Group>): (b: Bits)
    ensures |b| == STRIDE * |gs|
  {
    if gs == [] then [] else gs[0] + [false] + Framed(gs[1..])
  }

  function Body(f: Mph): (b: Bits)
    ensures |b| == if f.type1 then LONG else SHORT
  {
    Framed(Groups(f) + [Sum(Crc.Ones(), Groups(f))]) + (if f.type1 then [] else [false, false])
  }

  function Sync(): (b: Bits)
    ensures |b| == SYNC_ONES
  {
    seq(SYNC_ONES, _ => true)
  }

  /** 88 or 188 bits. */
  function FrameBits(f: Mph): (b: Bits)
    ensures |b| == if f.type1 then 188 else 88
  {
    Sync() + [false] + Body(f)
  }

  function Stream(fs: seq<Mph>): Bits {
    if fs == [] then [] else FrameBits(fs[0]) + Stream(fs[1..])
  }

  lemma {:induction false} StreamIsEven(fs: seq<Mph>)
    ensures |Stream(fs)| % 2 == 0
  {
    hide FrameBits;
    if fs != [] { StreamIsEven(fs[1..]); }
  }

  function Reports(fs: seq<Mph>): (r: seq<Report>)
    ensures |r| == |fs|
  {
    seq(|fs|, i requires 0 <= i < |fs| => Carried(fs[i]))
  }

  // ---------------------------------------------------------------- hunting

  /** Looking for sync with a run of ones behind, or gathering a frame. */
  datatype Hunt = Seeking(run: nat) | Reading(got: Bits)
  datatype Heard = Heard(state: Hunt, reports: seq<Report>)

  function GroupAt(b: Bits, g: nat): Group
    requires STRIDE * g + 16 <= |b|
  {
    b[STRIDE * g..STRIDE * g + 16]
  }

  function GroupsOf(b: Bits, n: nat): (gs: seq<Group>)
    requires STRIDE * n <= |b|
    ensures |gs| == n
  {
    seq(n, g requires 0 <= g < n => GroupAt(b, g))
  }

  function Signed(v: nat): (h: Q14)
    requires v < 65536
  {
    if v < 32768 then v else v - 65536
  }

  function TapAt(b: Bits, g: nat): Q14
    requires STRIDE * g + 16 <= |b|
  {
    GroupBound(GroupAt(b, g));
    Signed(Value(GroupAt(b, g)))
  }

  lemma BigPowers()
    ensures Pow(2, 15) == 32768 && Pow(2, 16) == 65536
  {
    hide Pow;
    SmallPowers();
    PowStep(13);
    PowStep(14);
    PowStep(15);
    PowStep(16);
  }

  lemma GroupBound(g: Group)
    ensures Value(g) < 65536
  {
    hide Value;
    ValueBound(g);
    BigPowers();
  }

  /** v34_mp_parse_common and the taps. */
  function Fields(b: Bits): Report
    requires |b| == SHORT || |b| == LONG
  {
    Report(b[0], Value(b[2..6]), Value(b[6..10]), b[9], b[10], Value(b[11..13]), b[13], b[14], b[15],
           Value(b[17..32]), b[32],
           if |b| == LONG then [TapAt(b, 2), TapAt(b, 3), TapAt(b, 4), TapAt(b, 5), TapAt(b, 6), TapAt(b, 7)] else [])
  }

  /** Start bits, and the sum, which is not complemented. */
  ghost predicate Sealed(b: Bits)
    requires |b| == SHORT || |b| == LONG
  {
    var n := if |b| == LONG then 9 else 3;
    && (forall g :: 0 <= g < n ==> !b[STRIDE * g + 16])
    && (|b| == LONG ==> b[0] && !b[169])
    && GroupAt(b, n) == Sum(Crc.Ones(), GroupsOf(b, n))
  }

  /** v34_mp_feed_bit on a descrambled bit. */
  ghost function Feed(s: Hunt, bit: bool): Heard {
    match s
    case Seeking(run) =>
      Heard(if bit then Seeking(run + 1) else if run >= SYNC_ONES then Reading([]) else Seeking(0), [])
    case Reading(got) =>
      var b := got + [bit];
      if |b| == LONG || (|b| == SHORT && !b[0]) then Heard(Seeking(0), if Sealed(b) then [Fields(b)] else [])
      else Heard(Reading(b), [])
  }

  ghost function Hear(s: Hunt, bits: Bits): Heard
    decreases |bits|
  {
    if bits == [] then Heard(s, [])
    else
      var h := Feed(s, bits[0]);
      var rest := Hear(h.state, bits[1..]);
      Heard(rest.state, h.reports + rest.reports)
  }

  lemma {:induction false} HearAppend(s: Hunt, a: Bits, b: Bits)
    ensures var h := Hear(s, a); var k := Hear(h.state, b); Hear(s, a + b) == Heard(k.state, h.reports + k.reports)
    decreases |a|
  {
    hide Feed;
    if a == [] {
      assert a + b == b;
    } else {
      assert (a + b)[0] == a[0] && (a + b)[1..] == a[1..] + b;
      HearAppend(Feed(s, a[0]).state, a[1..], b);
    }
  }

  lemma {:induction false} HearOnes(run: nat, n: nat)
    ensures Hear(Seeking(run), seq(n, _ => true)) == Heard(Seeking(run + n), [])
    decreases n
  {
    if n > 0 {
      assert seq(n, _ => true)[1..] == seq(n - 1, _ => true);
      HearOnes(run + 1, n - 1);
    }
  }

  /** Bits that do not yet complete a frame are gathered. */
  lemma {:induction false} HearBody(got: Bits, bits: Bits, typ: bool)
    requires got + bits != [] ==> (got + bits)[0] == typ
    requires |got| + |bits| < if typ then LONG else SHORT
    ensures Hear(Reading(got), bits) == Heard(Reading(got + bits), [])
    decreases |bits|
  {
    if bits == [] {
      assert got + bits == got;
    } else {
      assert (got + [bits[0]]) + bits[1..] == got + bits;
      HearBody(got + [bits[0]], bits[1..], typ);
    }
  }

  // ---------------------------------------------------------------- reading what was built

  lemma {:induction false} FramedAt(gs: seq<Group>, k: nat)
    requires k < |gs|
    ensures var b := Framed(gs); b[STRIDE * k..STRIDE * k + 16] == gs[k] && !b[STRIDE * k + 16]
    decreases |gs|
  {
    var b, rest := Framed(gs), Framed(gs[1..]);
    assert b == gs[0] + [false] + rest;
    if k == 0 {
      assert b[..16] == gs[0];
    } else {
      FramedAt(gs[1..], k - 1);
      assert b[STRIDE * k..STRIDE * k + 16] == rest[STRIDE * (k - 1)..STRIDE * (k - 1) + 16];
    }
  }

  lemma BodyGroup(f: Mph, k: nat)
    requires k <= |Groups(f)|
    ensures GroupAt(Body(f), k) == (Groups(f) + [Sum(Crc.Ones(), Groups(f))])[k] && !Body(f)[STRIDE * k + 16]
  {
    hide Groups, Sum, Framed;
    var gs := Groups(f) + [Sum(Crc.Ones(), Groups(f))];
    FramedAt(gs, k);
    assert GroupAt(Body(f), k) == Framed(gs)[STRIDE * k..STRIDE * k + 16];
  }

  lemma BodySealed(f: Mph)
    ensures Sealed(Body(f))
  {
    hide Body, Sum, Groups, Capabilities;
    var b, n := Body(f), if f.type1 then 9 else 3;
    forall g | 0 <= g < n ensures !b[STRIDE * g + 16] && GroupAt(b, g) == Groups(f)[g] { BodyGroup(f, g); }
    BodyGroup(f, n);
    assert GroupsOf(b, n) == Groups(f);
    assert f.type1 ==> STRIDE * n + 16 == 169;
    BodyType(f);
  }

  lemma FirstGroup(f: Mph)
    ensures Groups(f)[0] == Capabilities(f)
  {
    hide Capabilities;
  }

  lemma FirstBit(f: Mph)
    ensures Capabilities(f)[0] == f.type1
  {
  }

  lemma BodyType(f: Mph)
    ensures Body(f)[0] == f.type1
  {
    hide Body, Sum, Groups, Capabilities;
    BodyGroup(f, 0);
    FirstGroup(f);
    FirstBit(f);
    assert Body(f)[0] == GroupAt(Body(f), 0)[0];
  }

  lemma TapBack(h: Q14)
    ensures Value(TapBits(h)) < 65536 && Signed(Value(TapBits(h))) == h
  {
    hide LsbBits, Value, Pow;
    BigPowers();
    ValueOfBits(h % 65536, 16);
  }

  lemma CapabilitiesRead(f: Mph)
    ensures var g := Capabilities(f);
            && Value(g[2..6]) == f.maxRate % 16 && Value(g[6..10]) == (if f.ccRate then 8 else 0)
            && g[9] == f.ccRate && !g[10] && Value(g[11..13]) == f.trellis % 4
            && g[13] == f.nonlinear && g[14] == f.shaping && g[15] == f.ack
  {
    CapabilityBits(f);
    hide *;
    SmallPowers();
    ValueOfLowBits(f.maxRate, 4);
    ValueOfLowBits(f.trellis, 2);
    FourthBit(f.ccRate);
  }

  lemma CapabilityBits(f: Mph)
    ensures var g := Capabilities(f);
            && g[2..6] == LsbBits(f.maxRate, 4) && g[6..10] == [false, false, false, f.ccRate] && g[11..13] == LsbBits(f.trellis, 2)
            && g[9] == f.ccRate && !g[10] && g[13] == f.nonlinear && g[14] == f.shaping && g[15] == f.ack
  {
    hide LsbBits, Nth;
    NthBits(f.maxRate, 4);
    NthBits(f.trellis, 2);
  }

  lemma NthBits(v: nat, n: nat)
    ensures forall k :: 0 <= k < n ==> LsbBits(v, n)[k] == Nth(v, k)
  {
    hide LsbBits;
    forall k | 0 <= k < n ensures LsbBits(v, n)[k] == Nth(v, k) { LsbBitAt(v, n, k); }
  }

  lemma FourthBit(b: bool)
    ensures Value([false, false, false, b]) == if b then 8 else 0
  {
    assert [false, false, false, b][1..] == [false, false, b] && [false, false, b][1..] == [false, b] && [false, b][1..] == [b];
    assert Value([b]) == if b then 1 else 0;
    assert Value([false, b]) == 2 * Value([b]);
    assert Value([false, false, b]) == 2 * Value([false, b]);
  }

  lemma RatesRead(f: Mph)
    ensures var g := Rates(f); Value(g[..15]) == f.rateMask % 32768 && g[15] == f.asym
  {
    hide LsbBits;
    BigPowers();
    assert Rates(f)[..15] == LsbBits(f.rateMask, 15);
    ValueOfLowBits(f.rateMask, 15);
  }

  lemma BodyTap(f: Mph, k: nat, h: Q14)
    requires f.type1 && 2 <= k < 8 && Groups(f)[k] == TapBits(h)
    ensures TapAt(Body(f), k) == h
  {
    hide Body, Sum, Groups;
    BodyGroup(f, k);
    TapBack(h);
  }

  /** Every field comes back. */
  lemma FieldsBack(f: Mph)
    ensures Fields(Body(f)) == Carried(f)
  {
    hide Body, Sum, Capabilities, Rates, TapBits, Value, TapAt;
    var b := Body(f);
    BodyType(f);
    BodyGroup(f, 0);
    BodyGroup(f, 1);
    CapabilitiesRead(f);
    RatesRead(f);
    var g, r := Capabilities(f), Rates(f);
    assert b[..16] == g && b[17..33] == r;
    assert b[2..6] == g[2..6] && b[6..10] == g[6..10] && b[11..13] == g[11..13] && b[17..32] == r[..15];
    assert b[9] == g[9] && b[10] == g[10] && b[13] == g[13] && b[14] == g[14] && b[15] == g[15] && b[32] == r[15];
    if f.type1 {
      BodyTap(f, 2, f.hRe[0]);
      BodyTap(f, 3, f.hIm[0]);
      BodyTap(f, 4, f.hRe[1]);
      BodyTap(f, 5, f.hIm[1]);
      BodyTap(f, 6, f.hRe[2]);
      BodyTap(f, 7, f.hIm[2]);
    }
  }

  /** As long as its type bit says. */
  predicate BodyShaped(b: Bits) {
    (|b| == SHORT && !b[0]) || (|b| == LONG && b[0])
  }

  /** Behind sync and a start bit a body is taken whole, reported exactly if it is sealed, and
      the receiver hunts again right behind it. */
  lemma BodyHeard(run: nat, b: Bits)
    requires BodyShaped(b)
    ensures Hear(Seeking(run), Sync() + [false] + b) == Heard(Seeking(0), if Sealed(b) then [Fields(b)] else [])
  {
    hide Hear, Sealed, Fields;
    var n := |b| - 1;
    assert Sync() + [false] + b == (Sync() + [false]) + (b[..n] + [b[n]]) by { assert b == b[..n] + [b[n]]; }
    HearOnes(run, SYNC_ONES);
    HearOne(Seeking(run + SYNC_ONES), false);
    HearAppend(Seeking(run), Sync(), [false]);
    assert [] + b[..n] == b[..n];
    HearBody([], b[..n], b[0]);
    HearOne(Reading(b[..n]), b[n]);
    assert b[..n] + [b[n]] == b;
    HearAppend(Reading([]), b[..n], [b[n]]);
    HearAppend(Seeking(run), Sync() + [false], b[..n] + [b[n]]);
  }

  /** A hunting receiver reports a frame once, and hunts again right behind it. */
  lemma FrameHeard(run: nat, f: Mph)
    ensures Hear(Seeking(run), FrameBits(f)) == Heard(Seeking(0), [Carried(f)])
  {
    BodyType(f);
    hide Hear, Body, Sealed, Fields, Carried;
    assert FrameBits(f) == Sync() + [false] + Body(f);
    BodyHeard(run, Body(f));
    BodySealed(f);
    FieldsBack(f);
  }

  lemma HearOne(s: Hunt, bit: bool)
    ensures Hear(s, [bit]) == Feed(s, bit)
  {
    hide Feed;
    var h := Feed(s, bit);
    assert Hear(h.state, []) == Heard(h.state, []) && [bit][1..] == [];
    assert h.reports + [] == h.reports;
  }

  /** A stream of frames is reported frame by frame, in order. */
  lemma {:induction false} StreamHeard(run: nat, fs: seq<Mph>)
    ensures Hear(Seeking(run), Stream(fs)) == Heard(Seeking(if fs == [] then run else 0), Reports(fs))
    decreases |fs|
  {
    hide FrameBits, Carried;
    if fs != [] {
      FrameHeard(run, fs[0]);
      StreamHeard(0, fs[1..]);
      HearAppend(Seeking(run), FrameBits(fs[0]), Stream(fs[1..]));
      assert Reports(fs) == [Carried(fs[0])] + Reports(fs[1..]);
    }
  }

  // ---------------------------------------------------------------- damaged frames

  /** The bits of groups, one after the other. */
  function Flat(gs: seq<Group>): (b: Bits)
    ensures |b| == 16 * |gs|
  {
    if gs == [] then [] else gs[0] + Flat(gs[1..])
  }

  lemma {:induction false} SumIsDivide(c: Crc.Word, gs: seq<Group>)
    ensures Sum(c, gs) == Crc.Divide(c, Flat(gs))
    decreases |gs|
  {
    hide Crc.Divide;
    if gs == [] {
      DividedNothing(c);
    } else {
      SumIsDivide(Crc.Divide(c, gs[0]), gs[1..]);
      Crc.DivideAppend(c, gs[0], Flat(gs[1..]));
    }
  }

  lemma DividedNothing(c: Crc.Word)
    ensures Crc.Divide(c, []) == c
  {
  }

  function NoBits(): Crc.Word {
    seq(16, _ => false)
  }

  /** A word divided by itself, and only that, leaves nothing. */
  lemma OwnSum(c: Crc.Word, g: Group)
    ensures g == c <==> Crc.Divide(c, g) == Crc.Zeros(NoBits(), 16)
  {
    hide Crc.Divide, Crc.Zeros;
    Crc.DivideAtOnce(c, g);
    assert Crc.Extend(g) == g;
    if g == c { assert Crc.Xor(c, g) == NoBits(); }
    if Crc.Divide(c, g) == Crc.Zeros(NoBits(), 16) {
      Crc.ZerosInjective(Crc.Xor(c, g), NoBits(), 16);
      forall i | 0 <= i < 16 ensures g[i] == c[i] { assert Crc.Xor(c, g)[i] == (c[i] != g[i]) && !NoBits()[i]; }
    }
  }

  /** Groups in all, the sum included. */
  function GroupCount(b: Bits): nat
    requires |b| == SHORT || |b| == LONG
  {
    if |b| == LONG then 10 else 4
  }

  lemma {:induction false} FlatSnoc(gs: seq<Group>, g: Group)
    ensures Flat(gs + [g]) == Flat(gs) + g
  {
    if gs != [] {
      FlatSnoc(gs[1..], g);
      assert (gs + [g])[0] == gs[0] && (gs + [g])[1..] == gs[1..] + [g];
    } else {
      assert [g][1..] == [] && gs + [g] == [g] && Flat([]) == [];
    }
  }

  /** A sealed body's groups, the sum among them, leave nothing when divided. */
  lemma SealedLeavesNothing(b: Bits)
    requires |b| == SHORT || |b| == LONG
    ensures Sealed(b) ==> Crc.Divide(Crc.Ones(), Flat(GroupsOf(b, GroupCount(b)))) == Crc.Zeros(NoBits(), 16)
  {
    var n := GroupCount(b) - 1;
    var gs, g := GroupsOf(b, n), GroupAt(b, n);
    assert GroupsOf(b, n + 1) == gs + [g];
    hide Crc.Divide, Crc.Zeros, Flat, Sum, GroupAt;
    FlatSnoc(gs, g);
    SumIsDivide(Crc.Ones(), gs);
    Crc.DivideAppend(Crc.Ones(), Flat(gs), g);
    OwnSum(Sum(Crc.Ones(), gs), g);
  }

  /** Damage to a sealed body within sixteen group bits in a row breaks the seal. */
  lemma DamageBreaksSeal(b: Bits, d: Bits, before: Bits, x: Bits, y: Bits, after: Bits)
    requires (|b| == SHORT || |b| == LONG) && |d| == |b| && Sealed(b)
    requires Flat(GroupsOf(b, GroupCount(b))) == before + x + after && Flat(GroupsOf(d, GroupCount(d))) == before + y + after
    requires |x| == |y| <= 16 && x != y
    ensures !Sealed(d)
  {
    hide Crc.Divide, Crc.Zeros, Flat, Sealed;
    SealedLeavesNothing(b);
    SealedLeavesNothing(d);
    Crc.BurstDetected(Crc.Ones(), before, x, y, after);
  }

  /** A frame damaged so is not reported, and all that follow are. */
  lemma DamagedFrameSkipped(run: nat, f: Mph, d: Bits, before: Bits, x: Bits, y: Bits, after: Bits, fs: seq<Mph>)
    requires BodyShaped(d) && |d| == |Body(f)|
    requires Flat(GroupsOf(Body(f), GroupCount(Body(f)))) == before + x + after && Flat(GroupsOf(d, GroupCount(d))) == before + y + after
    requires |x| == |y| <= 16 && x != y
    ensures Hear(Seeking(run), Sync() + [false] + d + Stream(fs)).reports == Reports(fs)
  {
    hide Hear, Body, Sealed, Fields, Stream, Flat, Reports;
    BodySealed(f);
    DamageBreaksSeal(Body(f), d, before, x, y, after);
    BodyHeard(run, d);
    HearAppend(Seeking(run), Sync() + [false] + d, Stream(fs));
    StreamHeard(0, fs);
    assert [] + Reports(fs) == Reports(fs);
  }

  /** The zero behind a group received as a one: the frame is not reported, and all that follow
      are.  Only the zero behind the sum of a short frame is not looked at. */
  lemma StartBitNeeded(run: nat, f: Mph, i: nat, fs: seq<Mph>)
    requires i < |Body(f)| && i % STRIDE == 16
    ensures Hear(Seeking(run), Sync() + [false] + Body(f)[i := true] + Stream(fs)).reports
         == (if !f.type1 && i == 67 then [Carried(f)] else []) + Reports(fs)
  {
    hide Hear, Body, Fields, Stream, Reports, Carried, Sealed;
    var d := Body(f)[i := true];
    BodyType(f);
    if !f.type1 && i == 67 { LastZeroUnread(f); } else { OneIsUnsealed(d, i); }
    BodyHeard(run, d);
    HearAppend(Seeking(run), Sync() + [false] + d, Stream(fs));
    StreamHeard(0, fs);
  }

  lemma OneIsUnsealed(d: Bits, i: nat)
    requires (|d| == SHORT || |d| == LONG) && i < |d| && i % STRIDE == 16 && d[i] && (|d| == SHORT ==> i != 67)
    ensures !Sealed(d)
  {
    hide GroupAt, GroupsOf, Sum;
    var g := i / STRIDE;
    assert i == STRIDE * g + 16 && d[STRIDE * g + 16];
  }

  lemma LastZeroUnread(f: Mph)
    requires !f.type1
    ensures |Body(f)| == SHORT
    ensures var d := Body(f)[67 := true]; Sealed(d) && Fields(d) == Carried(f)
  {
    hide Sealed, Fields, Carried;
    BodySealed(f);
    FieldsBack(f);
    SameSeal(Body(f), Body(f)[67 := true]);
    SameFields(Body(f), Body(f)[67 := true]);
  }

  /** Seal and fields of a short frame lie in its first 67 bits. */
  lemma SameSeal(b: Bits, d: Bits)
    requires |b| == |d| == SHORT && b[..67] == d[..67] && Sealed(b)
    ensures Sealed(d)
  {
    hide Sum;
    forall k | 0 <= k < 67 ensures b[k] == d[k] { assert b[..67][k] == d[..67][k]; }
    forall g | 0 <= g < 4 ensures GroupAt(d, g) == GroupAt(b, g) {
      forall k | 0 <= k < 16 ensures GroupAt(d, g)[k] == GroupAt(b, g)[k] {}
    }
    assert GroupsOf(d, 3) == GroupsOf(b, 3);
  }

  lemma SameFields(b: Bits, d: Bits)
    requires |b| == |d| == SHORT && b[..67] == d[..67]
    ensures Fields(d) == Fields(b)
  {
    hide Value;
    forall k | 0 <= k < 67 ensures b[k] == d[k] { assert b[..67][k] == d[..67][k]; }
    assert d[2..6] == b[2..6] && d[6..10] == b[6..10] && d[11..13] == b[11..13] && d[17..32] == b[17..32];
  }

  // ---------------------------------------------------------------- joining late

  /** Bits 17, 34, 51, ... of a frame are start bits, and its last bit is zero. */
  lemma StartBits(f: Mph, k: nat)
    requires 0 < k < |FrameBits(f)| && (k % STRIDE == 0 || k == |FrameBits(f)| - 1)
    ensures !FrameBits(f)[k]
  {
    hide Framed, Groups, Sum;
    var b := Body(f);
    if k > SYNC_ONES {
      assert FrameBits(f)[k] == b[k - 18];
      if k % STRIDE == 0 {
        var g := k / STRIDE - 2;
        assert k - 18 == STRIDE * g + 16;
        BodyGroup(f, g);
      } else if f.type1 {
        BodyGroup(f, 9);
      }
    }
  }

  /** Nothing in the rest of a frame looks like sync. */
  lemma {:induction false} RestIsQuiet(f: Mph, k: nat, run: nat)
    requires 1 <= k <= |FrameBits(f)| && run <= (k - 1) % STRIDE && (k == |FrameBits(f)| ==> run == 0)
    ensures Hear(Seeking(run), FrameBits(f)[k..]) == Heard(Seeking(0), [])
    decreases |FrameBits(f)| - k
  {
    hide FrameBits;
    var b := FrameBits(f);
    if k < |b| {
      assert b[k..][1..] == b[k + 1..] && b[k..][0] == b[k];
      if b[k] {
        if k % STRIDE == 0 || k == |b| - 1 { StartBits(f, k); }
        RestIsQuiet(f, k + 1, run + 1);
      } else {
        RestIsQuiet(f, k + 1, 0);
      }
    }
  }

  /** A receiver that begins to hunt inside a frame never locks on its data: it reports exactly
      the frames that follow. */
  lemma LateJoiner(f: Mph, k: nat, fs: seq<Mph>)
    requires 1 <= k <= |FrameBits(f)|
    ensures Hear(Seeking(0), FrameBits(f)[k..] + Stream(fs)).reports == Reports(fs)
  {
    hide FrameBits;
    RestIsQuiet(f, k, 0);
    StreamHeard(0, fs);
    HearAppend(Seeking(0), FrameBits(f)[k..], Stream(fs));
  }

  // ---------------------------------------------------------------- dibits

  /** v34_mp_quadrant. */
  function Quadrant(z: Point): (q: nat)
    ensures q < 4
  {
    if z.re >= 0.0 && z.im >= 0.0 then 0
    else if z.re < 0.0 && z.im >= 0.0 then 1
    else if z.re < 0.0 && z.im < 0.0 then 2
    else 3
  }

  /** (re, im) turned clockwise by a quarter, `steps` times. */
  function RotateCw(z: Point, steps: nat): Point
    decreases steps
  {
    if steps == 0 then z else RotateCw(Point(z.im, 0.0 - z.re), steps - 1)
  }

  /** v34_cc_point. */
  function CcPoint(zn: nat): Point {
    RotateCw(Point(1.0, 1.0), zn % 4)
  }

  function Turn(zn: nat, i1: bool, i2: bool): (z: nat)
    ensures z < 4
  {
    (zn + (if i1 then 1 else 0) + 2 * (if i2 then 1 else 0)) % 4
  }

  /** v34_cc_tx_dibit on line bits. */
  function Points(zn: nat, line: Bits): (z: seq<Point>)
    requires |line| % 2 == 0
    ensures |z| == |line| / 2
    decreases |line|
  {
    if line == [] then [] else var z := Turn(zn, line[0], line[1]); [CcPoint(z)] + Points(z, line[2..])
  }

  function LastTurn(zn: nat, line: Bits): nat
    requires |line| % 2 == 0
    decreases |line|
  {
    if line == [] then zn else LastTurn(Turn(zn, line[0], line[1]), line[2..])
  }

  /** nf_v34_mp_feed_symbol up to the descrambler. */
  function Dibits(prev: nat, z: seq<Point>): (line: Bits)
    ensures |line| == 2 * |z|
    decreases |z|
  {
    if z == [] then []
    else
      var q := Quadrant(z[0]);
      var delta := (prev - q) % 4;
      [delta % 2 == 1, delta / 2 % 2 == 1] + Dibits(q, z[1..])
  }

  /** Received points in the quadrants of the sent ones, whatever the noise. */
  predicate SameQuadrants(y: seq<Point>, z: seq<Point>) {
    |y| == |z| && forall i :: 0 <= i < |z| ==> Quadrant(y[i]) == Quadrant(z[i])
  }

  lemma QuadrantOf(zn: nat)
    ensures Quadrant(CcPoint(zn)) == (4 - zn % 4) % 4
  {
    var p := Point(1.0, 1.0);
    assert RotateCw(p, 0) == p;
    assert RotateCw(p, 1) == RotateCw(Point(1.0, -1.0), 0);
    assert RotateCw(p, 2) == RotateCw(Point(1.0, -1.0), 1) == RotateCw(Point(-1.0, -1.0), 0);
    assert RotateCw(p, 3) == RotateCw(Point(1.0, -1.0), 2) == RotateCw(Point(-1.0, -1.0), 1) == RotateCw(Point(-1.0, 1.0), 0);
  }

  /** The differential coding is undone. */
  lemma {:induction false} DibitsBack(zn: nat, line: Bits, prev: nat, y: seq<Point>)
    requires |line| % 2 == 0 && prev == (4 - zn % 4) % 4 && SameQuadrants(y, Points(zn, line))
    ensures Dibits(prev, y) == line
    decreases |line|
  {
    hide Quadrant, CcPoint, Turn, Points;
    if line != [] {
      var z := Turn(zn, line[0], line[1]);
      PointsCons(zn, line, y);
      QuadrantOf(z);
      DibitsBack(z, line[2..], (4 - z % 4) % 4, y[1..]);
      TurnBack(zn, line[0], line[1]);
      assert line == [line[0], line[1]] + line[2..];
    }
  }

  lemma PointsUnfold(zn: nat, line: Bits)
    requires |line| % 2 == 0 && line != []
    ensures var z := Turn(zn, line[0], line[1]); Points(zn, line) == [CcPoint(z)] + Points(z, line[2..])
  {
    hide CcPoint, Turn;
  }

  lemma PointsCons(zn: nat, line: Bits, y: seq<Point>)
    requires |line| % 2 == 0 && line != [] && SameQuadrants(y, Points(zn, line))
    ensures var z := Turn(zn, line[0], line[1]);
            y != [] && Quadrant(y[0]) == Quadrant(CcPoint(z)) && SameQuadrants(y[1..], Points(z, line[2..]))
  {
    hide Quadrant, CcPoint, Turn, Points;
    PointsUnfold(zn, line);
    assert Quadrant(y[0]) == Quadrant(Points(zn, line)[0]);
    assert forall i :: 0 <= i < |y| - 1 ==> y[1..][i] == y[i + 1];
  }

  lemma TurnBack(zn: nat, i1: bool, i2: bool)
    ensures var z := Turn(zn, i1, i2);
            var delta := ((4 - zn % 4) % 4 - (4 - z % 4) % 4) % 4; (delta % 2 == 1) == i1 && (delta / 2 % 2 == 1) == i2
  {
  }

  /** Descrambling needs no more than the last 23 line bits. */
  lemma RecentHistoryIsEnough(t: Taps, h: History, g: History, data: Bits)
    requires GoodTaps(t) && h[..SYNC] == g[..SYNC]
    ensures Descramble(t, g, Scramble(t, h, data)) == data
  {
    var line := Scramble(t, h, data);
    DescrambleInverts(t, h, data);
    forall k | 0 <= k < |data| ensures Descramble(t, g, line)[k] == data[k] { SyncFrom(t, h, g, line, SYNC, k); }
  }

  /** The points a sender makes of frames. */
  function SentPoints(t: Taps, h: History, zn: nat, fs: seq<Mph>): seq<Point>
    requires GoodTaps(t)
  {
    StreamIsEven(fs);
    Points(zn, Scramble(t, h, Stream(fs)))
  }

  /** Scrambled, differentially coded, received in the right quadrants by a hunting receiver
      whose descrambler saw the same last 23 line bits: every frame is reported once, in
      order, with all it carries. */
  lemma MphRoundTrip(t: Taps, h: History, g: History, zn: nat, prev: nat, run: nat, fs: seq<Mph>, y: seq<Point>)
    requires GoodTaps(t) && h[..SYNC] == g[..SYNC] && prev == (4 - zn % 4) % 4
    requires SameQuadrants(y, SentPoints(t, h, zn, fs))
    ensures Hear(Seeking(run), Descramble(t, g, Dibits(prev, y))) == Heard(Seeking(if fs == [] then run else 0), Reports(fs))
  {
    hide Hear, Stream, Scramble, Descramble, Points, Dibits, SameQuadrants, Reports;
    StreamIsEven(fs);
    DibitsBack(zn, Scramble(t, h, Stream(fs)), prev, y);
    RecentHistoryIsEnough(t, h, g, Stream(fs));
    StreamHeard(run, fs);
  }
}
