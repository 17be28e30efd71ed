/** The V.34 mapping frame at label and rotation level (ITU-T V.34, clauses 9.3 to 9.6;
    nf_v34.c: nf_v34_pc_encode and v34_page_extract_bits): how scrambled bits are split into
    shell index, differential and uncoded bits, and back. */
module V34Frame {
  import opened Arithmetic
  import opened BitIo
  import opened V34ShellCounting
  import opened V34ShellMapper
  import opened V34Switching
  import V34Scrambler

  /** An operating point: M rings, q uncoded bits, K shell bits, b bits a high frame, P
      mapping frames a data frame, the switching pattern. */
  datatype Mode = Mode(m: nat, q: nat, k: nat, b: nat, p: nat, swp: nat)

  /** A 2D symbol: quarter-constellation label and rotation by quarter turns. */
  datatype Symbol = Symbol(lab: nat, rot: nat)

  predicate FrameIsHigh(md: Mode, f: nat)
    requires md.p >= 1
  {
    Bit(md.swp, md.p - 1 - f % md.p)
  }

  /** What the mode tables provide: the bits a frame carries are its shell bits, four groups
      of two or three, and eight times q; the rings can hold the shell index. */
  ghost predicate ModeOk(md: Mode) {
    && md.p >= 1 && 1 <= md.m <= MAX_RINGS
    && if md.k > 0 then md.b == 12 + 8 * md.q + md.k && md.k <= 31 && Pow(2, md.k) <= Pow(md.m, 8)
       else md.q == 0 && 8 <= md.b <= 12 && (md.b == 8 ==> forall f: nat :: FrameIsHigh(md, f))
  }

  /** Every rate of at least eight bits a mapping frame gives such a mode: N bits a data frame
      of P mapping frames, split by the counter, with enough rings for the shell bits. */
  lemma RateGivesMode(md: Mode, n: nat, r: nat)
    requires 1 <= md.p && 8 * md.p <= n && 1 <= r <= md.p && 1 <= md.b && n == (md.b - 1) * md.p + r
    requires forall f :: 0 <= f < md.p ==> Bit(md.swp, md.p - 1 - f) == IsHigh(md.p, r, f)
    requires if md.b <= 12 then md.k == 0 && md.q == 0 else md.b == 12 + 8 * md.q + md.k && 1 <= md.k <= 31
    requires 1 <= md.m <= MAX_RINGS && Pow(2, md.k) <= Pow(md.m, 8)
    ensures ModeOk(md)
  {
    hide Bit, Pow;
    if md.b < 8 { MulStep(md.b - 1, 7, md.p); }
    if md.b == 8 {
      assert r == md.p;
      forall f: nat
        ensures FrameIsHigh(md, f)
      {
        var g := f % md.p;
        assert 0 <= g < md.p && IsHigh(md.p, r, g);
      }
    }
  }

  function FrameLen(md: Mode, high: bool): int {
    if high then md.b else md.b - 1
  }

  /** Shell bits: a low frame's top bit is a literal zero. */
  function ShellLen(md: Mode, high: bool): (n: nat) {
    if md.k == 0 then 0 else if high then md.k else md.k - 1
  }

  /** Group `j` carries I3; without a shell only as many groups do as bits remain. */
  predicate HasI3(md: Mode, high: bool, j: nat) {
    md.k > 0 || j < FrameLen(md, high) - 8
  }

  function GroupLen(md: Mode, has3: bool): nat {
    (if has3 then 3 else 2) + 2 * md.q
  }

  /** First bit of group `j`. */
  function GroupStart(md: Mode, high: bool, j: nat): nat
    requires j <= 4
  {
    if j == 0 then ShellLen(md, high) else GroupStart(md, high, j - 1) + GroupLen(md, HasI3(md, high, j - 1))
  }

  /** The layout balances: the last group ends where the frame does. */
  lemma LayoutBalances(md: Mode, f: nat)
    requires ModeOk(md)
    ensures GroupStart(md, FrameIsHigh(md, f), 4) == FrameLen(md, FrameIsHigh(md, f))
  {
    hide FrameIsHigh, Pow;
    var high := FrameIsHigh(md, f);
    assert GroupStart(md, high, 1) == ShellLen(md, high) + GroupLen(md, HasI3(md, high, 0));
    assert GroupStart(md, high, 2) == GroupStart(md, high, 1) + GroupLen(md, HasI3(md, high, 1));
    assert GroupStart(md, high, 3) == GroupStart(md, high, 2) + GroupLen(md, HasI3(md, high, 2));
    assert GroupStart(md, high, 4) == GroupStart(md, high, 3) + GroupLen(md, HasI3(md, high, 3));
  }

  function B(x: bool): nat {
    if x then 1 else 0
  }

  // ---------------------------------------------------------------- one 4D group

  datatype Pair = Pair(a: Symbol, b: Symbol)

  /** A label: uncoded bits below the ring index. */
  function Label(bits: Bits, ring: nat): nat {
    Value(bits) + ring * Pow(2, |bits|)
  }

  /** I2 and I3 turn the first symbol on from the last interval's. */
  function FirstTurn(zprev: nat, i2: bool, i3: bool): (z: nat)
    ensures z < 4
  {
    (zprev + B(i2) + 2 * B(i3)) % 4
  }

  /** I1 and U0 turn the second against the first. */
  function SecondTurn(z: nat, i1: bool, u0: bool): (r: nat)
    ensures r < 4
  {
    (z + 2 * B(i1) + B(u0)) % 4
  }

  function EncodeGroup(q: nat, has3: bool, s: Bits, zprev: nat, ring0: nat, ring1: nat, u0: bool): (r: Pair)
    requires |s| == (if has3 then 3 else 2) + 2 * q
    ensures r.a.rot < 4 && r.b.rot < 4
  {
    var n := if has3 then 3 else 2;
    var z := FirstTurn(zprev, s[1], has3 && s[2]);
    Pair(Symbol(Label(s[n..n + q], ring0), z), Symbol(Label(s[n + q..], ring1), SecondTurn(z, s[0], u0)))
  }

  function Turned(now: nat, before: nat): nat {
    (now - before) % 4
  }

  function DecodeGroup(q: nat, has3: bool, a: Symbol, b: Symbol, zprev: nat): Bits {
    var ival, delta := Turned(a.rot, zprev), Turned(b.rot, a.rot);
    [delta / 2 == 1, ival % 2 == 1] + (if has3 then [ival / 2 % 2 == 1] else []) + LsbBits(a.lab, q) + LsbBits(b.lab, q)
  }

  function RingOf(q: nat, x: Symbol): nat {
    x.lab / Pow(2, q)
  }

  lemma LabelSplits(bits: Bits, ring: nat)
    ensures LsbBits(Label(bits, ring), |bits|) == bits
    ensures Label(bits, ring) / Pow(2, |bits|) == ring
  {
    hide LsbBits, Value, Pow;
    ValueBound(bits);
    BitsOfValue(bits);
    LsbBitsShifted(Value(bits), ring, |bits|, 0);
    assert LsbBits(ring, 0) == [];
    DivModUnique(ring, Pow(2, |bits|), Value(bits));
  }

  /** The turns give I1, I2 and I3 back, and the parity of the second is U0. */
  lemma TurnsGiveBits(zprev: nat, i1: bool, i2: bool, i3: bool, u0: bool)
    requires zprev < 4
    ensures var z := FirstTurn(zprev, i2, i3);
            var ival, delta := Turned(z, zprev), Turned(SecondTurn(z, i1, u0), z);
            && (ival % 2 == 1) == i2 && (ival / 2 % 2 == 1) == i3
            && (delta / 2 == 1) == i1 && (delta % 2 == 1) == u0
  {
    var i, d := B(i2) + 2 * B(i3), 2 * B(i1) + B(u0);
    var z := FirstTurn(zprev, i2, i3);
    TurnBack(zprev, i);
    TurnBack(z, d);
    assert zprev + B(i2) + 2 * B(i3) == zprev + i && z + 2 * B(i1) + B(u0) == z + d;
  }

  lemma TurnBack(z: nat, i: nat)
    requires z < 4 && i < 4
    ensures ((z + i) % 4 - z) % 4 == i
  {
    assert (z + i) % 4 == if z + i < 4 then z + i else z + i - 4;
    var d: int := (z + i) % 4 - z;
    assert d == i || d == i - 4;
  }

  /** A group's bits and rings come back whatever U0 was. */
  lemma GroupRoundTrip(q: nat, has3: bool, s: Bits, zprev: nat, ring0: nat, ring1: nat, u0: bool)
    requires |s| == (if has3 then 3 else 2) + 2 * q && zprev < 4
    ensures var g := EncodeGroup(q, has3, s, zprev, ring0, ring1, u0);
            DecodeGroup(q, has3, g.a, g.b, zprev) == s && RingOf(q, g.a) == ring0 && RingOf(q, g.b) == ring1
  {
    hide LsbBits, Label, Pow, FirstTurn, SecondTurn, Turned;
    var n := if has3 then 3 else 2;
    LabelSplits(s[n..n + q], ring0);
    LabelSplits(s[n + q..], ring1);
    TurnsGiveBits(zprev, s[0], s[1], has3 && s[2], u0);
    Fields(s, n, q);
  }

  lemma Fields(s: Bits, n: nat, q: nat)
    requires 2 <= n <= 3 && |s| == n + 2 * q
    ensures s == [s[0], s[1]] + (if n == 3 then [s[2]] else []) + s[n..n + q] + s[n + q..]
  {
  }

  // ---------------------------------------------------------------- one mapping frame

  function EncodeGroups(md: Mode, high: bool, s: Bits, zprev: nat, x: seq<nat>, u0: seq<bool>, j: nat): (r: seq<Symbol>)
    requires j <= 4 && |x| == 8 && |u0| == 4 && GroupStart(md, high, 4) <= |s|
    ensures |r| == 2 * (4 - j)
    decreases 4 - j
  {
    if j == 4 then []
    else
      StartsIncrease(md, high, j + 1);
      var has3 := HasI3(md, high, j);
      var g := EncodeGroup(md.q, has3, s[GroupStart(md, high, j)..GroupStart(md, high, j + 1)], zprev, x[2 * j], x[2 * j + 1], u0[j]);
      [g.a, g.b] + EncodeGroups(md, high, s, g.a.rot, x, u0, j + 1)
  }

  lemma {:induction false} StartsIncrease(md: Mode, high: bool, j: nat)
    requires j <= 4
    ensures GroupStart(md, high, j) <= GroupStart(md, high, 4)
    decreases 4 - j
  {
    if j < 4 { StartsIncrease(md, high, j + 1); }
  }

  /** The shell mapper's part of a frame: ring indices from the low bits. */
  function RingsFor(md: Mode, high: bool, s: Bits): (x: seq<nat>)
    requires ModeOk(md) && ShellLen(md, high) <= |s|
    ensures |x| == 8
  {
    if md.k == 0 then seq(8, _ => 0)
    else
      ShellFits(md, high, s[..ShellLen(md, high)]);
      TupleAt(3, md.m, Value(s[..ShellLen(md, high)]))
  }

  lemma ShellFits(md: Mode, high: bool, s: Bits)
    requires ModeOk(md) && md.k > 0 && |s| == ShellLen(md, high)
    ensures Value(s) < Pow(2, |s|) <= Pow(2, 31)
    ensures Value(s) < Pow(md.m, 8)
  {
    hide Pow;
    ValueBound(s);
    PowUp(|s|, md.k);
    PowUp(md.k, 31);
  }

  function EncodeFrame(md: Mode, high: bool, s: Bits, zprev: nat, u0: seq<bool>): (r: seq<Symbol>)
    requires ModeOk(md) && |u0| == 4 && |s| == FrameLen(md, high) == GroupStart(md, high, 4)
    ensures |r| == 8
  {
    StartsIncrease(md, high, 0);
    EncodeGroups(md, high, s, zprev, RingsFor(md, high, s), u0, 0)
  }

  function DecodeGroups(md: Mode, high: bool, y: seq<Symbol>, zprev: nat, j: nat): Bits
    requires j <= 4 && |y| == 8
    decreases 4 - j
  {
    if j == 4 then []
    else DecodeGroup(md.q, HasI3(md, high, j), y[2 * j], y[2 * j + 1], zprev) + DecodeGroups(md, high, y, y[2 * j].rot, j + 1)
  }

  function Rings(md: Mode, y: seq<Symbol>): (x: seq<nat>)
    ensures |x| == |y|
  {
    seq(|y|, i requires 0 <= i < |y| => RingOf(md.q, y[i]))
  }

  /** The shell index, clamped as a 32-bit word to the bits a frame of this kind carries. */
  function ShellIndex(md: Mode, high: bool, x: seq<nat>): nat
    requires |x| == 8
  {
    ToUInt32(Index(3, md.m, x)) % Pow(2, ShellLen(md, high))
  }

  function DecodeFrame(md: Mode, high: bool, y: seq<Symbol>, zprev: nat): Bits
    requires |y| == 8
  {
    (if md.k == 0 then [] else LsbBits(ShellIndex(md, high, Rings(md, y)), ShellLen(md, high))) + DecodeGroups(md, high, y, zprev, 0)
  }

  /** The groups of a frame come back, with their rings. */
  lemma {:induction false} GroupsRoundTrip(md: Mode, high: bool, s: Bits, zprev: nat, x: seq<nat>, u0: seq<bool>, y: seq<Symbol>, j: nat)
    requires j <= 4 && |x| == 8 && |u0| == 4 && |y| == 8 && |s| == GroupStart(md, high, 4) && zprev < 4
    requires y[2 * j..] == EncodeGroups(md, high, s, zprev, x, u0, j)
    ensures GroupStart(md, high, j) <= |s|
    ensures DecodeGroups(md, high, y, zprev, j) == s[GroupStart(md, high, j)..]
    ensures forall i :: 2 * j <= i < 8 ==> RingOf(md.q, y[i]) == x[i]
    decreases 4 - j
  {
    hide *;
    StartsIncrease(md, high, j);
    if j == 4 {
      NoGroups(md, high, s, zprev, x, u0, y);
    } else {
      FirstGroup(md, high, s, zprev, x, u0, y, j);
      GroupsRoundTrip(md, high, s, y[2 * j].rot, x, u0, y, j + 1);
      var lo, hi := GroupStart(md, high, j), GroupStart(md, high, j + 1);
      assert s[lo..] == s[lo..hi] + s[hi..];
    }
  }

  lemma NoGroups(md: Mode, high: bool, s: Bits, zprev: nat, x: seq<nat>, u0: seq<bool>, y: seq<Symbol>)
    requires |y| == 8
    ensures DecodeGroups(md, high, y, zprev, 4) == []
  {
  }

  /** The first of the groups, and what follows it. */
  lemma FirstGroup(md: Mode, high: bool, s: Bits, zprev: nat, x: seq<nat>, u0: seq<bool>, y: seq<Symbol>, j: nat)
    requires j < 4 && |x| == 8 && |u0| == 4 && |y| == 8 && |s| == GroupStart(md, high, 4) && zprev < 4
    requires y[2 * j..] == EncodeGroups(md, high, s, zprev, x, u0, j)
    ensures GroupStart(md, high, j) <= GroupStart(md, high, j + 1) <= |s|
    ensures y[2 * j].rot < 4 && y[2 * (j + 1)..] == EncodeGroups(md, high, s, y[2 * j].rot, x, u0, j + 1)
    ensures RingOf(md.q, y[2 * j]) == x[2 * j] && RingOf(md.q, y[2 * j + 1]) == x[2 * j + 1]
    ensures DecodeGroups(md, high, y, zprev, j)
         == s[GroupStart(md, high, j)..GroupStart(md, high, j + 1)] + DecodeGroups(md, high, y, y[2 * j].rot, j + 1)
  {
    hide EncodeGroup, DecodeGroup, RingOf, HasI3, ShellLen;
    StartsIncrease(md, high, j + 1);
    var lo, hi := GroupStart(md, high, j), GroupStart(md, high, j + 1);
    var g := EncodeGroup(md.q, HasI3(md, high, j), s[lo..hi], zprev, x[2 * j], x[2 * j + 1], u0[j]);
    assert y[2 * j] == y[2 * j..][0] == g.a && y[2 * j + 1] == y[2 * j..][1] == g.b;
    assert y[2 * (j + 1)..] == y[2 * j..][2..];
    GroupRoundTrip(md.q, HasI3(md, high, j), s[lo..hi], zprev, x[2 * j], x[2 * j + 1], u0[j]);
  }

  /** The rings of a frame give its shell bits back. */
  lemma ShellRoundTrip(md: Mode, high: bool, s: Bits)
    requires ModeOk(md) && md.k > 0 && ShellLen(md, high) <= |s|
    ensures LsbBits(ShellIndex(md, high, RingsFor(md, high, s)), ShellLen(md, high)) == s[..ShellLen(md, high)]
  {
    var bits := s[..ShellLen(md, high)];
    ShellFits(md, high, bits);
    hide Pow, LsbBits, Value, Index, TupleAt, ShellLen;
    ShellIs(md, high, s);
    IndexBack(md.m, Value(bits), |bits|);
    BitsOfValue(bits);
  }

  lemma ShellIs(md: Mode, high: bool, s: Bits)
    requires ModeOk(md) && md.k > 0 && ShellLen(md, high) <= |s|
    ensures Value(s[..ShellLen(md, high)]) < Pow(md.m, 8)
    ensures RingsFor(md, high, s) == TupleAt(3, md.m, Value(s[..ShellLen(md, high)]))
  {
    hide Pow, Value, TupleAt, ShellLen, ModeOk;
    ShellFits(md, high, s[..ShellLen(md, high)]);
  }

  lemma IndexBack(m: nat, r: nat, n: nat)
    requires m >= 1 && r < Pow(m, 8) && r < Pow(2, n) <= Pow(2, 31)
    ensures ToUInt32(Index(3, m, TupleAt(3, m, r))) % Pow(2, n) == r
  {
    hide Pow, Index, TupleAt;
    assert Len(3) == 8;
    IndexOfTupleAt(3, m, r);
    LowPowers();
    SmallMod(r, Pow(2, n));
  }

  lemma SmallMod(r: nat, d: nat)
    requires r < d
    ensures r % d == r
  {
  }

  lemma LowPowers()
    ensures Pow(2, 31) < TWO32
  {
    SmallPowers();
    hide Pow;
    PowAdd(2, 12, 12);
    PowAdd(2, 24, 7);
  }

  /** A frame's symbols carry the rings it was mapped to, and its group bits. */
  lemma FrameRings(md: Mode, high: bool, s: Bits, zprev: nat, u0: seq<bool>)
    requires ModeOk(md) && |u0| == 4 && |s| == FrameLen(md, high) == GroupStart(md, high, 4) && zprev < 4
    ensures ShellLen(md, high) <= |s|
    ensures var y := EncodeFrame(md, high, s, zprev, u0);
            Rings(md, y) == RingsFor(md, high, s) && DecodeGroups(md, high, y, zprev, 0) == s[ShellLen(md, high)..]
  {
    hide EncodeGroups, DecodeGroups, RingOf, RingsFor;
    StartsIncrease(md, high, 0);
    var y := EncodeFrame(md, high, s, zprev, u0);
    assert y[2 * 0..] == y;
    GroupsRoundTrip(md, high, s, zprev, RingsFor(md, high, s), u0, y, 0);
  }

  /** A mapping frame's bits come back from its symbols whatever U0 was. */
  lemma FrameRoundTrip(md: Mode, high: bool, s: Bits, zprev: nat, u0: seq<bool>)
    requires ModeOk(md) && |u0| == 4 && |s| == FrameLen(md, high) == GroupStart(md, high, 4) && zprev < 4
    ensures DecodeFrame(md, high, EncodeFrame(md, high, s, zprev, u0), zprev) == s
  {
    hide EncodeFrame, DecodeGroups, RingsFor, Rings, ShellIndex, LsbBits;
    FrameRings(md, high, s, zprev, u0);
    assert s == s[..ShellLen(md, high)] + s[ShellLen(md, high)..];
    if md.k > 0 { ShellRoundTrip(md, high, s); }
  }

  // ---------------------------------------------------------------- a stream of mapping frames

  lemma FramePositive(md: Mode)
    requires ModeOk(md)
    ensures md.p >= 1 && 1 <= md.m <= MAX_RINGS && FrameLen(md, true) >= 0 && FrameLen(md, false) >= 0
  {
    hide FrameIsHigh, Pow;
  }

  /** Bits of `n` mapping frames from frame `f` on. */
  function StreamLen(md: Mode, f: nat, n: nat): (r: nat)
    requires ModeOk(md)
    decreases n
  {
    if n == 0 then 0
    else
      hide FrameIsHigh;
      FramePositive(md);
      FrameLen(md, FrameIsHigh(md, f)) + StreamLen(md, f + 1, n - 1)
  }

  lemma StreamSplits(md: Mode, f: nat, n: nat)
    requires ModeOk(md) && n > 0
    ensures md.p >= 1 && 0 <= FrameLen(md, FrameIsHigh(md, f)) <= StreamLen(md, f, n)
    ensures StreamLen(md, f, n) == FrameLen(md, FrameIsHigh(md, f)) + StreamLen(md, f + 1, n - 1)
  {
    hide FrameIsHigh, ModeOk;
    FramePositive(md);
  }

  function EncodeStream(md: Mode, f: nat, s: Bits, zprev: nat, u0: seq<bool>, n: nat): (y: seq<Symbol>)
    requires ModeOk(md) && |u0| == 4 * n && |s| == StreamLen(md, f, n)
    ensures |y| == 8 * n
    decreases n
  {
    if n == 0 then []
    else
      hide FrameIsHigh, EncodeFrame, GroupStart, StreamLen, ModeOk;
      FramePositive(md);
      LayoutBalances(md, f);
      StreamSplits(md, f, n);
      var high := FrameIsHigh(md, f);
      var x := EncodeFrame(md, high, s[..FrameLen(md, high)], zprev, u0[..4]);
      x + EncodeStream(md, f + 1, s[FrameLen(md, high)..], x[6].rot, u0[4..], n - 1)
  }

  function DecodeStream(md: Mode, f: nat, y: seq<Symbol>, zprev: nat, n: nat): Bits
    requires md.p >= 1 && |y| == 8 * n
    decreases n
  {
    if n == 0 then []
    else DecodeFrame(md, FrameIsHigh(md, f), y[..8], zprev) + DecodeStream(md, f + 1, y[8..], y[6].rot, n - 1)
  }

  lemma FirstRotation(md: Mode, high: bool, s: Bits, zprev: nat, u0: seq<bool>)
    requires ModeOk(md) && |u0| == 4 && |s| == FrameLen(md, high) == GroupStart(md, high, 4)
    ensures EncodeFrame(md, high, s, zprev, u0)[6].rot < 4
  {
    hide RingsFor, HasI3, ShellLen;
    StartsIncrease(md, high, 0);
    GroupRotations(md, high, s, zprev, RingsFor(md, high, s), u0, 0);
  }

  lemma {:induction false} GroupRotations(md: Mode, high: bool, s: Bits, zprev: nat, x: seq<nat>, u0: seq<bool>, j: nat)
    requires j <= 4 && |x| == 8 && |u0| == 4 && GroupStart(md, high, 4) <= |s|
    ensures forall i :: 0 <= i < 2 * (4 - j) ==> EncodeGroups(md, high, s, zprev, x, u0, j)[i].rot < 4
    decreases 4 - j
  {
    hide HasI3, ShellLen, EncodeGroup;
    if j < 4 {
      StartsIncrease(md, high, j + 1);
      var g := EncodeGroup(md.q, HasI3(md, high, j), s[GroupStart(md, high, j)..GroupStart(md, high, j + 1)], zprev, x[2 * j], x[2 * j + 1], u0[j]);
      GroupRotations(md, high, s, g.a.rot, x, u0, j + 1);
    }
  }

  /** Extraction undoes encoding for any number of mapping frames and any U0. */
  lemma {:induction false} StreamRoundTrip(md: Mode, f: nat, s: Bits, zprev: nat, u0: seq<bool>, n: nat)
    requires ModeOk(md) && |u0| == 4 * n && |s| == StreamLen(md, f, n) && zprev < 4
    ensures DecodeStream(md, f, EncodeStream(md, f, s, zprev, u0, n), zprev, n) == s
    decreases n
  {
    hide *;
    if n == 0 {
      NoFrames(md, f, s, zprev, u0);
    } else {
      FramePositive(md);
      NextFrame(md, f, s, zprev, u0, n);
      var high := FrameIsHigh(md, f);
      var len := FrameLen(md, high);
      var x := EncodeFrame(md, high, s[..len], zprev, u0[..4]);
      DecodesFrame(md, f, high, s[..len], zprev, u0[..4], EncodeStream(md, f + 1, s[len..], x[6].rot, u0[4..], n - 1), n);
      StreamRoundTrip(md, f + 1, s[len..], x[6].rot, u0[4..], n - 1);
      assert s == s[..len] + s[len..];
    }
  }

  lemma NoFrames(md: Mode, f: nat, s: Bits, zprev: nat, u0: seq<bool>)
    requires ModeOk(md) && |u0| == 0 && |s| == StreamLen(md, f, 0)
    ensures s == [] && DecodeStream(md, f, EncodeStream(md, f, s, zprev, u0, 0), zprev, 0) == []
  {
  }

  /** A stream begins with its first frame. */
  lemma NextFrame(md: Mode, f: nat, s: Bits, zprev: nat, u0: seq<bool>, n: nat)
    requires ModeOk(md) && n > 0 && |u0| == 4 * n && |s| == StreamLen(md, f, n)
    ensures md.p >= 1 && 0 <= FrameLen(md, FrameIsHigh(md, f)) <= |s|
    ensures FrameLen(md, FrameIsHigh(md, f)) == GroupStart(md, FrameIsHigh(md, f), 4)
    ensures |s[FrameLen(md, FrameIsHigh(md, f))..]| == StreamLen(md, f + 1, n - 1)
    ensures var high := FrameIsHigh(md, f); var len := FrameLen(md, high);
            var x := EncodeFrame(md, high, s[..len], zprev, u0[..4]);
            EncodeStream(md, f, s, zprev, u0, n) == x + EncodeStream(md, f + 1, s[len..], x[6].rot, u0[4..], n - 1)
  {
    hide FrameIsHigh, EncodeFrame, GroupStart, StreamLen, ModeOk;
    FramePositive(md);
    LayoutBalances(md, f);
    StreamSplits(md, f, n);
  }

  /** The first frame decoded, whatever frames follow it. */
  lemma DecodesFrame(md: Mode, f: nat, high: bool, s: Bits, zprev: nat, u0: seq<bool>, rest: seq<Symbol>, n: nat)
    requires ModeOk(md) && md.p >= 1 && high == FrameIsHigh(md, f) && zprev < 4 && |u0| == 4
    requires |s| == FrameLen(md, high) == GroupStart(md, high, 4) && n > 0 && |rest| == 8 * (n - 1)
    ensures var x := EncodeFrame(md, high, s, zprev, u0);
            x[6].rot < 4 && DecodeStream(md, f, x + rest, zprev, n) == s + DecodeStream(md, f + 1, rest, x[6].rot, n - 1)
  {
    hide FrameIsHigh, EncodeFrame, DecodeFrame, GroupStart, ModeOk;
    FirstRotation(md, high, s, zprev, u0);
    FrameRoundTrip(md, high, s, zprev, u0);
    var x := EncodeFrame(md, high, s, zprev, u0);
    assert (x + rest)[..8] == x && (x + rest)[8..] == rest && (x + rest)[6] == x[6];
  }

  lemma {:induction false} SamePosition(md: Mode, f: nat, g: nat, y: seq<Symbol>, zprev: nat, n: nat)
    requires md.p >= 1 && |y| == 8 * n && f % md.p == g % md.p
    ensures DecodeStream(md, f, y, zprev, n) == DecodeStream(md, g, y, zprev, n)
    decreases n
  {
    hide DecodeFrame;
    if n > 0 {
      NextPosition(f, g, md.p);
      SamePosition(md, f + 1, g + 1, y[8..], y[6].rot, n - 1);
    }
  }

  lemma NextPosition(f: nat, g: nat, p: nat)
    requires p >= 1 && f % p == g % p
    ensures (f + 1) % p == (g + 1) % p
  {
    var a, b, r := f / p, g / p, f % p;
    assert f == a * p + r && g == b * p + r;
    if r + 1 < p {
      DivModUnique(a, p, r + 1);
      DivModUnique(b, p, r + 1);
    } else {
      assert (a + 1) * p == a * p + p && (b + 1) * p == b * p + p;
      DivModUnique(a + 1, p, 0);
      DivModUnique(b + 1, p, 0);
    }
  }

  /** The data inverse: data scrambled, mapped from any data-frame boundary with any U0,
      extracted from position 0 and descrambled are the data. */
  lemma DataInverse(md: Mode, t: V34Scrambler.Taps, h: V34Scrambler.History, data: Bits, f: nat, zprev: nat, u0: seq<bool>, n: nat)
    requires ModeOk(md) && V34Scrambler.GoodTaps(t) && f % md.p == 0
    requires |u0| == 4 * n && |data| == StreamLen(md, f, n) && zprev < 4
    ensures V34Scrambler.Descramble(t, h,
              DecodeStream(md, 0, EncodeStream(md, f, V34Scrambler.Scramble(t, h, data), zprev, u0, n), zprev, n)) == data
  {
    var line := V34Scrambler.Scramble(t, h, data);
    hide EncodeStream, DecodeStream, StreamLen, V34Scrambler.Scramble, V34Scrambler.Descramble;
    StreamRoundTrip(md, f, line, zprev, u0, n);
    SamePosition(md, f, 0, EncodeStream(md, f, line, zprev, u0, n), zprev, n);
    V34Scrambler.DescrambleInverts(t, h, data);
  }
}
