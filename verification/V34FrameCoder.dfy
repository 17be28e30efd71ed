/** The V.34 frame encoder object and the bit extractor (nf_v34.c: nf_v34_pc_tx_t,
    nf_v34_pc_encode, v34_page_extract_bits), proved against V34Frame. */
module V34FrameCoder {
  import opened Arithmetic
  import opened BitIo
  import opened V34ShellCounting
  import opened V34ShellMapper
  import opened V34Switching
  import opened V34Frame
  import opened V34Scrambler

  lemma NoValue()
    ensures Value([]) == 0
  {
  }

  /** Or-ing the next bit in above a value of the bits before it. */
  lemma BitAbove(b: Bits, x: bool)
    ensures BitOr(Value(b), Shl(if x then 1 else 0, |b|)) == Value(b + [x])
  {
    hide BitOr, Value, Pow;
    ValueBound(b);
    ValueSnoc(b, x);
    OrShifted(Value(b), if x then 1 else 0, |b|);
  }

  lemma LabelIs(b: Bits, ring: nat)
    ensures BitOr(Value(b), Shl(ring, |b|)) == Label(b, ring)
  {
    hide BitOr, Value, Pow;
    ValueBound(b);
    OrShifted(Value(b), ring, |b|);
  }

  lemma SubSlice(s: Bits, a: nat, b: nat, c: nat, d: nat)
    requires a <= b <= |s| && c <= d <= b - a
    ensures s[a..b][c..d] == s[a + c..a + d]
  {
    var x, y := s[a..b][c..d], s[a + c..a + d];
    forall i | 0 <= i < d - c ensures x[i] == y[i] { assert s[a..b][c + i] == s[a + (c + i)]; }
  }

  /** A group read in place. */
  lemma GroupIs(line: Bits, at: nat, q: nat, has3: bool, zprev: nat, ring0: nat, ring1: nat, u0: bool)
    requires at + (if has3 then 3 else 2) + 2 * q <= |line|
    ensures var n := if has3 then 3 else 2; var p := at + n;
            var z := FirstTurn(zprev, line[at + 1], has3 && line[at + 2]);
            EncodeGroup(q, has3, line[at..at + n + 2 * q], zprev, ring0, ring1, u0)
              == Pair(Symbol(Label(line[p..p + q], ring0), z), Symbol(Label(line[p + q..p + q + q], ring1), SecondTurn(z, line[at], u0)))
  {
    hide Label, FirstTurn, SecondTurn;
    var n := if has3 then 3 else 2;
    var s := line[at..at + n + 2 * q];
    SubSlice(line, at, at + n + 2 * q, n, n + q);
    SubSlice(line, at, at + n + 2 * q, n + q, n + q + q);
    assert s[n + q..] == s[n + q..n + q + q];
    assert s[0] == line[at] && s[1] == line[at + 1] && (has3 ==> s[2] == line[at + 2]);
    var z := FirstTurn(zprev, s[1], has3 && s[2]);
    assert EncodeGroup(q, has3, s, zprev, ring0, ring1, u0)
        == Pair(Symbol(Label(s[n..n + q], ring0), z), Symbol(Label(s[n + q..], ring1), SecondTurn(z, s[0], u0)));
  }

  /** The line bit at a position and the history behind it. */
  lemma {:induction false} LineAt(t: Taps, h: History, data: Bits, k: nat)
    requires GoodTaps(t) && k < |data|
    ensures var s := Scramble(t, h, data);
            s[k] == Exor(data[k], Mask(t, After(h, s[..k]))) && After(h, s[..k + 1]) == Push(After(h, s[..k]), s[k])
    decreases k
  {
    var s := Scramble(t, h, data);
    if k == 0 {
      assert s[..0] == [] && s[..1] == [s[0]];
    } else {
      LineAt(t, Push(h, s[0]), data[1..], k - 1);
      var r := Scramble(t, Push(h, s[0]), data[1..]);
      assert s[1..] == r;
      assert s[..k][1..] == r[..k - 1] && s[..k + 1][1..] == r[..k];
    }
  }

  class FrameEncoder {
    const md: Mode
    const scr: Scrambler
    const mapper: ShellMapper
    var mfIdx: nat
    var zprev: nat

    ghost predicate Valid()
      reads this, scr, scr.hist, mapper, mapper.g2, mapper.g4, mapper.g8, mapper.z8
    {
      ModeOk(md) && scr.Valid() && mapper.Valid() && zprev < 4
    }

    /** The scrambler stands behind line bit `bpos` of the data. */
    ghost predicate Reached(h: History, data: Bits, bpos: nat)
      reads scr, scr.hist
    {
      scr.Valid() && bpos <= |data| && scr.Line() == After(h, Scramble(scr.taps, h, data)[..bpos])
    }

    constructor (md: Mode, callModem: bool)
      requires ModeOk(md)
      ensures Valid() && this.md == md && mfIdx == 0 && zprev == 0
      ensures fresh(scr) && fresh(scr.hist) && fresh(mapper) && fresh(mapper.g2) && fresh(mapper.g4) && fresh(mapper.g8) && fresh(mapper.z8)
      ensures scr.taps == TapsOf(callModem) && scr.Line() == seq(DEPTH, _ => false)
    {
      this.md := md;
      scr := new Scrambler(callModem);
      mapper := new ShellMapper();
      mfIdx, zprev := 0, 0;
    }

    method NextBit(data: Bits, bpos: nat, ghost h: History) returns (v: bool)
      requires Reached(h, data, bpos) && bpos < |data|
      modifies scr, scr.hist
      ensures Reached(h, data, bpos + 1) && v == Scramble(scr.taps, h, data)[bpos]
    {
      hide Scrambler.Line, Scramble, After, Push, Mask, Exor;
      LineAt(scr.taps, h, data, bpos);
      v := scr.ScrambleBit(data[bpos]);
    }

    /** `n` scrambled bits as a number, the first lowest. */
    method TakeValue(data: Bits, bpos: nat, n: nat, ghost h: History) returns (v: nat)
      requires Reached(h, data, bpos) && bpos + n <= |data|
      modifies scr, scr.hist
      ensures Reached(h, data, bpos + n)
      ensures v == Value(Scramble(scr.taps, h, data)[bpos..bpos + n])
    {
      hide Reached, Scramble, Value, BitOr, Shl;
      ReachedMeans(h, data, bpos);
      ghost var s := Scramble(scr.taps, h, data);
      v := 0;
      NoValue();
      assert s[bpos..bpos] == [];
      for i := 0 to n
        invariant Reached(h, data, bpos + i) && v == Value(s[bpos..bpos + i])
      {
        var bit := NextBit(data, bpos + i, h);
        BitAbove(s[bpos..bpos + i], s[bpos + i]);
        assert s[bpos..bpos + i + 1] == s[bpos..bpos + i] + [s[bpos + i]];
        v := BitOr(v, Shl(if bit then 1 else 0, i));
      }
    }

    lemma ReachedMeans(h: History, data: Bits, bpos: nat)
      requires Reached(h, data, bpos)
      ensures scr.Valid() && GoodTaps(scr.taps) && bpos <= |data|
    {
    }

    /** One 4D interval: I1, I2, perhaps I3, two times q uncoded bits. */
    method PutGroup(data: Bits, bpos: nat, has3: bool, ring0: nat, ring1: nat, u0: bool, ghost h: History) returns (a: Symbol, b: Symbol)
      requires Reached(h, data, bpos) && bpos + GroupLen(md, has3) <= |data| && zprev < 4
      modifies this`zprev, scr, scr.hist
      ensures Reached(h, data, bpos + GroupLen(md, has3))
      ensures Pair(a, b) == EncodeGroup(md.q, has3, Scramble(scr.taps, h, data)[bpos..bpos + GroupLen(md, has3)], old(zprev), ring0, ring1, u0)
      ensures zprev == a.rot < 4
    {
      hide Reached, Scramble, Value, BitOr, Shl, Label, EncodeGroup, FirstTurn, SecondTurn;
      ReachedMeans(h, data, bpos);
      ghost var line := Scramble(scr.taps, h, data);
      ghost var s := line[bpos..bpos + GroupLen(md, has3)];
      var i1 := NextBit(data, bpos, h);
      var i2 := NextBit(data, bpos + 1, h);
      var i3 := false;
      var n := 2;
      if has3 {
        i3 := NextBit(data, bpos + 2, h);
        n := 3;
      }
      var q0 := TakeValue(data, bpos + n, md.q, h);
      var q1 := TakeValue(data, bpos + n + md.q, md.q, h);
      GroupIs(line, bpos, md.q, has3, zprev, ring0, ring1, u0);
      LabelIs(line[bpos + n..bpos + n + md.q], ring0);
      LabelIs(line[bpos + n + md.q..bpos + n + md.q + md.q], ring1);
      var z := FirstTurn(zprev, i2, i3);
      a := Symbol(BitOr(q0, Shl(ring0, md.q)), z);
      b := Symbol(BitOr(q1, Shl(ring1, md.q)), SecondTurn(z, i1, u0));
      zprev := z;
    }

    /** The ring indices of a frame: mapped from its shell bits, zero without a shell. */
    method TakeRings(data: Bits, bpos: nat, high: bool, ghost h: History) returns (x: seq<nat>)
      requires ModeOk(md) && mapper.Valid() && Reached(h, data, bpos) && bpos + ShellLen(md, high) <= |data|
      modifies scr, scr.hist, mapper, mapper.g2, mapper.g4, mapper.g8, mapper.z8
      ensures mapper.Valid()
      ensures Reached(h, data, bpos + ShellLen(md, high))
      ensures x == RingsFor(md, high, Scramble(scr.taps, h, data)[bpos..])
    {
      hide Reached, Scramble, Value, Pow, TupleAt, ModeOk, ShellMapper.Valid;
      ReachedMeans(h, data, bpos);
      ghost var s := Scramble(scr.taps, h, data)[bpos..];
      RingsMeans(md, high, s);
      if md.k > 0 {
        var r0 := TakeValue(data, bpos, ShellLen(md, high), h);
        assert Scramble(scr.taps, h, data)[bpos..bpos + ShellLen(md, high)] == s[..ShellLen(md, high)];
        var rings := mapper.Map(md.m, r0);
        x := Flat(rings);
      } else {
        x := seq(8, _ => 0);
      }
    }

    /** The four 4D intervals of a frame, given its rings. */
    method PutGroups(data: Bits, bpos: nat, high: bool, x: seq<nat>, u0: seq<bool>, ghost h: History) returns (y: seq<Symbol>)
      requires Reached(h, data, bpos + GroupStart(md, high, 0)) && zprev < 4 && |x| == 8 && |u0| == 4
      requires bpos + GroupStart(md, high, 4) <= |data|
      modifies this`zprev, scr, scr.hist
      ensures Reached(h, data, bpos + GroupStart(md, high, 4)) && zprev < 4
      ensures y == EncodeGroups(md, high, Scramble(scr.taps, h, data)[bpos..bpos + GroupStart(md, high, 4)], old(zprev), x, u0, 0)
      ensures |y| == 8 && zprev == y[6].rot
    {
      hide Reached, Scramble, EncodeGroup, EncodeGroups, GroupStart, HasI3, GroupLen;
      ReachedMeans(h, data, bpos + GroupStart(md, high, 0));
      ghost var s := Scramble(scr.taps, h, data)[bpos..bpos + GroupStart(md, high, 4)];
      ghost var all := EncodeGroups(md, high, s, zprev, x, u0, 0);
      y := [];
      var at := bpos + GroupStart(md, high, 0);
      assert [] + all == all;
      for j := 0 to 4
        invariant zprev < 4 && |y| == 2 * j && at == bpos + GroupStart(md, high, j) && Reached(h, data, at)
        invariant y + EncodeGroups(md, high, s, zprev, x, u0, j) == all
        invariant j > 0 ==> zprev == y[2 * j - 2].rot
      {
        NextGroup(md, high, s, zprev, x, u0, j);
        var has3 := HasI3(md, high, j);
        var a, b := PutGroup(data, at, has3, x[2 * j], x[2 * j + 1], u0[j], h);
        SubSlice(Scramble(scr.taps, h, data), bpos, bpos + GroupStart(md, high, 4), GroupStart(md, high, j), GroupStart(md, high, j + 1));
        Assoc(y, [a, b], EncodeGroups(md, high, s, a.rot, x, u0, j + 1));
        y := y + [a, b];
        at := at + GroupLen(md, has3);
      }
      AllGroups(md, high, s, zprev, x, u0);
      assert y + [] == y;
    }

    /** One mapping frame. */
    method PutFrame(data: Bits, bpos: nat, u0: seq<bool>, ghost h: History) returns (y: seq<Symbol>)
      requires Valid() && Reached(h, data, bpos) && |u0| == 4 && bpos + FrameLen(md, FrameIsHigh(md, mfIdx)) <= |data|
      modifies this`mfIdx, this`zprev, scr, scr.hist, mapper, mapper.g2, mapper.g4, mapper.g8, mapper.z8
      ensures Valid()
      ensures var high := FrameIsHigh(md, old(mfIdx)); var len := FrameLen(md, high);
              && len == GroupStart(md, high, 4) && Reached(h, data, bpos + len)
              && y == EncodeFrame(md, high, Scramble(scr.taps, h, data)[bpos..bpos + len], old(zprev), u0)
              && zprev == y[6].rot
      ensures mfIdx == old(mfIdx) + 1
    {
      hide Reached, Scramble, EncodeGroups, RingsFor, GroupStart, ShellLen, ModeOk, Bit, ShellMapper.Valid;
      FramePositive(md);
      LayoutBalances(md, mfIdx);
      ReachedMeans(h, data, bpos);
      var high := FrameIsHigh(md, mfIdx);
      StartsFrom(md, high);
      ghost var line := Scramble(scr.taps, h, data);
      SameRings(md, high, line[bpos..], line[bpos..bpos + GroupStart(md, high, 4)]);
      var x := TakeRings(data, bpos, high, h);
      mfIdx := mfIdx + 1;
      y := PutGroups(data, bpos, high, x, u0, h);
    }

    /** nf_v34_pc_encode: `nframes` mapping frames; the number of bits they took. */
    method Encode(data: Bits, nframes: nat, u0: seq<bool>) returns (y: seq<Symbol>, bpos: nat)
      requires Valid() && |u0| == 4 * nframes && |data| == StreamLen(md, mfIdx, nframes)
      modifies this`mfIdx, this`zprev, scr, scr.hist, mapper, mapper.g2, mapper.g4, mapper.g8, mapper.z8
      ensures Valid() && mfIdx == old(mfIdx) + nframes && bpos == |data|
      ensures y == EncodeStream(md, old(mfIdx), Scramble(scr.taps, old(scr.Line()), data), old(zprev), u0, nframes)
      ensures scr.Line() == After(old(scr.Line()), Scramble(scr.taps, old(scr.Line()), data))
    {
      hide Scramble, EncodeStream, EncodeFrame, StreamLen, FrameLen, GroupStart, ModeOk, FrameIsHigh, ShellMapper.Valid, After, Scrambler.Line;
      ghost var h := scr.Line();
      ghost var line := Scramble(scr.taps, h, data);
      ghost var f0 := mfIdx;
      ghost var all := EncodeStream(md, f0, line, zprev, u0, nframes);
      y, bpos := [], 0;
      NoLine(h);
      assert line[..0] == [] && line[0..] == line && u0[0..] == u0 && [] + all == all;
      for f := 0 to nframes
        invariant Valid() && mfIdx == f0 + f && bpos <= |data| && Reached(h, data, bpos)
        invariant |line[bpos..]| == StreamLen(md, mfIdx, nframes - f) && |u0[4 * f..]| == 4 * (nframes - f)
        invariant y + EncodeStream(md, mfIdx, line[bpos..], zprev, u0[4 * f..], nframes - f) == all
      {
        StreamSplits(md, mfIdx, nframes - f);
        NextFrame(md, mfIdx, line[bpos..], zprev, u0[4 * f..], nframes - f);
        ghost var len := FrameLen(md, FrameIsHigh(md, mfIdx));
        assert line[bpos..][..len] == line[bpos..bpos + len] && line[bpos..][len..] == line[bpos + len..];
        assert u0[4 * f..][..4] == u0[4 * f..4 * f + 4] && u0[4 * f..][4..] == u0[4 * (f + 1)..];
        var high := FrameIsHigh(md, mfIdx);
        var x := PutFrame(data, bpos, u0[4 * f..4 * f + 4], h);
        Assoc(y, x, EncodeStream(md, mfIdx, line[bpos + len..], zprev, u0[4 * (f + 1)..], nframes - f - 1));
        y := y + x;
        bpos := bpos + FrameLen(md, high);
      }
      StreamDone(md, mfIdx, line[bpos..], zprev, u0[4 * nframes..]);
      assert y + [] == y && line[..bpos] == line;
    }
  }

  lemma NoLine(h: History)
    ensures After(h, []) == h
  {
  }

  lemma StreamDone(md: Mode, f: nat, s: Bits, zprev: nat, u0: seq<bool>)
    requires ModeOk(md) && |u0| == 0 && |s| == StreamLen(md, f, 0)
    ensures s == [] && EncodeStream(md, f, s, zprev, u0, 0) == []
  {
  }

  lemma AllGroups(md: Mode, high: bool, s: Bits, zprev: nat, x: seq<nat>, u0: seq<bool>)
    requires |x| == 8 && |u0| == 4 && GroupStart(md, high, 4) <= |s|
    ensures EncodeGroups(md, high, s, zprev, x, u0, 4) == []
  {
  }

  lemma NextGroup(md: Mode, high: bool, s: Bits, zprev: nat, x: seq<nat>, u0: seq<bool>, j: nat)
    requires j < 4 && |x| == 8 && |u0| == 4 && |s| == GroupStart(md, high, 4)
    ensures GroupStart(md, high, j + 1) == GroupStart(md, high, j) + GroupLen(md, HasI3(md, high, j)) <= |s|
    ensures GroupLen(md, HasI3(md, high, j)) == (if HasI3(md, high, j) then 3 else 2) + 2 * md.q
    ensures var g := EncodeGroup(md.q, HasI3(md, high, j), s[GroupStart(md, high, j)..GroupStart(md, high, j + 1)], zprev, x[2 * j], x[2 * j + 1], u0[j]);
            EncodeGroups(md, high, s, zprev, x, u0, j) == [g.a, g.b] + EncodeGroups(md, high, s, g.a.rot, x, u0, j + 1)
  {
    hide EncodeGroup, HasI3;
    StartsIncrease(md, high, j + 1);
  }

  lemma RingsMeans(md: Mode, high: bool, s: Bits)
    requires ModeOk(md) && ShellLen(md, high) <= |s|
    ensures 1 <= md.m <= MAX_RINGS
    ensures md.k > 0 ==> Value(s[..ShellLen(md, high)]) < Pow(md.m, 8)
                         && RingsFor(md, high, s) == TupleAt(3, md.m, Value(s[..ShellLen(md, high)]))
    ensures md.k == 0 ==> ShellLen(md, high) == 0 && RingsFor(md, high, s) == seq(8, _ => 0)
  {
    if md.k > 0 { ShellFits(md, high, s[..ShellLen(md, high)]); }
    hide TupleAt, Value;
  }

  lemma SameRings(md: Mode, high: bool, s: Bits, t: Bits)
    requires ModeOk(md) && ShellLen(md, high) <= |t| && t <= s
    ensures RingsFor(md, high, s) == RingsFor(md, high, t)
  {
    hide Value, TupleAt, ModeOk;
    assert s[..ShellLen(md, high)] == t[..ShellLen(md, high)];
  }

  lemma StartsFrom(md: Mode, high: bool)
    ensures GroupStart(md, high, 0) == ShellLen(md, high) <= GroupStart(md, high, 4)
  {
    StartsIncrease(md, high, 0);
  }
}
