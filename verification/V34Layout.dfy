/** Where each bit of a V.34 mapping frame goes (ITU-T V.34, clause 9.3; nf_v34.c:
    v34_page_tx_frame), in positions of the frame rather than group by group. */
module V34Layout {
  import opened BitIo
  import opened Arithmetic
  import opened V34ShellCounting
  import opened V34Frame

  /** First bit of group `j`: behind the shell bits, three and 2q bits a group; without a shell
      two a group, and a third in as many groups as the frame has bits above eight. */
  function FirstBit(md: Mode, high: bool, j: nat): int {
    if md.k > 0 then (if high then md.k else md.k - 1) + j * (3 + 2 * md.q)
    else
      var extra := md.b - (if high then 0 else 1) - 8;
      2 * j + if j <= extra then j else extra
  }

  lemma {:induction false} StartIs(md: Mode, high: bool, j: nat)
    requires j <= 4 && (md.k == 0 ==> md.q == 0 && md.b - (if high then 0 else 1) >= 8)
    ensures GroupStart(md, high, j) == FirstBit(md, high, j)
    decreases j
  {
    if j > 0 {
      StartIs(md, high, j - 1);
      if md.k > 0 { assert (j - 1) * (3 + 2 * md.q) + (3 + 2 * md.q) == j * (3 + 2 * md.q); }
    }
  }

  /** A group with the rotation it starts from and the bits it takes. */
  ghost predicate GroupSent(md: Mode, s: Bits, from: nat, has3: bool, zprev: nat, ring0: nat, ring1: nat, u0: bool, a: Symbol, b: Symbol) {
    var n := if has3 then 3 else 2;
    && from + n + 2 * md.q <= |s|
    && a.rot == (zprev + B(s[from + 1]) + (if has3 then 2 * B(s[from + 2]) else 0)) % 4
    && b.rot == (a.rot + 2 * B(s[from]) + B(u0)) % 4
    && a.lab == Value(s[from + n..from + n + md.q]) + ring0 * Pow(2, md.q)
    && b.lab == Value(s[from + n + md.q..from + n + 2 * md.q]) + ring1 * Pow(2, md.q)
  }

  lemma {:induction false} AtLeastTwoEach(md: Mode, high: bool, j: nat)
    requires j <= 4
    ensures GroupStart(md, high, j) >= 2 * j
    decreases j
  {
    if j > 0 { AtLeastTwoEach(md, high, j - 1); }
  }

  lemma Inner(s: Bits, from: nat, end: nat, i: nat, j: nat)
    requires from <= end <= |s| && i <= j <= end - from
    ensures s[from..end][i..j] == s[from + i..from + j]
  {
    var a, b := s[from..end][i..j], s[from + i..from + j];
    forall k | 0 <= k < j - i ensures a[k] == b[k] {
      assert a[k] == s[from..end][i + k] == s[from + (i + k)];
    }
  }

  lemma OneGroup(md: Mode, s: Bits, from: nat, has3: bool, zprev: nat, ring0: nat, ring1: nat, u0: bool)
    requires zprev < 4 && from + (if has3 then 3 else 2) + 2 * md.q <= |s|
    ensures var n := if has3 then 3 else 2; var g := EncodeGroup(md.q, has3, s[from..from + n + 2 * md.q], zprev, ring0, ring1, u0);
            GroupSent(md, s, from, has3, zprev, ring0, ring1, u0, g.a, g.b)
  {
    hide Value, Pow;
    var n := if has3 then 3 else 2;
    var end := from + n + 2 * md.q;
    var t := s[from..end];
    Inner(s, from, end, n, n + md.q);
    Inner(s, from, end, n + md.q, end - from);
    assert t[n + md.q..] == t[n + md.q..end - from];
    assert t[0] == s[from] && t[1] == s[from + 1] && (has3 ==> t[2] == s[from + 2]);
  }

  lemma GroupIs(md: Mode, high: bool, s: Bits, zprev: nat, x: seq<nat>, u0: seq<bool>, j: nat)
    requires j < 4 && |x| == 8 && |u0| == 4 && |s| == GroupStart(md, high, 4) && zprev < 4
    ensures var y := EncodeGroups(md, high, s, zprev, x, u0, j);
            && y[0].rot < 4 && y[2..] == EncodeGroups(md, high, s, y[0].rot, x, u0, j + 1)
            && GroupSent(md, s, GroupStart(md, high, j), HasI3(md, high, j), zprev, x[2 * j], x[2 * j + 1], u0[j], y[0], y[1])
  {
    hide GroupSent, EncodeGroup, HasI3, ShellLen;
    StartsIncrease(md, high, j + 1);
    OneGroup(md, s, GroupStart(md, high, j), HasI3(md, high, j), zprev, x[2 * j], x[2 * j + 1], u0[j]);
  }

  lemma {:induction false} GroupAt(md: Mode, high: bool, s: Bits, zprev: nat, x: seq<nat>, u0: seq<bool>, j: nat, i: nat)
    requires i <= j < 4 && |x| == 8 && |u0| == 4 && |s| == GroupStart(md, high, 4) && zprev < 4
    ensures var y := EncodeGroups(md, high, s, zprev, x, u0, i);
            GroupSent(md, s, GroupStart(md, high, j), HasI3(md, high, j), if j == i then zprev else y[2 * (j - i) - 2].rot,
                      x[2 * j], x[2 * j + 1], u0[j], y[2 * (j - i)], y[2 * (j - i) + 1])
    decreases j - i
  {
    hide EncodeGroups, GroupSent, GroupStart, HasI3;
    var y := EncodeGroups(md, high, s, zprev, x, u0, i);
    GroupIs(md, high, s, zprev, x, u0, i);
    if i < j {
      GroupAt(md, high, s, y[0].rot, x, u0, j, i + 1);
      forall k | 0 <= k < |y| - 2 ensures y[2..][k] == y[k + 2] {}
    }
  }

  /** The ring of symbol `i` of a frame whose first bits are the shell index, lowest first. */
  ghost predicate Ringed(md: Mode, high: bool, s: Bits, i: nat, ring: nat)
    requires i < 8
  {
    if md.k == 0 then ring == 0
    else
      var n := if high then md.k else md.k - 1;
      n <= |s| && md.m >= 1 && Value(s[..n]) < Pow(md.m, 8) && ring == TupleAt(3, md.m, Value(s[..n]))[i]
  }

  lemma RingIs(md: Mode, high: bool, s: Bits, i: nat)
    requires ModeOk(md) && ShellLen(md, high) <= |s| && i < 8
    ensures Ringed(md, high, s, i, RingsFor(md, high, s)[i])
  {
    hide Pow, Value, TupleAt, FrameIsHigh;
    if md.k > 0 { ShellIs(md, high, s); }
  }

  /** Every bit of a mapping frame has its place: the shell index first, then four times I1, I2,
      I3 and the uncoded bits of two symbols.  I2 and I3 turn a symbol on from the one an
      interval before, I1 and U0 turn the second symbol against the first, and the uncoded
      bits, lowest first, stand below the ring in the label. */
  lemma WhereBitsGo(md: Mode, high: bool, s: Bits, zprev: nat, u0: seq<bool>, j: nat) returns (ring0: nat, ring1: nat)
    requires ModeOk(md) && |u0| == 4 && |s| == FrameLen(md, high) == GroupStart(md, high, 4) && zprev < 4 && j < 4
    ensures var y := EncodeFrame(md, high, s, zprev, u0);
            && 0 <= FirstBit(md, high, j)
            && GroupSent(md, s, FirstBit(md, high, j), md.k > 0 || j < FrameLen(md, high) - 8, if j == 0 then zprev else y[2 * j - 2].rot,
                         ring0, ring1, u0[j], y[2 * j], y[2 * j + 1])
            && Ringed(md, high, s, 2 * j, ring0) && Ringed(md, high, s, 2 * j + 1, ring1)
  {
    hide EncodeGroups, GroupSent, RingsFor, FrameIsHigh, Ringed;
    StartsIncrease(md, high, 0);
    AtLeastTwoEach(md, high, 4);
    StartIs(md, high, j);
    var x := RingsFor(md, high, s);
    ring0, ring1 := x[2 * j], x[2 * j + 1];
    GroupAt(md, high, s, zprev, x, u0, j, 0);
    RingIs(md, high, s, 2 * j);
    RingIs(md, high, s, 2 * j + 1);
  }
}
