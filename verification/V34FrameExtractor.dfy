/** The bit extractor of the V.34 receiver (nf_v34.c: v34_page_extract_bits): the bits of a
    run of sliced symbols, each frame's groups first and its shell bits in front of them. */
module V34FrameExtractor {
  import opened Arithmetic
  import opened BitIo
  import opened V34ShellCounting
  import opened V34ShellMapper
  import opened V34Frame

  /** `s` with `x` written over it at `at`. */
  function Splice(s: Bits, at: nat, x: Bits): (r: Bits)
    requires at + |x| <= |s|
    ensures |r| == |s|
  {
    s[..at] + x + s[at + |x|..]
  }

  lemma SpliceAfter(s: Bits, at: nat, x: Bits, y: Bits)
    requires at + |x| + |y| <= |s|
    ensures Splice(Splice(s, at, x), at + |x|, y) == Splice(s, at, x + y)
    ensures Splice(Splice(s, at + |x|, y), at, x) == Splice(s, at, x + y)
  {
  }

  lemma SpliceNothing(s: Bits, at: nat)
    requires at <= |s|
    ensures Splice(s, at, []) == s
  {
  }

  /** The `n` low bits of `v`, lowest first. */
  method PutBits(bits: array<bool>, at: nat, v: nat, n: nat)
    requires at + n <= bits.Length
    modifies bits
    ensures bits[..] == Splice(old(bits[..]), at, LsbBits(v, n))
  {
    hide LsbBits, Pow;
    ghost var was := bits[..];
    for k := 0 to n
      invariant forall i :: 0 <= i < bits.Length ==> bits[i] == if at <= i < at + k then LsbBits(v, n)[i - at] else was[i]
    {
      LsbBitAt(v, n, k);
      bits[at + k] := (v / Pow(2, k)) % 2 == 1;
    }
    assert bits[..] == Splice(was, at, LsbBits(v, n));
  }

  lemma GroupSize(q: nat, has3: bool, a: Symbol, b: Symbol, zprev: nat)
    ensures |DecodeGroup(q, has3, a, b, zprev)| == (if has3 then 3 else 2) + 2 * q
  {
  }

  /** One 4D interval at `gb`. */
  method PutGroupBits(md: Mode, bits: array<bool>, gb: nat, has3: bool, a: Symbol, b: Symbol, zp: nat) returns (next: nat)
    requires gb + GroupLen(md, has3) <= bits.Length
    modifies bits
    ensures next == gb + GroupLen(md, has3) == gb + |DecodeGroup(md.q, has3, a, b, zp)|
    ensures bits[..] == Splice(old(bits[..]), gb, DecodeGroup(md.q, has3, a, b, zp))
  {
    hide LsbBits, Splice, Turned;
    GroupSize(md.q, has3, a, b, zp);
    ghost var was := bits[..];
    var ival := Turned(a.rot, zp);
    var delta := Turned(b.rot, a.rot);
    ghost var head := [delta / 2 == 1, ival % 2 == 1] + (if has3 then [ival / 2 % 2 == 1] else []);
    next := gb;
    bits[next] := delta / 2 == 1;
    bits[next + 1] := ival % 2 == 1;
    next := next + 2;
    if has3 {
      bits[next] := ival / 2 % 2 == 1;
      next := next + 1;
    }
    HeadIs(bits[..], was, gb, head);
    PutBits(bits, next, a.lab, md.q);
    next := next + md.q;
    PutBits(bits, next, b.lab, md.q);
    next := next + md.q;
    SpliceAfter(was, gb, head, LsbBits(a.lab, md.q));
    SpliceAfter(was, gb, head + LsbBits(a.lab, md.q), LsbBits(b.lab, md.q));
  }

  lemma HeadIs(now: Bits, was: Bits, at: nat, head: Bits)
    requires |now| == |was| && at + |head| <= |was|
    requires forall i :: 0 <= i < |was| ==> now[i] == if at <= i < at + |head| then head[i - at] else was[i]
    ensures now == Splice(was, at, head)
  {
  }

  lemma {:induction false} GroupsSize(md: Mode, high: bool, y: seq<Symbol>, zprev: nat, j: nat)
    requires j <= 4 && |y| == 8
    ensures GroupStart(md, high, j) + |DecodeGroups(md, high, y, zprev, j)| == GroupStart(md, high, 4)
    decreases 4 - j
  {
    hide DecodeGroup, HasI3;
    if j < 4 {
      GroupSize(md.q, HasI3(md, high, j), y[2 * j], y[2 * j + 1], zprev);
      GroupsSize(md, high, y, y[2 * j].rot, j + 1);
    }
  }

  lemma FrameSize(md: Mode, high: bool, y: seq<Symbol>, zprev: nat)
    requires |y| == 8
    ensures |DecodeFrame(md, high, y, zprev)| == GroupStart(md, high, 4)
  {
    hide DecodeGroups, ShellIndex;
    GroupsSize(md, high, y, zprev, 0);
  }

  lemma GroupStep(md: Mode, high: bool, y: seq<Symbol>, zp: nat, j: nat)
    requires j < 4 && |y| == 8
    ensures DecodeGroups(md, high, y, zp, j)
         == DecodeGroup(md.q, HasI3(md, high, j), y[2 * j], y[2 * j + 1], zp) + DecodeGroups(md, high, y, y[2 * j].rot, j + 1)
    ensures GroupStart(md, high, j + 1) == GroupStart(md, high, j) + GroupLen(md, HasI3(md, high, j)) <= GroupStart(md, high, 4)
    ensures DecodeGroups(md, high, y, zp, 4) == []
  {
    hide DecodeGroup, HasI3, GroupLen;
    StartsIncrease(md, high, j + 1);
  }

  /** Labels of the mode's alphabet: every ring index is below M. */
  ghost predicate InAlphabet(md: Mode, y: seq<Symbol>) {
    forall i :: 0 <= i < |y| ==> RingOf(md.q, y[i]) < md.m
  }

  /** All groups of a frame at `gb`, and the rings found on the way. */
  method PutGroupsBits(md: Mode, bits: array<bool>, gb0: nat, high: bool, y: seq<Symbol>, zprev: nat) returns (rings: seq<RingPair>, zp: nat)
    requires |y| == 8 && InAlphabet(md, y)
    requires gb0 >= GroupStart(md, high, 0) && gb0 - GroupStart(md, high, 0) + GroupStart(md, high, 4) <= bits.Length
    modifies bits
    ensures |DecodeGroups(md, high, y, zprev, 0)| + gb0 <= bits.Length
    ensures bits[..] == Splice(old(bits[..]), gb0, DecodeGroups(md, high, y, zprev, 0))
    ensures ValidRings(md.m, rings) && Flat(rings) == Rings(md, y) && zp == y[6].rot
  {
    hide DecodeGroup, DecodeGroups, Splice, RingOf, HasI3, GroupLen, GroupStart;
    ghost var was := bits[..];
    ghost var all := DecodeGroups(md, high, y, zprev, 0);
    GroupsSize(md, high, y, zprev, 0);
    var gb := gb0;
    ghost var done: Bits := [];
    rings := [];
    zp := zprev;
    SpliceNothing(was, gb0);
    assert done + all == all;
    for j := 0 to 4
      invariant gb == gb0 + |done| && gb0 - GroupStart(md, high, 0) + GroupStart(md, high, j) == gb
      invariant gb0 + |all| <= bits.Length == |was| && done + DecodeGroups(md, high, y, zp, j) == all
      invariant bits[..] == Splice(was, gb0, done)
      invariant |rings| == j && forall i :: 0 <= i < j ==> rings[i] == (RingOf(md.q, y[2 * i]) as int, RingOf(md.q, y[2 * i + 1]) as int)
      invariant j > 0 ==> zp == y[2 * j - 2].rot
    {
      GroupStep(md, high, y, zp, j);
      ghost var g := DecodeGroup(md.q, HasI3(md, high, j), y[2 * j], y[2 * j + 1], zp);
      gb := PutGroupBits(md, bits, gb, HasI3(md, high, j), y[2 * j], y[2 * j + 1], zp);
      SpliceAfter(was, gb0, done, g);
      Assoc(done, g, DecodeGroups(md, high, y, y[2 * j].rot, j + 1));
      done := done + g;
      zp := y[2 * j].rot;
      rings := rings + [(RingOf(md.q, y[2 * j]), RingOf(md.q, y[2 * j + 1]))];
    }
    GroupStep(md, high, y, zp, 0);
    assert done + [] == done;
  }

  /** The shell index of a frame's rings, as a 32-bit word, exceeds what a frame of its kind
      can carry. */
  predicate BadShell(md: Mode, high: bool, y: seq<Symbol>)
    requires |y| == 8
  {
    md.k > 0 && ToUInt32(Index(3, md.m, Rings(md, y))) >= Pow(2, ShellLen(md, high))
  }

  /** What it is meant to find: rings that no frame of this kind is mapped to. */
  ghost predicate Overfull(md: Mode, high: bool, y: seq<Symbol>)
    requires |y| == 8
  {
    md.k > 0 && Index(3, md.m, Rings(md, y)) >= Pow(2, ShellLen(md, high))
  }

  /** A frame found bad is overfull, and an overfull one is found unless its index wraps. */
  lemma BadIsOverfull(md: Mode, high: bool, y: seq<Symbol>)
    requires |y| == 8
    ensures BadShell(md, high, y) ==> Overfull(md, high, y)
    ensures Index(3, md.m, Rings(md, y)) < TWO32 ==> (BadShell(md, high, y) <==> Overfull(md, high, y))
  {
    hide Index, Rings, Pow, ShellLen;
    Truncation(Index(3, md.m, Rings(md, y)));
  }

  lemma RingsAreTuple(md: Mode, y: seq<Symbol>)
    requires |y| == 8 && InAlphabet(md, y)
    ensures IsTuple(3, md.m, Rings(md, y))
  {
    hide RingOf;
    assert Len(3) == 8;
  }

  /** Symbols in given rings. */
  function Placed(md: Mode, x: seq<nat>): (y: seq<Symbol>)
    ensures |y| == |x|
  {
    seq(|x|, i requires 0 <= i < |x| => Symbol(x[i] * Pow(2, md.q), 0))
  }

  lemma PlacedRings(md: Mode, x: seq<nat>)
    requires |x| == 8 && IsTuple(3, md.m, x)
    ensures InAlphabet(md, Placed(md, x)) && Rings(md, Placed(md, x)) == x
  {
    hide Pow;
    forall i | 0 <= i < 8 ensures RingOf(md.q, Placed(md, x)[i]) == x[i] { DivModUnique(x[i], Pow(2, md.q), 0); }
  }

  /** From seventeen rings on some overfull frame passes for one with index 0. */
  lemma WrappedFrame(md: Mode, high: bool) returns (y: seq<Symbol>)
    requires ModeOk(md) && md.k > 0 && md.m >= 17
    ensures |y| == 8 && InAlphabet(md, y) && Overfull(md, high, y) && !BadShell(md, high, y)
  {
    hide Index, TupleAt, Pow, Rings, InAlphabet, Placed, ComesBack;
    FirstWrapped(md.m);
    var x := TupleAt(3, md.m, TWO32);
    y := Placed(md, x);
    assert Len(3) == 8;
    PlacedRings(md, x);
    PowUp(ShellLen(md, high), 31);
    LowPowers();
    PowPositive(ShellLen(md, high));
  }

  /** The count of bad frames is right for all symbols exactly up to M = 16, or without a
      shell. */
  lemma BadIsExact(md: Mode, high: bool)
    requires ModeOk(md)
    ensures (forall y: seq<Symbol> :: |y| == 8 && InAlphabet(md, y) ==> (BadShell(md, high, y) <==> Overfull(md, high, y)))
            <==> md.k == 0 || md.m <= 16
  {
    hide Index, TupleAt, Pow, Rings, InAlphabet, FrameIsHigh;
    if md.k > 0 && md.m > 16 {
      var y := WrappedFrame(md, high);
    } else {
      forall y: seq<Symbol> | |y| == 8 && InAlphabet(md, y) ensures BadShell(md, high, y) <==> Overfull(md, high, y) {
        if md.k > 0 {
          RingsAreTuple(md, y);
          NoTruncationUpTo16(md.m, Rings(md, y));
          BadIsOverfull(md, high, y);
        }
      }
    }
  }

  /** One operating point that misses a frame: 14400 bit/s at 2743 symbols, expanded shaping. */
  lemma MissedAt14400()
    ensures var md := Mode(17, 0, 30, 42, 12, 0xFFF);
            ModeOk(md) && exists y: seq<Symbol> :: |y| == 8 && InAlphabet(md, y) && Overfull(md, true, y) && !BadShell(md, true, y)
  {
    var md := Mode(17, 0, 30, 42, 12, 0xFFF);
    assert Pow(17, 8) > TWO32;
    hide Index, Pow, Rings, InAlphabet, FrameIsHigh;
    PowUp(30, 31);
    LowPowers();
    assert ModeOk(md);
    var y := WrappedFrame(md, true);
  }

  /** One mapping frame at `fb`. */
  method PutFrameBits(md: Mode, mapper: ShellMapper, bits: array<bool>, fb: nat, high: bool, y: seq<Symbol>, zprev: nat)
    returns (zp: nat, bad: bool)
    requires 1 <= md.m <= MAX_RINGS && mapper.Valid() && |y| == 8 && InAlphabet(md, y)
    requires fb + GroupStart(md, high, 4) <= bits.Length
    modifies bits, mapper, mapper.g2, mapper.g4, mapper.g8, mapper.z8
    ensures mapper.Valid() && zp == y[6].rot && bad == BadShell(md, high, y)
    ensures |DecodeFrame(md, high, y, zprev)| == GroupStart(md, high, 4)
    ensures bits[..] == Splice(old(bits[..]), fb, DecodeFrame(md, high, y, zprev))
  {
    hide DecodeGroups, Splice, RingOf, LsbBits, Pow, Index, Rings, ShellMapper.Valid, InAlphabet;
    FrameSize(md, high, y, zprev);
    GroupsSize(md, high, y, zprev, 0);
    StartsIncrease(md, high, 0);
    ghost var was := bits[..];
    ghost var groups := DecodeGroups(md, high, y, zprev, 0);
    var n := ShellLen(md, high);
    assert GroupStart(md, high, 0) == n;
    var rings;
    rings, zp := PutGroupsBits(md, bits, fb + n, high, y, zprev);
    bad := false;
    if md.k > 0 {
      var r0 := mapper.Unmap(md.m, rings);
      if r0 >= Pow(2, n) {
        bad := true;
        r0 := r0 % Pow(2, n);
      } else {
        SmallMod(r0, Pow(2, n));
      }
      PutBits(bits, fb, r0, n);
      SpliceAfter(was, fb, LsbBits(r0, n), groups);
    } else {
      assert [] + groups == groups;
    }
  }

  /** Frames whose 32-bit shell index had to be clamped. */
  function BadFrames(md: Mode, f: nat, y: seq<Symbol>, n: nat): nat
    requires md.p >= 1 && |y| == 8 * n
    decreases n
  {
    if n == 0 then 0 else (if BadShell(md, FrameIsHigh(md, f), y[..8]) then 1 else 0) + BadFrames(md, f + 1, y[8..], n - 1)
  }

  /** Frames that are overfull. */
  ghost function OverfullFrames(md: Mode, f: nat, y: seq<Symbol>, n: nat): nat
    requires md.p >= 1 && |y| == 8 * n
    decreases n
  {
    if n == 0 then 0 else (if Overfull(md, FrameIsHigh(md, f), y[..8]) then 1 else 0) + OverfullFrames(md, f + 1, y[8..], n - 1)
  }

  /** The count never exceeds the overfull frames, and up to M = 16 it is theirs. */
  lemma {:induction false} BadFramesAreOverfull(md: Mode, f: nat, y: seq<Symbol>, n: nat)
    requires ModeOk(md) && md.p >= 1 && |y| == 8 * n && InAlphabet(md, y)
    ensures BadFrames(md, f, y, n) <= OverfullFrames(md, f, y, n)
    ensures md.k == 0 || md.m <= 16 ==> BadFrames(md, f, y, n) == OverfullFrames(md, f, y, n)
    decreases n
  {
    hide FrameIsHigh, BadShell, Overfull, RingOf, ModeOk;
    if n > 0 {
      var high := FrameIsHigh(md, f);
      BadIsOverfull(md, high, y[..8]);
      BadIsExact(md, high);
      BadFramesAreOverfull(md, f + 1, y[8..], n - 1);
    }
  }

  /** v34_page_extract_bits: all whole mapping frames, from switching position 0 on. */
  method ExtractBits(md: Mode, mapper: ShellMapper, y: seq<Symbol>, zprev: nat, bits: array<bool>) returns (nbits: nat, nBad: nat, zLast: nat)
    requires ModeOk(md) && mapper.Valid() && |y| % 8 == 0 && InAlphabet(md, y)
    requires StreamLen(md, 0, |y| / 8) <= bits.Length
    modifies bits, mapper, mapper.g2, mapper.g4, mapper.g8, mapper.z8
    ensures mapper.Valid() && nbits == StreamLen(md, 0, |y| / 8)
    ensures md.p >= 1 && bits[..nbits] == DecodeStream(md, 0, y, zprev, |y| / 8)
    ensures nBad == BadFrames(md, 0, y, |y| / 8)
    ensures zLast == if |y| == 0 then zprev else y[|y| - 2].rot
  {
    hide DecodeFrame, DecodeStream, Splice, StreamLen, FrameLen, GroupStart, FrameIsHigh, BadShell, BadFrames, ModeOk, ShellMapper.Valid, InAlphabet;
    FramePositive(md);
    var n := |y| / 8;
    ghost var all := DecodeStream(md, 0, y, zprev, n);
    ghost var done: Bits := [];
    nbits, nBad, zLast := 0, 0, zprev;
    StartOfStream(md, y, zprev, n);
    assert y[0..] == y && [] + all == all && bits[..0] == [];
    for f := 0 to n
      invariant mapper.Valid() && nbits + StreamLen(md, f, n - f) == StreamLen(md, 0, n)
      invariant |y[8 * f..]| == 8 * (n - f)
      invariant nbits <= bits.Length && bits[..nbits] + DecodeStream(md, f, y[8 * f..], zLast, n - f) == all
      invariant nBad + BadFrames(md, f, y[8 * f..], n - f) == BadFrames(md, 0, y, n)
      invariant zLast == if f == 0 then zprev else y[8 * f - 2].rot
    {
      StreamSplits(md, f, n - f);
      NextExtracted(md, f, y[8 * f..], zLast, n - f);
      LayoutBalances(md, f);
      var high := FrameIsHigh(md, f);
      var eight := y[8 * f..8 * f + 8];
      assert y[8 * f..][..8] == eight && y[8 * f..][8..] == y[8 * (f + 1)..] && y[8 * f..][6] == eight[6];
      InPart(md, y, 8 * f);
      ghost var was := bits[..];
      ghost var z := zLast;
      var bad;
      zLast, bad := PutFrameBits(md, mapper, bits, nbits, high, eight, zLast);
      SplicePrefix(was, nbits, DecodeFrame(md, high, eight, z));
      Assoc(bits[..nbits], DecodeFrame(md, high, eight, z), DecodeStream(md, f + 1, y[8 * (f + 1)..], zLast, n - f - 1));
      nbits := nbits + FrameLen(md, high);
      if bad { nBad := nBad + 1; }
    }
    StreamEnd(md, n, y[8 * n..], zLast);
    assert bits[..nbits] + [] == bits[..nbits];
  }

  lemma SplicePrefix(s: Bits, at: nat, x: Bits)
    requires at + |x| <= |s|
    ensures Splice(s, at, x)[..at] == s[..at] && Splice(s, at, x)[..at + |x|] == s[..at] + x
  {
  }

  lemma InPart(md: Mode, y: seq<Symbol>, i: nat)
    requires InAlphabet(md, y) && i + 8 <= |y|
    ensures InAlphabet(md, y[i..i + 8])
  {
    hide RingOf;
  }

  lemma StartOfStream(md: Mode, y: seq<Symbol>, zprev: nat, n: nat)
    requires |y| == 8 * n
    ensures y[0..] == y
  {
  }

  lemma StreamEnd(md: Mode, f: nat, y: seq<Symbol>, z: nat)
    requires ModeOk(md) && |y| == 0
    ensures md.p >= 1 && DecodeStream(md, f, y, z, 0) == [] && StreamLen(md, f, 0) == 0 && BadFrames(md, f, y, 0) == 0
  {
    hide FrameIsHigh;
    FramePositive(md);
  }

  lemma NextExtracted(md: Mode, f: nat, y: seq<Symbol>, z: nat, n: nat)
    requires ModeOk(md) && n > 0 && |y| == 8 * n
    ensures md.p >= 1 && |y[8..]| == 8 * (n - 1)
    ensures DecodeStream(md, f, y, z, n) == DecodeFrame(md, FrameIsHigh(md, f), y[..8], z) + DecodeStream(md, f + 1, y[8..], y[6].rot, n - 1)
    ensures BadFrames(md, f, y, n) == (if BadShell(md, FrameIsHigh(md, f), y[..8]) then 1 else 0) + BadFrames(md, f + 1, y[8..], n - 1)
  {
    hide FrameIsHigh, DecodeFrame, BadShell, ModeOk;
    FramePositive(md);
  }

  // ---------------------------------------------------------------- what the coder makes

  /** A coded frame lies in the alphabet and is not bad. */
  lemma CodedFrameIsGood(md: Mode, high: bool, s: Bits, zprev: nat, u0: seq<bool>)
    requires ModeOk(md) && |u0| == 4 && |s| == FrameLen(md, high) == GroupStart(md, high, 4) && zprev < 4
    ensures var y := EncodeFrame(md, high, s, zprev, u0); InAlphabet(md, y) && !BadShell(md, high, y)
  {
    hide Index, TupleAt, RingOf, Pow, EncodeFrame, Value, ShellLen;
    FrameRings(md, high, s, zprev, u0);
    RingsBelow(md, high, s);
    var y := EncodeFrame(md, high, s, zprev, u0);
    forall i | 0 <= i < 8 ensures RingOf(md.q, y[i]) < md.m { assert Rings(md, y)[i] == RingOf(md.q, y[i]); }
  }

  /** The rings mapped from shell bits are below M and unmapped to those bits' number. */
  lemma RingsBelow(md: Mode, high: bool, s: Bits)
    requires ModeOk(md) && ShellLen(md, high) <= |s|
    ensures forall i :: 0 <= i < 8 ==> RingsFor(md, high, s)[i] < md.m
    ensures md.k > 0 ==> ToUInt32(Index(3, md.m, RingsFor(md, high, s))) < Pow(2, ShellLen(md, high))
  {
    hide Index, TupleAt, Pow, Value, ShellLen;
    if md.k > 0 {
      var bits := s[..ShellLen(md, high)];
      ShellFits(md, high, bits);
      ShellIs(md, high, s);
      assert Len(3) == 8;
      IndexOfTupleAt(3, md.m, Value(bits));
      LowPowers();
      Truncation(Value(bits));
    }
  }

  /** A coded stream lies in the alphabet and has no bad frame. */
  lemma {:induction false} CodedStreamIsGood(md: Mode, f: nat, s: Bits, zprev: nat, u0: seq<bool>, n: nat)
    requires ModeOk(md) && |u0| == 4 * n && |s| == StreamLen(md, f, n) && zprev < 4
    ensures md.p >= 1 && InAlphabet(md, EncodeStream(md, f, s, zprev, u0, n))
    ensures BadFrames(md, f, EncodeStream(md, f, s, zprev, u0, n), n) == 0
    decreases n
  {
    hide *;
    FramePositive(md);
    if n == 0 {
      NoneCoded(md, f, s, zprev, u0);
    } else {
      NextFrame(md, f, s, zprev, u0, n);
      var high := FrameIsHigh(md, f);
      var len := FrameLen(md, high);
      var x := EncodeFrame(md, high, s[..len], zprev, u0[..4]);
      CodedFrameIsGood(md, high, s[..len], zprev, u0[..4]);
      FirstRotation(md, high, s[..len], zprev, u0[..4]);
      var rest := EncodeStream(md, f + 1, s[len..], x[6].rot, u0[4..], n - 1);
      CodedStreamIsGood(md, f + 1, s[len..], x[6].rot, u0[4..], n - 1);
      assert (x + rest)[..8] == x && (x + rest)[8..] == rest;
      NextExtracted(md, f, x + rest, zprev, n);
      BothInAlphabet(md, x, rest);
    }
  }

  lemma NoneCoded(md: Mode, f: nat, s: Bits, zprev: nat, u0: seq<bool>)
    requires ModeOk(md) && |u0| == 0 && |s| == StreamLen(md, f, 0)
    ensures md.p >= 1 && InAlphabet(md, EncodeStream(md, f, s, zprev, u0, 0))
    ensures BadFrames(md, f, EncodeStream(md, f, s, zprev, u0, 0), 0) == 0
  {
  }

  lemma BothInAlphabet(md: Mode, x: seq<Symbol>, y: seq<Symbol>)
    requires InAlphabet(md, x) && InAlphabet(md, y)
    ensures InAlphabet(md, x + y)
  {
    hide RingOf;
  }
}
