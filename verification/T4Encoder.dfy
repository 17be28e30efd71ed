/** The T.4/T.6 encoder object (nf_t4.c: struct nf_t4_enc): a bit accumulator over a growing
    byte buffer, changing-element lists swapped line by line, and a reference cursor that is
    moved incrementally.  Each method is proved to put out exactly the bits T4Rows and T4Page
    prescribe. */
module T4Encoder {
  import opened Arithmetic
  import opened BitIo
  import opened T4Codes
  import opened T4Runs
  import opened T4Rows
  import opened T4Page
  import opened T4Pixels

  // ---------------------------------------------------------------- small facts

  lemma AccumulatorFits(acc: nat, bits: nat, n: nat, length: nat)
    requires acc < Pow(2, n) && bits < Pow(2, length)
    ensures acc + bits * Pow(2, n) < Pow(2, n + length)
  {
    PowAdd(2, n, length);
    MulStep(bits, Pow(2, length), Pow(2, n));
  }

  /** Bits or-ed in above the pending ones follow them. */
  lemma Appended(bytes: seq<Byte>, acc: nat, n: nat, bits: nat, length: nat)
    requires acc < Pow(2, n)
    ensures BytesBits(bytes) + LsbBits(BitOr(acc, Shl(bits, n)), n + length)
         == BytesBits(bytes) + LsbBits(acc, n) + LsbBits(bits, length)
    ensures bits < Pow(2, length) ==> BitOr(acc, Shl(bits, n)) < Pow(2, n + length)
  {
    ShlIs(bits, n);
    hide *;
    OrShifted(acc, bits, n);
    LsbBitsShifted(acc, bits, n, length);
    Assoc(BytesBits(bytes), LsbBits(acc, n), LsbBits(bits, length));
    if bits < Pow(2, length) { AccumulatorFits(acc, bits, n, length); }
  }

  /** Moving the low byte to the buffer leaves the stream as it was. */
  lemma ByteShiftsOut(bytes: seq<Byte>, acc: nat, n: nat)
    requires n >= 8
    ensures BytesBits(bytes + [acc % 256]) + LsbBits(acc / 256, n - 8) == BytesBits(bytes) + LsbBits(acc, n)
    ensures acc < Pow(2, n) ==> acc / 256 < Pow(2, n - 8)
  {
    SmallPowers();
    LowByte(acc % 256);
    hide *;
    LsbBitsSplit(acc, 8, n - 8);
    PowAdd(2, 8, n - 8);
    BytesBitsSnoc(bytes, acc % 256);
    Assoc(BytesBits(bytes), LsbBits(acc % 256, 8), LsbBits(acc / 256, n - 8));
  }

  lemma LowByte(b: Byte)
    ensures ByteBits(b) == LsbBits(b, 8)
  {
  }

  lemma NextChangeWithin(row: Row, a: nat, m: nat, color: bool)
    requires a <= |row| && a <= m <= NextChange(row, a, color)
    ensures m <= |row| && NextChange(row, m, color) == NextChange(row, a, color)
  {
    hide NextChange;
  }

  /** A line's code is the code of its runs in the order of its changing elements. */
  lemma RunAfter(row: Row, l: seq<nat>, i: nat)
    requires IsRuns(l, row) && 1 <= i < |l|
    ensures l[i - 1] <= l[i] <= |row|
    ensures Enc1D(row, l[i - 1], i % 2 == 1) == Run(i % 2 == 1, l[i] - l[i - 1]) + Enc1D(row, l[i], i % 2 == 0)
  {
    hide *;
    ChangeAfter(row, l, i);
    RunFirst1D(row, l[i - 1], i % 2 == 1);
  }

  lemma ChangeAfter(row: Row, l: seq<nat>, i: nat)
    requires IsRuns(l, row) && 1 <= i < |l|
    ensures l[i - 1] < |row| && row[l[i - 1]] == (i % 2 == 1)
    ensures l[i] == NextChange(row, l[i - 1], i % 2 == 1)
  {
    hide NextChange;
    assert l[(i - 1) + 1] == NextChange(row, l[i - 1], (i - 1) % 2 == 0);
  }

  lemma StepOf2D(ref: seq<nat>, row: Row, a0: int, color: bool)
    requires Increasing(ref) && Position(row, a0, color)
    ensures var t := EncodeStep(ref, row, a0, color);
            && a0 < t.a0 <= |row|
            && (t.a0 < |row| ==> Position(row, t.a0, t.color))
            && Enc2D(ref, row, a0, color) == t.bits + Enc2D(ref, row, t.a0, t.color)
            && Enc2D(ref, row, |row|, t.color) == []
  {
    StepAdvances(ref, row, a0, color);
    hide EncodeStep;
  }

  lemma RunFirst(row: Row, l: seq<nat>)
    requires |row| >= 1 && IsRuns(l, row)
    ensures |l| >= 1 && l[0] <= |row|
    ensures Enc1D(row, 0, false) == Run(false, l[0]) + Enc1D(row, l[0], true)
  {
    RunFirst1D(row, 0, false);
    hide Run, Enc1D;
  }

  lemma LineEnds(row: Row, l: seq<nat>)
    requires IsRuns(l, row)
    ensures l[|l| - 1] == |row| && Enc1D(row, |row|, |l| % 2 == 1) == []
  {
  }

  /** What makes an index the first one right of `a0` that starts the opposite colour. */
  lemma FirstBIs(ref: seq<nat>, a0: int, color: bool, k: nat)
    requires Increasing(ref) && k <= |ref|
    requires k < |ref| ==> ref[k] > a0 && (k % 2 == 0) == !color
    requires forall j :: 0 <= j < k && (j % 2 == 0) == !color ==> ref[j] <= a0
    ensures FirstB(ref, a0, color, 0) == k
  {
    hide FirstB, Increasing;
  }

  /** `cursor` reads b1 and b2 for position `a0` out of a padded list. */
  ghost predicate OnB1(list: seq<nat>, steps: nat, w: nat, a0: int, black: bool, cursor: nat)
    requires 1 <= steps && |list| == steps + 3 && cursor <= steps + 1
  {
    var i := FirstB(list[..steps], a0, black, 0);
    && list[cursor] == Ref(list[..steps], w, i)
    && list[cursor + 1] == Ref(list[..steps], w, i + 1)
  }

  /** A cursor of the right parity between an element at or left of `a0` and one right of
      it is on b1; one beyond the list reads the padding, where b1 and b2 are the width. */
  lemma CursorFound(list: seq<nat>, steps: nat, w: nat, a0: nat, black: bool, c: nat)
    requires 1 <= steps && |list| == steps + 3 && Increasing(list[..steps])
    requires a0 < w == list[steps - 1] == list[steps] == list[steps + 1]
    requires c <= steps + 1 && c % 2 == (if black then 1 else 0)
    requires c < steps ==> a0 < list[c]
    requires c >= 2 ==> list[c - 2] <= a0
    ensures c <= steps ==> OnB1(list, steps, w, a0, black, c)
    ensures c >= steps ==> OnB1(list, steps, w, a0, black, steps - 1)
  {
    hide FirstB;
    var ref := list[..steps];
    forall j | 0 <= j < c && j < steps && (j % 2 == 0) == !black
      ensures ref[j] <= a0
    {
      assert j == c - 2 || ref[j] < ref[c - 2];
    }
    FirstBIs(ref, a0, black, if c < steps then c else steps);
  }

  /** `cursor` is on a1 in the current line's changing elements. */
  ghost predicate OnA1(l: seq<nat>, px: Row, a0: nat, color: bool, cursor: nat) {
    cursor < |l| && a0 <= |px| && color == (cursor % 2 == 1) && l[cursor] == NextChange(px, a0, color)
  }

  /** Past a1 the next cursor is on the change after it; at the end the padding is. */
  lemma NextCursor(l: seq<nat>, px: Row, a0: nat, color: bool, cursor: nat)
    requires IsRuns(l, px) && OnA1(l, px, a0, color, cursor)
    ensures cursor < |l| && a0 <= |px| && l[cursor] == NextChange(px, a0, color)
    ensures l[cursor] < |px| ==> cursor + 1 < |l| && OnA1(l, px, l[cursor], !color, cursor + 1)
    ensures l[cursor] < |px| ==> l[cursor + 1] == NextChange(px, l[cursor], !color)
    ensures l[cursor] == |px| ==> cursor + 1 == |l| && NextChange(px, |px|, !color) == |px|
  {
    RunsIncrease(l, px);
    hide NextChange;
    assert cursor < |l| - 1 ==> l[cursor + 1] == NextChange(px, l[cursor], cursor % 2 == 0);
  }

  /** Short of a1 the cursor stays on it. */
  lemma SameCursor(l: seq<nat>, px: Row, a0: nat, m: nat, color: bool, cursor: nat)
    requires OnA1(l, px, a0, color, cursor) && a0 <= m <= l[cursor]
    ensures OnA1(l, px, m, color, cursor)
  {
    hide NextChange;
    NextChangeWithin(px, a0, m, color);
  }

  /** The colour test of horizontal mode: the position's own colour. */
  lemma FirstPixel(row: Row, g0: int, color: bool)
    requires |row| >= 1 && Position(row, g0, color)
    ensures Start(g0) < |row|
    ensures color == !(Start(g0) + NextChange(row, Start(g0), color) == 0 || !row[Start(g0)])
  {
  }

  /** Before the line both cursors stand on their first elements. */
  lemma LineStarts(l: seq<nat>, px: Row, list: seq<nat>, steps: nat)
    requires |px| >= 1 && IsRuns(l, px)
    requires 1 <= steps && |list| == steps + 3 && Increasing(list[..steps]) && list[steps - 1] == list[steps] == |px|
    ensures Position(px, -1, false) && OnA1(l, px, 0, false, 0) && OnB1(list, steps, |px|, -1, false, 0)
  {
    hide FirstB;
    FirstBIs(list[..steps], -1, false, 0);
  }

  lemma ReadsB(list: seq<nat>, steps: nat, w: nat, a0: int, black: bool, cursor: nat)
    requires 1 <= steps && |list| == steps + 3 && cursor <= steps && OnB1(list, steps, w, a0, black, cursor)
    ensures var i := FirstB(list[..steps], a0, black, 0);
            list[cursor] == Ref(list[..steps], w, i) && list[cursor + 1] == Ref(list[..steps], w, i + 1)
  {
    hide FirstB, Ref;
  }

  lemma PositionColour(row: seq<Byte>, w: nat, a0: nat, color: bool)
    requires |row| == Stride(w) && a0 < w && Position(Pixels(row, w), a0, color)
    ensures a0 / 8 < |row| && PxBlack(row, a0) == color
  {
    hide PxBlack;
  }

  /** The step taken, case by case. */
  lemma StepCases(ref: seq<nat>, row: Row, g0: int, color: bool, a0: nat, a1: nat, b1: nat, b2: nat)
    requires |row| >= 1 && Increasing(ref) && Position(row, g0, color) && a0 == Start(g0) <= |row|
    requires a1 == NextChange(row, a0, color)
    requires var i := FirstB(ref, g0, color, 0); b1 == Ref(ref, |row|, i) && b2 == Ref(ref, |row|, i + 1)
    ensures a0 < |row| && a0 <= a1 <= |row| && (b2 < a1 ==> a0 <= b2)
    ensures var t := EncodeStep(ref, row, g0, color); var d: int := a1 - b1;
            && (b2 < a1 ==> t == Step(ModeBits(Pass), b2, color))
            && (b2 >= a1 && -3 <= d <= 3 ==> t == Step(ModeBits(Vertical(d)), a1, !color))
            && (b2 >= a1 && !(-3 <= d <= 3) ==>
                  var a2 := NextChange(row, a1, !color);
                  t == Step(ModeBits(Horizontal) + (Run(color, a1 - a0) + Run(!color, a2 - a1)), a2, color))
  {
    hide Run, ModeBits, NextChange, FirstB;
    StepAdvances(ref, row, g0, color);
  }

  ghost function Ones(n: nat): (b: Bits)
    ensures |b| == n
  {
    seq(n, _ => true)
  }

  lemma SevenOnes()
    ensures LsbBits(0xFF, 7) == Ones(7) && 0xFF < Pow(2, 24)
  {
    SmallPowers();
    SmallBits(8, 24);
    hide Pow;
    var a, b, c, d := LsbBits(0xF, 4), LsbBits(0x1F, 5), LsbBits(0x3F, 6), LsbBits(0x7F, 7);
  }

  /** RTC and EOFB are EOLs only, the first of them filled. */
  lemma EndSpelled(scheme: Scheme, minRowBits: int, is2d: bool, rowBits: nat)
    requires scheme.Mr? ==> !is2d
    ensures EndBits(scheme, minRowBits, rowBits)
         == FilledEol(scheme, minRowBits, is2d, rowBits) + Eols(scheme, if scheme.Mmr? then 1 else 5)
  {
    hide LsbBits;
    if scheme.Mmr? {
      assert Eols(scheme, 0) == [];
      assert Eols(scheme, 1) == Eol(scheme, false) + [];
      Assoc(Zeros(FillLength(minRowBits, rowBits)), Eol(scheme, is2d), Eol(scheme, is2d));
    }
  }

  lemma NextEol(scheme: Scheme, minRowBits: int, is2d: bool, n: nat)
    requires n > 0 && (scheme.Mr? ==> !is2d)
    ensures FilledEol(scheme, minRowBits, is2d, 0) == Eol(scheme, is2d)
    ensures Eols(scheme, n) == Eol(scheme, is2d) + Eols(scheme, n - 1)
  {
    hide LsbBits;
    assert Zeros(0) == [];
  }

  lemma NoEols(scheme: Scheme, s: Bits)
    ensures s + Eols(scheme, 0) == s
  {
  }

  /** What one line contributes and leaves, case by case. */
  lemma RowCases(scheme: Scheme, k: int, minRowBits: int, c: Coder, row: Row)
    requires Increasing(c.ref) && |row| >= 1
    ensures var max := if k > 0 then k else 2;
            var eol := FilledEol(scheme, minRowBits, c.is2d, c.rowBits);
            var d1, d2, ref := Enc1D(row, 0, false), Enc2D(c.ref, row, -1, false), Runs(row, 0, false);
            var bits, next := RowBits(scheme, minRowBits, c, row), NextCoder(scheme, k, c, row);
            match scheme
            case Mmr => bits == d2 && next == Coder(c.is2d, c.toNext1d, ref, |d2|)
            case Mh => bits == eol + d1 && next == Coder(c.is2d, c.toNext1d, ref, |d1|)
            case Mr =>
              if c.is2d then
                bits == eol + d2
                && next == if c.toNext1d <= 1 then Coder(false, max - 1, ref, |d2|) else Coder(true, c.toNext1d - 1, ref, |d2|)
              else
                bits == eol + d1
                && next == if c.toNext1d <= 0 then Coder(false, max - 1, ref, |d1|) else Coder(true, c.toNext1d, ref, |d1|)
  {
    hide Enc1D, Enc2D, FilledEol, Runs;
  }

  lemma NoZeros(s: Bits)
    ensures s + Zeros(0) == s
  {
    assert Zeros(0) == [];
  }

  lemma ZerosMore(m: nat, n: nat)
    ensures Zeros(m + n) == Zeros(m) + LsbBits(0, n)
  {
    LsbBitsZero(n);
    hide LsbBits;
  }

  lemma SmallBits(n: nat, m: nat)
    requires n <= m
    ensures 0 < Pow(2, n) <= Pow(2, m)
  {
    PowUp(n, m);
  }

  lemma EolFits(scheme: Scheme, is2d: bool)
    ensures EolCode(scheme, is2d) < Pow(2, EolLength(scheme)) <= Pow(2, 24)
    ensures Eol(scheme, is2d) == LsbBits(EolCode(scheme, is2d), EolLength(scheme))
  {
    SmallPowers();
    PowStep(13);
    PowUp(EolLength(scheme), 24);
    hide Pow, LsbBits;
  }

  lemma LongRun(black: bool, span: nat)
    requires span >= 2560 + 64
    ensures Run(black, span) == CodeBits(black, 103) + Run(black, span - 2560)
  {
    hide CodeBits;
  }

  lemma ShortRun(black: bool, span: nat)
    requires span < 2560 + 64
    ensures Run(black, span) ==
            if span >= 64 then CodeBits(black, 63 + span / 64) + CodeBits(black, span % 64) else CodeBits(black, span)
  {
    hide CodeBits;
  }

  lemma ModeFits(m: Mode)
    requires m.Vertical? ==> -3 <= m.d <= 3
    ensures ModeCode(m).length <= 24 && ModeCode(m).code < Pow(2, ModeCode(m).length)
  {
    SmallPowers();
    hide Pow;
  }

  // ---------------------------------------------------------------- the encoder

  class Encoder {
    const width: nat
    const scheme: Scheme
    const k: int
    const maxToNext1d: int
    var minRowBits: int
    var buf: seq<Byte>
    var acc: nat
    var nbits: nat
    var rowBits: nat
    var rowIs2d: bool
    var toNext1d: int
    var refRuns: array<nat>
    var curRuns: array<nat>
    var refSteps: nat

    /** The bits put out so far: the buffer, then the accumulator. */
    ghost function Stream(): Bits
      reads this`buf, this`acc, this`nbits
    {
      BytesBits(buf) + LsbBits(acc, nbits)
    }

    /** No bit of the accumulator lies above `nbits`. */
    ghost predicate Clean()
      reads this`acc, this`nbits
    {
      nbits < 8 && acc < Pow(2, nbits)
    }

    /** `list` holds the changing elements `l` and three copies of the last one. */
    ghost predicate Padded(list: array<nat>, n: nat)
      reads list
    {
      && list.Length == width + 4
      && 1 <= n <= width + 1
      && list[n - 1] == width && list[n] == width && list[n + 1] == width && list[n + 2] == width
    }

    ghost function Reference(): seq<nat>
      reads this`refRuns, this`refSteps, refRuns
      requires refSteps <= refRuns.Length
    {
      refRuns[..refSteps]
    }

    /** The run lists: two arrays, one of which holds the reference line. */
    ghost predicate Lists()
      reads this`refRuns, this`curRuns, this`refSteps, refRuns
    {
      && refRuns != curRuns && curRuns.Length == width + 4
      && refSteps <= refRuns.Length
      && Padded(refRuns, refSteps)
      && ValidReference(refRuns[..refSteps], width)
    }

    ghost predicate Valid()
      reads this, refRuns
    {
      width >= 1 && maxToNext1d == (if k > 0 then k else 2) && Lists() && Clean()
    }

    ghost function State(): Coder
      reads this, refRuns
      requires refSteps <= refRuns.Length
    {
      Coder(rowIs2d, toNext1d, Reference(), rowBits)
    }

    lemma StateIsValid()
      requires Lists()
      ensures refSteps <= refRuns.Length && refRuns != curRuns
      ensures ValidCoder(State(), width) && Increasing(State().ref)
    {
    }

    constructor (width: nat, scheme: Scheme, k: int)
      requires width >= 1
      ensures Valid() && fresh(refRuns) && fresh(curRuns)
      ensures this.width == width && this.scheme == scheme && this.k == k
      ensures Stream() == [] && State() == StartCoder(scheme, width, k) && minRowBits == 0
    {
      this.width := width;
      this.scheme := scheme;
      this.k := k;
      maxToNext1d := if k > 0 then k else 2;
      minRowBits := 0;
      buf, acc, nbits, rowBits := [], 0, 0, 0;
      refRuns := new nat[width + 4];
      curRuns := new nat[width + 4];
      refSteps := 1;
      rowIs2d := scheme.Mmr?;
      toNext1d := (if k > 0 then k else 2) - 1;
      new;
      refRuns[0], refRuns[1], refRuns[2], refRuns[3] := width, width, width, width;
      assert Reference() == [width];
    }

    method SetMinRowBits(bits: int)
      modifies this`minRowBits
      ensures minRowBits == bits
    {
      minRowBits := bits;
    }

    // -------------------------------------------------------------- bits

    /** Everything from `s` on is out, `n` bits of it since the last count was cleared. */
    ghost predicate Sent(s: Bits, n: nat)
      reads this
    {
      Stream() == s && rowBits == n
    }

    /** Appends the `length` low bits of `bits`; whole bytes move to the buffer. */
    method Eput(bits: nat, length: nat)
      requires Clean()
      requires length <= 24 && bits < Pow(2, 24)
      modifies this`buf, this`acc, this`nbits, this`rowBits
      ensures Sent(old(Stream()) + LsbBits(bits, length), old(rowBits) + length)
      ensures nbits < 8
      ensures bits < Pow(2, length) ==> Clean()
    {
      hide Pow, LsbBits, BytesBits, BitOr, Shl;
      Appended(buf, acc, nbits, bits, length);
      ghost var s := old(Stream()) + LsbBits(bits, length);
      acc := BitOr(acc, Shl(bits, nbits));
      nbits := nbits + length;
      rowBits := rowBits + length;
      while nbits >= 8
        invariant Sent(s, old(rowBits) + length)
        invariant bits < Pow(2, length) ==> acc < Pow(2, nbits)
        decreases nbits
      {
        ByteShiftsOut(buf, acc, nbits);
        buf := buf + [acc % 256];
        acc := acc / 256;
        nbits := nbits - 8;
      }
    }

    /** One run: make-up codes of 2560 while the rest is large, at most one smaller make-up
        code, one terminating code. */
    method PutSpan(span: nat, black: bool)
      requires Clean()
      modifies this`buf, this`acc, this`nbits, this`rowBits
      ensures Clean() && Sent(old(Stream()) + Run(black, span), old(rowBits) + |Run(black, span)|)
    {
      hide Run, CodeBits, Stream, Clean, Pow;
      var rest: nat := span;
      while rest >= 2560 + 64
        invariant Clean()
        invariant Stream() + Run(black, rest) == old(Stream()) + Run(black, span)
        invariant rowBits + |Run(black, rest)| == old(rowBits) + |Run(black, span)|
      {
        LongRun(black, rest);
        Assoc(Stream(), CodeBits(black, 103), Run(black, rest - 2560));
        PutCode(black, 103);
        rest := rest - 2560;
      }
      ShortRun(black, rest);
      if rest >= 64 {
        Assoc(Stream(), CodeBits(black, 63 + rest / 64), CodeBits(black, rest % 64));
        PutCode(black, 63 + rest / 64);
        rest := rest % 64;
      }
      PutCode(black, rest);
    }

    method PutCode(black: bool, i: nat)
      requires Clean() && i < TABLE_LEN
      modifies this`buf, this`acc, this`nbits, this`rowBits
      ensures Clean() && Sent(old(Stream()) + CodeBits(black, i), old(rowBits) + |CodeBits(black, i)|)
    {
      hide LsbBits, BytesBits, Pow, Entry;
      CodeLength(black, i);
      PowUp(Entry(black, i).length, 24);
      var e := Entry(black, i);
      Eput(e.code, e.length);
    }

    method PutMode(m: Mode)
      requires Clean() && (m.Vertical? ==> -3 <= m.d <= 3)
      modifies this`buf, this`acc, this`nbits, this`rowBits
      ensures Clean() && Sent(old(Stream()) + ModeBits(m), old(rowBits) + |ModeBits(m)|)
    {
      hide LsbBits, BytesBits, Pow;
      ModeFits(m);
      PowUp(ModeCode(m).length, 24);
      Eput(ModeCode(m).code, ModeCode(m).length);
    }

    // -------------------------------------------------------------- lines

    /** The changing elements of a line with the padding behind them. */
    method PaddedRuns(list: array<nat>, row: seq<Byte>) returns (n: nat)
      requires list.Length == width + 4 && |row| == Stride(width)
      modifies list
      ensures n <= width + 1 && list[..n] == Runs(Pixels(row, width), 0, false)
      ensures Padded(list, n)
    {
      hide Runs, Pixels;
      n := RowRuns(list, row, width);
      ghost var l := list[..n];
      list[n], list[n + 1], list[n + 2] := list[n - 1], list[n - 1], list[n - 1];
      assert list[..n] == l;
    }

    /** A line coded one-dimensionally; it becomes the reference. */
    method EncodeRow1D(row: seq<Byte>)
      requires Valid() && |row| == Stride(width)
      modifies this`buf, this`acc, this`nbits, this`rowBits, this`refSteps, refRuns
      ensures Valid() && Reference() == Runs(Pixels(row, width), 0, false)
      ensures var x := Enc1D(Pixels(row, width), 0, false);
              Sent(old(Stream()) + x, old(rowBits) + |x|)
    {
      hide Stream, Run, Enc1D, Runs, Pixels, Pow, Clean;
      refSteps := PaddedRuns(refRuns, row);
      LineIsReference(Pixels(row, width));
      PutRuns(Pixels(row, width));
    }

    method PutRuns(ghost px: Row)
      requires Clean() && refSteps <= refRuns.Length && IsRuns(Reference(), px) && |px| == width >= 1
      modifies this`buf, this`acc, this`nbits, this`rowBits
      ensures Clean()
      ensures var x := Enc1D(px, 0, false); Sent(old(Stream()) + x, old(rowBits) + |x|)
    {
      hide Stream, Run, Enc1D, Clean, IsRuns;
      ghost var l := Reference();
      RunFirst(px, l);
      Assoc(Stream(), Run(false, l[0]), Enc1D(px, l[0], true));
      PutSpan(refRuns[0], false);
      for i := 1 to refSteps
        invariant Clean() && l[i - 1] <= width
        invariant Stream() + Enc1D(px, l[i - 1], i % 2 == 1) == old(Stream()) + Enc1D(px, 0, false)
        invariant rowBits + |Enc1D(px, l[i - 1], i % 2 == 1)| == old(rowBits) + |Enc1D(px, 0, false)|
      {
        RunAfter(px, l, i);
        assert refRuns[i] == l[i] && refRuns[i - 1] == l[i - 1];
        Assoc(Stream(), Run(i % 2 == 1, l[i] - l[i - 1]), Enc1D(px, l[i], i % 2 == 0));
        PutSpan(refRuns[i] - refRuns[i - 1], i % 2 == 1);
      }
      LineEnds(px, l);
    }

    /** Moves the reference cursor to b1 for position `a0`: from the last cursor, in steps of
        two on the side of the new colour's parity, back or forth.  The result is what a scan
        of the whole reference line finds. */
    method MoveReference(a0: nat, black: bool, from: nat) returns (cursor: nat)
      requires refSteps <= refRuns.Length && Padded(refRuns, refSteps) && Increasing(Reference())
      requires a0 < width && from <= refSteps
      ensures cursor <= refSteps
      ensures OnB1(refRuns[..refSteps + 3], refSteps, width, a0, black, cursor)
    {
      hide FirstB, Increasing, OnB1;
      ghost var list := refRuns[..refSteps + 3];
      assert list[..refSteps] == Reference();
      cursor := if black then from - from % 2 + 1 else from - from % 2;
      if a0 < refRuns[cursor] {
        cursor := MoveBack(a0, cursor);
        CursorFound(list, refSteps, width, a0, black, cursor);
      } else {
        cursor := MoveOn(a0, cursor);
        CursorFound(list, refSteps, width, a0, black, cursor);
        if cursor >= refSteps { cursor := refSteps - 1; }
      }
    }

    method MoveBack(a0: nat, from: nat) returns (cursor: nat)
      requires from < refRuns.Length && a0 < refRuns[from]
      ensures cursor <= from && cursor % 2 == from % 2
      ensures a0 < refRuns[cursor] && (cursor >= 2 ==> refRuns[cursor - 2] <= a0)
    {
      var c: int := from;
      while c >= 0 && a0 < refRuns[c]
        invariant -2 <= c <= from && c % 2 == from % 2
        invariant c < from ==> a0 < refRuns[c + 2]
      {
        c := c - 2;
      }
      cursor := c + 2;
    }

    method MoveOn(a0: nat, from: nat) returns (cursor: nat)
      requires refSteps + 3 <= refRuns.Length && from < refSteps && a0 >= refRuns[from]
      ensures from < cursor <= refSteps + 1 && cursor % 2 == from % 2
      ensures a0 >= refRuns[cursor - 2] && (cursor < refSteps ==> a0 < refRuns[cursor])
    {
      cursor := from;
      while cursor < refSteps && a0 >= refRuns[cursor]
        invariant from <= cursor <= refSteps + 1 && cursor % 2 == from % 2
        invariant cursor > from ==> a0 >= refRuns[cursor - 2]
      {
        cursor := cursor + 2;
      }
    }

    /** One mode of the two-dimensional code, from a0 to the next a0. */
    method CodeStep(row: seq<Byte>, a0: nat, b1: nat, b2: nat, from: nat, steps: nat, ghost g0: int, ghost color: bool)
      returns (next: nat, cursor: nat)
      requires Clean() && |row| == Stride(width) && width >= 1
      requires refSteps <= refRuns.Length && Increasing(Reference())
      requires Padded(curRuns, steps) && IsRuns(curRuns[..steps], Pixels(row, width))
      requires Position(Pixels(row, width), g0, color) && a0 == Start(g0)
      requires OnA1(curRuns[..steps], Pixels(row, width), a0, color, from)
      requires var i := FirstB(Reference(), g0, color, 0);
               b1 == Ref(Reference(), width, i) && b2 == Ref(Reference(), width, i + 1)
      modifies this`buf, this`acc, this`nbits, this`rowBits
      ensures Clean()
      ensures var t := EncodeStep(Reference(), Pixels(row, width), g0, color);
              && Sent(old(Stream()) + t.bits, old(rowBits) + |t.bits|)
              && next == t.a0
              && (next < width ==> cursor < steps && OnA1(curRuns[..steps], Pixels(row, width), next, t.color, cursor))
    {
      hide Stream, Clean, Run, ModeBits, FirstB, Ref, NextChange, Pow, IsRuns, Increasing, Pixels, EncodeStep, Position, OnA1;
      ghost var px, l := Pixels(row, width), curRuns[..steps];
      NextCursor(l, px, a0, color, from);
      var a1 := curRuns[from];
      StepCases(Reference(), px, g0, color, a0, a1, b1, b2);
      if b2 >= a1 {
        var diff: int := b1 - a1;
        if -3 <= diff <= 3 {
          PutMode(Vertical(-diff));
          next, cursor := a1, from + 1;
        } else {
          if a1 < width { NextCursor(l, px, a1, !color, from + 1); }
          var a2 := curRuns[from + 1];
          PutHorizontal(row, a0, a1, a2, g0, color);
          next, cursor := a2, from + 2;
        }
      } else {
        PutMode(Pass);
        next, cursor := b2, from;
        SameCursor(l, px, a0, b2, color, from);
      }
    }

    /** Horizontal mode: two runs, the first of the colour found at a0. */
    method PutHorizontal(row: seq<Byte>, a0: nat, a1: nat, a2: nat, ghost g0: int, ghost color: bool)
      requires Clean() && |row| == Stride(width) && width >= 1
      requires Position(Pixels(row, width), g0, color) && a0 == Start(g0)
      requires a0 <= width && a1 == NextChange(Pixels(row, width), a0, color) <= a2
      modifies this`buf, this`acc, this`nbits, this`rowBits
      ensures Clean()
      ensures var x := ModeBits(Horizontal) + (Run(color, a1 - a0) + Run(!color, a2 - a1));
              Sent(old(Stream()) + x, old(rowBits) + |x|)
    {
      hide Stream, Clean, Run, ModeBits, NextChange, Position;
      FirstPixel(Pixels(row, width), g0, color);
      Assoc(Stream() + ModeBits(Horizontal), Run(color, a1 - a0), Run(!color, a2 - a1));
      Assoc(Stream(), ModeBits(Horizontal), Run(color, a1 - a0) + Run(!color, a2 - a1));
      PutMode(Horizontal);
      if a0 + a1 == 0 || !PxBlack(row, a0) {
        PutSpan(a1 - a0, false);
        PutSpan(a2 - a1, true);
      } else {
        PutSpan(a1 - a0, true);
        PutSpan(a2 - a1, false);
      }
    }

    /** A whole line in two-dimensional code: the modes follow from one position to the next
        until the line ends. */
    method CodeLine(row: seq<Byte>, steps: nat)
      requires Clean() && |row| == Stride(width) && width >= 1
      requires refSteps <= refRuns.Length && Padded(refRuns, refSteps) && Increasing(Reference())
      requires Padded(curRuns, steps) && IsRuns(curRuns[..steps], Pixels(row, width))
      modifies this`buf, this`acc, this`nbits, this`rowBits
      ensures Clean()
      ensures var x := Enc2D(Reference(), Pixels(row, width), -1, false);
              Sent(old(Stream()) + x, old(rowBits) + |x|)
    {
      hide Stream, Clean, Enc2D, EncodeStep, FirstB, NextChange, IsRuns, Increasing, PxBlack, Position, OnA1, OnB1;
      ghost var px, l, ref, list := Pixels(row, width), curRuns[..steps], Reference(), refRuns[..refSteps + 3];
      ghost var g0: int, color := -1, false;
      var a0: nat, aCursor: nat, bCursor: nat := 0, 0, 0;
      assert list[..refSteps] == ref;
      LineStarts(l, px, list, refSteps);
      while true
        invariant Clean()
        invariant g0 < width && a0 == Start(g0) && Position(px, g0, color) && OnA1(l, px, a0, color, aCursor)
        invariant aCursor < steps
        invariant bCursor <= refSteps && OnB1(list, refSteps, width, g0, color, bCursor)
        invariant Stream() + Enc2D(ref, px, g0, color) == old(Stream()) + Enc2D(ref, px, -1, false)
        invariant rowBits + |Enc2D(ref, px, g0, color)| == old(rowBits) + |Enc2D(ref, px, -1, false)|
        decreases width - g0
      {
        ghost var t := EncodeStep(ref, px, g0, color);
        StepOf2D(ref, px, g0, color);
        Assoc(Stream(), t.bits, Enc2D(ref, px, t.a0, t.color));
        ReadsB(list, refSteps, width, g0, color, bCursor);
        a0, aCursor := CodeStep(row, a0, refRuns[bCursor], refRuns[bCursor + 1], aCursor, steps, g0, color);
        g0, color := t.a0, t.color;
        if a0 >= width { break; }
        // The source clamps its cursor to steps - 1 here; it is never beyond.
        assert aCursor < steps;
        PositionColour(row, width, a0, color);
        bCursor := MoveReference(a0, PxBlack(row, a0), bCursor);
        assert Reference() == ref && list == refRuns[..refSteps + 3] && l == curRuns[..steps];
      }
    }

    /** A line coded two-dimensionally; the run lists change places. */
    method EncodeRow2D(row: seq<Byte>)
      requires Valid() && |row| == Stride(width)
      modifies this`buf, this`acc, this`nbits, this`rowBits, this`refSteps, this`refRuns, this`curRuns, curRuns
      ensures Valid() && Reference() == Runs(Pixels(row, width), 0, false)
      ensures refRuns == old(curRuns) && curRuns == old(refRuns)
      ensures var x := Enc2D(old(Reference()), Pixels(row, width), -1, false);
              Sent(old(Stream()) + x, old(rowBits) + |x|)
    {
      hide Stream, Clean, Enc2D, Runs, Pixels;
      var steps := PaddedRuns(curRuns, row);
      LineIsReference(Pixels(row, width));
      CodeLine(row, steps);
      refSteps := steps;
      refRuns, curRuns := curRuns, refRuns;
    }

    // -------------------------------------------------------------- the page

    /** `fill` zeros, at most 24 at a time. */
    method PutFill(fill: nat)
      requires Clean()
      modifies this`buf, this`acc, this`nbits, this`rowBits
      ensures Clean() && Stream() == old(Stream()) + Zeros(fill)
    {
      hide Stream, Clean, Zeros, LsbBits, Pow;
      ghost var s := old(Stream());
      NoZeros(s);
      var left: nat := fill;
      while left > 0
        invariant left <= fill
        invariant Clean() && Stream() == s + Zeros(fill - left)
      {
        var n := if left > 24 then 24 else left;
        ZerosMore(fill - left, n);
        Assoc(s, Zeros(fill - left), LsbBits(0, n));
        SmallBits(n, 24);
        Eput(0, n);
        left := left - n;
      }
    }

    /** An EOL, stretched by FILL zeros if the line before it was too short. */
    method EncodeEol()
      requires Clean()
      modifies this`buf, this`acc, this`nbits, this`rowBits
      ensures Clean()
      ensures Sent(old(Stream()) + FilledEol(scheme, minRowBits, rowIs2d, old(rowBits)), 0)
    {
      hide Stream, Clean, Eol, Zeros, LsbBits, Pow;
      NoZeros(Stream());
      EolFits(scheme, rowIs2d);
      Assoc(Stream(), Zeros(FillLength(minRowBits, rowBits)), Eol(scheme, rowIs2d));
      if minRowBits > 0 && rowBits > 13 && rowBits < minRowBits {
        PutFill(minRowBits - rowBits);
      }
      if scheme.Mr? {
        Eput(0x0800 + (if rowIs2d then 0 else 0x1000), 13);
      } else {
        Eput(0x0800, 12);
      }
      rowBits := 0;
    }

    /** nf_t4_enc_row: one line with its EOL and the K counter. */
    method EncodeRow(row: seq<Byte>)
      requires Valid() && |row| == Stride(width)
      modifies this`buf, this`acc, this`nbits, this`rowBits, this`refSteps, this`refRuns, this`curRuns
      modifies this`rowIs2d, this`toNext1d, refRuns, curRuns
      ensures Valid() && {refRuns, curRuns} == old({refRuns, curRuns})
      ensures State() == NextCoder(scheme, k, old(State()), Pixels(row, width)) && ValidCoder(State(), width)
      ensures Stream() == old(Stream()) + RowBits(scheme, minRowBits, old(State()), Pixels(row, width))
    {
      hide Stream, Clean, Lists, FilledEol, Enc1D, Enc2D, Runs, Pixels, RowBits, NextCoder;
      StateIsValid();
      ghost var px, c := Pixels(row, width), State();
      RowCases(scheme, k, minRowBits, c, px);
      Assoc(Stream(), FilledEol(scheme, minRowBits, rowIs2d, rowBits), Enc2D(c.ref, px, -1, false));
      Assoc(Stream(), FilledEol(scheme, minRowBits, rowIs2d, rowBits), Enc1D(px, 0, false));
      match scheme {
        case Mmr =>
          rowBits := 0;
          EncodeRow2D(row);
        case Mr =>
          EncodeEol();
          if rowIs2d {
            EncodeRow2D(row);
            toNext1d := toNext1d - 1;
          } else {
            EncodeRow1D(row);
            rowIs2d := true;
          }
          if toNext1d <= 0 {
            rowIs2d := false;
            toNext1d := maxToNext1d - 1;
          }
        case Mh =>
          EncodeEol();
          EncodeRow1D(row);
      }
      StateIsValid();
    }

    /** nf_t4_enc_end_page: RTC or EOFB, then seven ones to flush the last partial byte. */
    method EndPage()
      requires Valid()
      modifies this`buf, this`acc, this`nbits, this`rowBits, this`rowIs2d
      ensures exists n :: 0 <= n < 8 && BytesBits(buf) == old(Stream()) + EndBits(scheme, minRowBits, old(rowBits)) + Ones(n)
    {
      hide Stream, Clean, FilledEol, EndBits, Eol, Eols, Ones;
      ghost var s, all := Stream(), Stream() + EndBits(scheme, minRowBits, rowBits);
      var eols := if scheme.Mmr? then 2 else 6;
      if !scheme.Mmr? { rowIs2d := false; }
      EndSpelled(scheme, minRowBits, rowIs2d, rowBits);
      Assoc(s, FilledEol(scheme, minRowBits, rowIs2d, rowBits), Eols(scheme, eols - 1));
      EncodeEol();
      for i := 1 to eols
        invariant Clean() && rowBits == 0 && (scheme.Mr? ==> !rowIs2d)
        invariant Stream() + Eols(scheme, eols - i) == all
      {
        NextEol(scheme, minRowBits, rowIs2d, eols - i);
        Assoc(Stream(), Eol(scheme, rowIs2d), Eols(scheme, eols - i - 1));
        EncodeEol();
      }
      NoEols(scheme, Stream());
      FlushOnes();
    }

    method FlushOnes()
      requires Clean()
      modifies this`buf, this`acc, this`nbits, this`rowBits
      ensures exists n :: 0 <= n < 8 && BytesBits(buf) == old(Stream()) + Ones(n)
    {
      hide LsbBits, BytesBits, Pow;
      SevenOnes();
      Eput(0xFF, 7);
      ghost var n: nat := 7 - nbits;
      assert BytesBits(buf) == (BytesBits(buf) + LsbBits(acc, nbits))[..|old(Stream())| + n];
      assert BytesBits(buf) == old(Stream()) + Ones(n);
    }
  }
}
