/** Coding of one scan line (ITU-T T.4, sections 4.1 and 4.2; nf_t4.c): the one-dimensional
    run code and the two-dimensional code relative to a reference line, with the decoders,
    as functions on pixels and bits. */
module T4Rows {
  import opened BitIo
  import opened T4Codes
  import opened T4Runs

  /** true is black. */
  type Row = seq<bool>

  // ---------------------------------------------------------------- changing elements

  /** First pixel at or after `a` that is not `color`; |row| if there is none. */
  function NextChange(row: Row, a: nat, color: bool): (b: nat)
    requires a <= |row|
    ensures a <= b <= |row|
    ensures forall i :: a <= i < b ==> row[i] == color
    ensures b < |row| ==> row[b] != color
    decreases |row| - a
  {
    if a == |row| || row[a] != color then a else NextChange(row, a + 1, color)
  }

  /** Changing-element positions from pixel `i` on, ending with the width. */
  function Runs(row: Row, i: nat, color: bool): (l: seq<nat>)
    requires i <= |row|
    ensures |l| >= 1
    decreases |row| - i
  {
    if i == |row| then [|row|]
    else if row[i] != color then [i] + Runs(row, i + 1, row[i])
    else Runs(row, i + 1, color)
  }

  /** `l` lists a line's changing elements: element k begins a run that is black for even
      k, each is the next change after the one before, the last is the width. */
  ghost predicate IsRuns(l: seq<nat>, row: Row) {
    && 1 <= |l|
    && (forall k :: 0 <= k < |l| - 1 ==> l[k] < |row| && row[l[k]] == (k % 2 == 0))
    && (forall k :: 0 <= k < |l| - 1 ==> l[k + 1] == NextChange(row, l[k], k % 2 == 0))
    && l[0] == NextChange(row, 0, false)
    && l[|l| - 1] == |row|
  }

  ghost predicate Increasing(l: seq<nat>) {
    forall i, j :: 0 <= i < j < |l| ==> l[i] < l[j]
  }

  lemma {:induction false} RunsFrom(row: Row, i: nat, color: bool, k: nat)
    requires i <= |row|
    requires color == (k % 2 == 1)
    ensures var l := Runs(row, i, color);
            && l[0] == NextChange(row, i, color)
            && l[|l| - 1] == |row|
            && (forall j :: 0 <= j < |l| - 1 ==> l[j] < |row| && row[l[j]] == ((j + k) % 2 == 0))
            && (forall j :: 0 <= j < |l| - 1 ==> l[j + 1] == NextChange(row, l[j], (j + k) % 2 == 0))
    decreases |row| - i
  {
    if i < |row| {
      if row[i] != color {
        var t := Runs(row, i + 1, row[i]);
        var l := Runs(row, i, color);
        RunsFrom(row, i + 1, row[i], k + 1);
        assert l == [i] + t;
        assert NextChange(row, i, row[i]) == NextChange(row, i + 1, row[i]);
        forall j | 0 <= j < |l| - 1
          ensures l[j] < |row| && row[l[j]] == ((j + k) % 2 == 0)
          ensures l[j + 1] == NextChange(row, l[j], (j + k) % 2 == 0)
        {
          if j > 0 {
            assert l[j] == t[j - 1] && l[j + 1] == t[j];
            assert (j - 1 + (k + 1)) % 2 == (j + k) % 2;
          }
        }
      } else {
        RunsFrom(row, i + 1, color, k);
      }
    }
  }

  /** The computed list is the list of changing elements. */
  lemma RunsAreRuns(row: Row)
    ensures IsRuns(Runs(row, 0, false), row)
  {
    RunsFrom(row, 0, false, 0);
  }

  lemma {:induction false} RunsStep(l: seq<nat>, row: Row, i: nat, j: nat)
    requires IsRuns(l, row)
    requires i < j < |l|
    ensures l[i] < l[j]
    decreases j - i
  {
    assert l[j - 1] < l[j];
    if i < j - 1 { RunsStep(l, row, i, j - 1); }
  }

  lemma RunsIncrease(l: seq<nat>, row: Row)
    requires IsRuns(l, row)
    ensures Increasing(l)
    ensures forall k :: 0 <= k < |l| ==> l[k] <= |row|
  {
    forall i, j | 0 <= i < j < |l| ensures l[i] < l[j] { RunsStep(l, row, i, j); }
  }

  /** The changing elements of a line serve as the next reference. */
  lemma LineIsReference(row: Row)
    ensures var l := Runs(row, 0, false);
            IsRuns(l, row) && Increasing(l) && |l| >= 1 && forall i :: 0 <= i < |l| ==> l[i] <= |row|
  {
    hide IsRuns, Runs;
    RunsAreRuns(row);
    RunsIncrease(Runs(row, 0, false), row);
  }

  // ---------------------------------------------------------------- pixels

  function White(w: nat): (r: Row)
    ensures |r| == w
  {
    seq(w, _ => false)
  }

  /** Pixels a..b turned black. */
  function SetRange(row: Row, a: int, b: int): (r: Row)
    ensures |r| == |row|
  {
    seq(|row|, i requires 0 <= i < |row| => row[i] || a <= i < b)
  }

  /** The first `n` pixels of a line, the rest white. */
  ghost function Upto(row: Row, n: nat): (r: Row)
    ensures |r| == |row|
  {
    seq(|row|, i requires 0 <= i < |row| => i < n && row[i])
  }

  lemma UptoExtend(row: Row, a: nat, b: nat, color: bool)
    requires a <= b <= |row|
    requires forall i :: a <= i < b ==> row[i] == color
    ensures Upto(row, b) == if color then SetRange(Upto(row, a), a, b) else Upto(row, a)
  {
  }

  lemma UptoEnds(row: Row)
    ensures Upto(row, 0) == White(|row|) && Upto(row, |row|) == row
  {
  }

  /** A decoded line, or failure, with the cursor afterwards. */
  datatype RowResult = RowOk(row: Row, pos: nat) | RowBad(pos: nat)

  // ---------------------------------------------------------------- one-dimensional code

  /** Alternating white and black runs from pixel `a` on. */
  function Enc1D(row: Row, a: nat, color: bool): Bits
    requires a <= |row|
    decreases |row| - a, if a < |row| && row[a] == color then 0 else 1
  {
    if a == |row| then []
    else
      var b := NextChange(row, a, color);
      Run(color, b - a) + Enc1D(row, b, !color)
  }

  function Dec1D(s: Bits, pos: nat, row: Row, a: nat, color: bool): (r: RowResult)
    requires pos <= |s| && a <= |row|
    ensures pos <= r.pos <= |s| && (a < |row| && (r.RowOk? || pos < |s|) ==> pos < r.pos)
    ensures r.RowOk? ==> |r.row| == |row|
    decreases |s| - pos
  {
    if a == |row| then RowOk(row, pos)
    else
      var g := ReadRun(s, pos, color, 0);
      if g.run < 0 then RowBad(g.pos)
      else
        var b := if a + g.run > |row| then |row| else a + g.run;
        Dec1D(s, g.pos, if color then SetRange(row, a, b) else row, b, !color)
  }

  /** Decoding one run continues behind it with its pixels set. */
  lemma RunStep1D(s: Bits, pos: nat, row: Row, a: nat, color: bool, b: nat, p: nat)
    requires a < |row| <= RUN_CAP
    requires b == NextChange(row, a, color)
    requires At(s, pos, Run(color, b - a)) && p == pos + |Run(color, b - a)|
    ensures p <= |s| && Dec1D(s, pos, Upto(row, a), a, color) == Dec1D(s, p, Upto(row, b), b, !color)
  {
    hide At, Run, ReadRun, Upto, SetRange, NextChange;
    AtWithin(s, pos, Run(color, b - a));
    RunRoundTrip(s, pos, color, b - a, 0);
    UptoExtend(row, a, b, color);
  }

  lemma RunFirst1D(row: Row, a: nat, color: bool)
    requires a < |row|
    ensures var b := NextChange(row, a, color);
            a <= b && (a == b ==> row[a] == !color)
            && Enc1D(row, a, color) == Run(color, b - a) + Enc1D(row, b, !color)
  {
    hide Run;
  }

  lemma Ends1D(s: Bits, pos: nat, row: Row, color: bool)
    requires pos <= |s|
    ensures Enc1D(row, |row|, color) == []
    ensures Dec1D(s, pos, Upto(row, |row|), |row|, color) == RowOk(row, pos)
  {
    UptoEnds(row);
    hide Upto;
  }

  /** Decoding a coded line gives the line back and stops at its last bit. */
  lemma {:induction false} RoundTrip1D(s: Bits, pos: nat, row: Row, a: nat, color: bool)
    requires a <= |row| <= RUN_CAP
    requires At(s, pos, Enc1D(row, a, color))
    ensures Dec1D(s, pos, Upto(row, a), a, color) == RowOk(row, pos + |Enc1D(row, a, color)|)
    decreases |row| - a, if a < |row| && row[a] == color then 0 else 1
  {
    hide *;
    AtWithin(s, pos, Enc1D(row, a, color));
    if a == |row| {
      Ends1D(s, pos, row, color);
    } else {
      RunFirst1D(row, a, color);
      var b := NextChange(row, a, color);
      AtSplit(s, pos, Run(color, b - a), Enc1D(row, b, !color));
      RunStep1D(s, pos, row, a, color, b, pos + |Run(color, b - a)|);
      RoundTrip1D(s, pos + |Run(color, b - a)|, row, b, !color);
    }
  }

  // ---------------------------------------------------------------- two-dimensional code

  /** code_v: vertical mode codes, index b1 - a1 + 3. */
  function VerticalCode(i: nat): Rte
    requires i < 7
  {
    match i
    case 0 => Rte(7, 0x60, 0) case 1 => Rte(6, 0x30, 0) case 2 => Rte(3, 0x06, 0) case 3 => Rte(1, 0x01, 0)
    case 4 => Rte(3, 0x02, 0) case 5 => Rte(6, 0x10, 0) case _ => Rte(7, 0x20, 0)
  }

  const HORIZONTAL_CODE: Rte := Rte(3, 0x04, 0)
  const PASS_CODE: Rte := Rte(4, 0x08, 0)

  /** Vertical(d): the change lies d pixels right of b1. */
  datatype Mode = Vertical(d: int) | Horizontal | Pass

  function ModeCode(m: Mode): Rte
    requires m.Vertical? ==> -3 <= m.d <= 3
  {
    match m
    case Vertical(d) => VerticalCode(3 - d)
    case Horizontal => HORIZONTAL_CODE
    case Pass => PASS_CODE
  }

  function ModeBits(m: Mode): (b: Bits)
    requires m.Vertical? ==> -3 <= m.d <= 3
  {
    LsbBits(ModeCode(m).code, ModeCode(m).length)
  }

  datatype ReadMode = ReadMode(mode: Mode, pos: nat) | NoMode(pos: nat)

  /** The mode whose code reads `v` in `n` bits. */
  function ModeOf(v: nat, n: nat): seq<Mode> {
    if n == 1 && v == 1 then [Vertical(0)]
    else if n == 3 && v == 1 then [Horizontal]
    else if n == 4 && v == 1 then [Pass]
    else if n == 3 && v == 3 then [Vertical(1)]
    else if n == 3 && v == 2 then [Vertical(-1)]
    else if n == 6 && v == 3 then [Vertical(2)]
    else if n == 6 && v == 2 then [Vertical(-2)]
    else if n == 7 && v == 3 then [Vertical(3)]
    else if n == 7 && v == 2 then [Vertical(-3)]
    else []
  }

  function ParseMode(s: Bits, pos: nat, v: nat, n: nat): (r: ReadMode)
    requires pos <= |s| && n <= 7
    ensures pos <= r.pos <= |s| && (r.ReadMode? || (n < 7 && pos < |s|) ==> pos < r.pos)
    ensures r.NoMode? ==> r.pos == |s| || r.pos == pos + 7 - n
    decreases 7 - n
  {
    if n == 7 || pos == |s| then NoMode(pos)
    else
      var v' := 2 * v + if s[pos] then 1 else 0;
      var m := ModeOf(v', n + 1);
      if m != [] then ReadMode(m[0], pos + 1) else ParseMode(s, pos + 1, v', n + 1)
  }

  /** The mode codes are read back as the modes. */
  lemma ReadsMode(s: Bits, pos: nat, m: Mode)
    requires m.Vertical? ==> -3 <= m.d <= 3
    requires At(s, pos, ModeBits(m))
    ensures ParseMode(s, pos, 0, 0) == ReadMode(m, pos + |ModeBits(m)|)
  {
    hide ModeBits, ModeOf, At, ParseMode;
    AtEach(s, pos, ModeBits(m));
    ModeBitsSpelled(m);
    if |ModeBits(m)| <= 4 { ReadsShort(s, pos, m, ModeBits(m)); } else { ReadsLong(s, pos, m, ModeBits(m)); }
  }

  lemma ReadsShort(s: Bits, pos: nat, m: Mode, b: Bits)
    requires pos + |b| <= |s| && forall k :: 0 <= k < |b| ==> s[pos + k] == b[k]
    requires (m == Vertical(0) && b == [true]) || (m == Vertical(1) && b == [false, true, true])
          || (m == Vertical(-1) && b == [false, true, false]) || (m == Horizontal && b == [false, false, true])
          || (m == Pass && b == [false, false, false, true])
    ensures ParseMode(s, pos, 0, 0) == ReadMode(m, pos + |b|)
  {
    hide ParseMode;
    assert b[0] == s[pos + 0];
    if |b| == 1 {
      Found(s, pos, 0, 0, m);
    } else {
      assert b[1] == s[pos + 1] && b[2] == s[pos + 2];
      NotYet(s, pos, 0, 0);
      NotYet(s, pos + 1, 0, 1);
      if |b| == 3 {
        Found(s, pos + 2, if b[1] then 1 else 0, 2, m);
      } else {
        NotYet(s, pos + 2, 0, 2);
        assert b[3] == s[pos + 3];
        Found(s, pos + 3, 0, 3, m);
      }
    }
  }

  lemma ReadsLong(s: Bits, pos: nat, m: Mode, b: Bits)
    requires pos + |b| <= |s| && forall k :: 0 <= k < |b| ==> s[pos + k] == b[k]
    requires (m == Vertical(2) && b == [false, false, false, false, true, true])
          || (m == Vertical(-2) && b == [false, false, false, false, true, false])
          || (m == Vertical(3) && b == [false, false, false, false, false, true, true])
          || (m == Vertical(-3) && b == [false, false, false, false, false, true, false])
    ensures ParseMode(s, pos, 0, 0) == ReadMode(m, pos + |b|)
  {
    hide ParseMode;
    assert b[0] == s[pos + 0] && b[1] == s[pos + 1] && b[2] == s[pos + 2] && b[3] == s[pos + 3] && b[4] == s[pos + 4];
    NotYet(s, pos, 0, 0);
    NotYet(s, pos + 1, 0, 1);
    NotYet(s, pos + 2, 0, 2);
    NotYet(s, pos + 3, 0, 3);
    NotYet(s, pos + 4, 0, 4);
    assert b[5] == s[pos + 5];
    if |b| == 6 {
      Found(s, pos + 5, 1, 5, m);
    } else {
      assert b[6] == s[pos + 6];
      NotYet(s, pos + 5, 0, 5);
      Found(s, pos + 6, 1, 6, m);
    }
  }

  /** A bit that completes no mode, and one that does. */
  lemma NotYet(s: Bits, pos: nat, v: nat, n: nat)
    requires pos < |s| && n < 7
    requires ModeOf(2 * v + (if s[pos] then 1 else 0), n + 1) == []
    ensures ParseMode(s, pos, v, n) == ParseMode(s, pos + 1, 2 * v + (if s[pos] then 1 else 0), n + 1)
  {
  }

  lemma Found(s: Bits, pos: nat, v: nat, n: nat, m: Mode)
    requires pos < |s| && n < 7
    requires ModeOf(2 * v + (if s[pos] then 1 else 0), n + 1) == [m]
    ensures ParseMode(s, pos, v, n) == ReadMode(m, pos + 1)
  {
  }

  lemma ModeBitsSpelled(m: Mode)
    requires m.Vertical? ==> -3 <= m.d <= 3
    ensures ModeBits(m) == match m
              case Horizontal => [false, false, true]
              case Pass => [false, false, false, true]
              case Vertical(d) =>
                if d == 0 then [true]
                else if d == 1 then [false, true, true]
                else if d == -1 then [false, true, false]
                else if d == 2 then [false, false, false, false, true, true]
                else if d == -2 then [false, false, false, false, true, false]
                else if d == 3 then [false, false, false, false, false, true, true]
                else [false, false, false, false, false, true, false]
  {
    hide LsbBits;
    BitsNil();
    LsbBitsCons(0, 1); LsbBitsCons(1, 1); LsbBitsCons(1, 2); LsbBitsCons(3, 2); LsbBitsCons(2, 2);
    LsbBitsCons(2, 3); LsbBitsCons(4, 3); LsbBitsCons(6, 3); LsbBitsCons(4, 4); LsbBitsCons(8, 4); LsbBitsCons(12, 4);
    LsbBitsCons(8, 5); LsbBitsCons(24, 5); LsbBitsCons(16, 6); LsbBitsCons(48, 6); LsbBitsCons(32, 7); LsbBitsCons(96, 7);
  }

  lemma BitsNil()
    ensures LsbBits(0, 0) == []
  {
  }

  /** find_b's scan: the first reference element right of `a0` that begins a run of the
      colour opposite to `color`; |ref| if there is none. */
  function FirstB(ref: seq<nat>, a0: int, color: bool, k: nat): (r: nat)
    requires k <= |ref|
    ensures k <= r <= |ref|
    ensures r < |ref| ==> ref[r] > a0 && (r % 2 == 0) == !color
    ensures forall j :: k <= j < r ==> !(ref[j] > a0 && (j % 2 == 0) == !color)
    decreases |ref| - k
  {
    if k == |ref| then k
    else if ref[k] > a0 && (k % 2 == 0) == !color then k
    else FirstB(ref, a0, color, k + 1)
  }

  /** Element k of a reference line; beyond the list every element is the width. */
  function Ref(ref: seq<nat>, w: nat, k: nat): nat {
    if k < |ref| then ref[k] else w
  }

  function Start(a0: int): nat {
    if a0 < 0 then 0 else a0
  }

  /** A coding position: before the line, or on a pixel of the current colour. */
  ghost predicate Position(row: Row, a0: int, color: bool) {
    -1 <= a0 < |row| && if a0 < 0 then !color else row[a0] == color
  }

  /** Where coding goes from `a0`: the mode, the bits, the next position and colour. */
  datatype Step = Step(bits: Bits, a0: int, color: bool)

  function EncodeStep(ref: seq<nat>, row: Row, a0: int, color: bool): Step
    requires -1 <= a0 < |row|
  {
    var a1 := NextChange(row, Start(a0), color);
    var k := FirstB(ref, a0, color, 0);
    var b1, b2 := Ref(ref, |row|, k), Ref(ref, |row|, k + 1);
    if b2 < a1 then Step(ModeBits(Pass), b2, color)
    else if -3 <= a1 - b1 <= 3 then Step(ModeBits(Vertical(a1 - b1)), a1, !color)
    else
      var a2 := NextChange(row, a1, !color);
      Step(ModeBits(Horizontal) + (Run(color, a1 - Start(a0)) + Run(!color, a2 - a1)), a2, color)
  }

  /** Coding moves right and keeps to pixels of the current colour. */
  lemma StepAdvances(ref: seq<nat>, row: Row, a0: int, color: bool)
    requires Increasing(ref)
    requires Position(row, a0, color)
    ensures var t := EncodeStep(ref, row, a0, color);
            a0 < t.a0 <= |row| && (t.a0 < |row| ==> Position(row, t.a0, t.color))
  {
    var a1 := NextChange(row, Start(a0), color);
    var k := FirstB(ref, a0, color, 0);
    if k + 1 < |ref| { assert ref[k] < ref[k + 1]; }
  }

  function Enc2D(ref: seq<nat>, row: Row, a0: int, color: bool): Bits
    requires Increasing(ref)
    requires a0 < |row| ==> Position(row, a0, color)
    decreases |row| - a0
  {
    if a0 >= |row| then []
    else
      StepAdvances(ref, row, a0, color);
      var t := EncodeStep(ref, row, a0, color);
      t.bits + Enc2D(ref, row, t.a0, t.color)
  }

  /** Where decoding goes: failure, or the line so far with the next cursor, position and
      colour. */
  datatype Decoded = Failed(pos: nat) | Next(row: Row, pos: nat, a0: nat, color: bool)

  function DecodeStep(s: Bits, pos: nat, ref: seq<nat>, row: Row, a0: int, color: bool): (r: Decoded)
    requires pos <= |s|
    ensures pos <= r.pos <= |s| && (pos < |s| ==> pos < r.pos)
    ensures r.Next? ==> pos < r.pos && |r.row| == |row|
  {
    var w := |row|;
    var k := FirstB(ref, a0, color, 0);
    var b1, b2 := Ref(ref, w, k), Ref(ref, w, k + 1);
    var m := ParseMode(s, pos, 0, 0);
    if m.NoMode? then Failed(m.pos)
    else
      var start := Start(a0);
      match m.mode
      case Pass => Next(if color then SetRange(row, start, b2) else row, m.pos, b2, color)
      case Vertical(d) =>
        var a1 := if b1 + d < 0 then 0 else if b1 + d > w then w else b1 + d;
        Next(if color then SetRange(row, start, a1) else row, m.pos, a1, !color)
      case Horizontal =>
        var r1 := ReadRun(s, m.pos, color, 0);
        var r2 := ReadRun(s, r1.pos, !color, 0);
        if r1.run < 0 || r2.run < 0 then Failed(r2.pos)
        else
          var a1 := if start + r1.run > w then w else start + r1.run;
          var a2 := if a1 + r2.run > w then w else a1 + r2.run;
          Next(if color then SetRange(row, start, a1) else SetRange(row, a1, a2), r2.pos, a2, color)
  }

  function Dec2D(s: Bits, pos: nat, ref: seq<nat>, row: Row, a0: int, color: bool): (r: RowResult)
    requires pos <= |s|
    ensures pos <= r.pos <= |s| && (a0 < |row| && (r.RowOk? || pos < |s|) ==> pos < r.pos)
    ensures r.RowOk? ==> |r.row| == |row|
    decreases |s| - pos
  {
    if a0 >= |row| then RowOk(row, pos)
    else
      var t := DecodeStep(s, pos, ref, row, a0, color);
      if t.Failed? then RowBad(t.pos) else Dec2D(s, t.pos, ref, t.row, t.a0, t.color)
  }

  /** One coding step is undone by one decoding step. */
  lemma StepRoundTrip(s: Bits, pos: nat, ref: seq<nat>, row: Row, a0: int, color: bool)
    requires Increasing(ref)
    requires Position(row, a0, color) && |row| <= RUN_CAP
    requires At(s, pos, EncodeStep(ref, row, a0, color).bits)
    ensures var t := EncodeStep(ref, row, a0, color);
            a0 < t.a0 <= |row| &&
            DecodeStep(s, pos, ref, Upto(row, Start(a0)), a0, color)
              == Next(Upto(row, t.a0), pos + |t.bits|, t.a0, t.color)
  {
    hide At, ModeBits, Run, ReadRun, ParseMode, Upto, SetRange, NextChange, FirstB, DecodeStep;
    StepAdvances(ref, row, a0, color);
    var a1: int := NextChange(row, Start(a0), color);
    var k := FirstB(ref, a0, color, 0);
    var b1: int, b2: int := Ref(ref, |row|, k), Ref(ref, |row|, k + 1);
    if b2 < a1 {
      DecodesPass(s, pos, ref, row, a0, color);
    } else if -3 <= a1 - b1 <= 3 {
      DecodesVertical(s, pos, ref, row, a0, color);
    } else {
      DecodesHorizontal(s, pos, ref, row, a0, color);
    }
  }

  lemma DecodesPass(s: Bits, pos: nat, ref: seq<nat>, row: Row, a0: int, color: bool)
    requires -1 <= a0 < |row|
    requires var b2 := Ref(ref, |row|, FirstB(ref, a0, color, 0) + 1);
             Start(a0) <= b2 < NextChange(row, Start(a0), color)
    requires At(s, pos, ModeBits(Pass))
    ensures var b2 := Ref(ref, |row|, FirstB(ref, a0, color, 0) + 1);
            pos <= |s| && DecodeStep(s, pos, ref, Upto(row, Start(a0)), a0, color)
              == Next(Upto(row, b2), pos + |ModeBits(Pass)|, b2, color)
  {
    hide At, ModeBits, ReadRun, ParseMode, Upto, SetRange, NextChange, FirstB;
    AtWithin(s, pos, ModeBits(Pass));
    ReadsMode(s, pos, Pass);
    UptoExtend(row, Start(a0), Ref(ref, |row|, FirstB(ref, a0, color, 0) + 1), color);
  }

  lemma DecodesVertical(s: Bits, pos: nat, ref: seq<nat>, row: Row, a0: int, color: bool)
    requires -1 <= a0 < |row|
    requires var d: int := NextChange(row, Start(a0), color) - Ref(ref, |row|, FirstB(ref, a0, color, 0));
             -3 <= d <= 3 && At(s, pos, ModeBits(Vertical(d)))
    ensures var a1 := NextChange(row, Start(a0), color);
            var d: int := a1 - Ref(ref, |row|, FirstB(ref, a0, color, 0));
            pos <= |s| && DecodeStep(s, pos, ref, Upto(row, Start(a0)), a0, color)
              == Next(Upto(row, a1), pos + |ModeBits(Vertical(d))|, a1, !color)
  {
    hide At, ModeBits, ReadRun, ParseMode, Upto, SetRange, NextChange, FirstB;
    var a1: int := NextChange(row, Start(a0), color);
    var d := a1 - Ref(ref, |row|, FirstB(ref, a0, color, 0));
    AtWithin(s, pos, ModeBits(Vertical(d)));
    ReadsMode(s, pos, Vertical(d));
    UptoExtend(row, Start(a0), a1, color);
  }

  lemma DecodesHorizontal(s: Bits, pos: nat, ref: seq<nat>, row: Row, a0: int, color: bool)
    requires -1 <= a0 < |row| <= RUN_CAP
    requires var start := Start(a0); var a1 := NextChange(row, start, color); var a2 := NextChange(row, a1, !color);
             At(s, pos, ModeBits(Horizontal) + (Run(color, a1 - start) + Run(!color, a2 - a1)))
    ensures var start := Start(a0); var a1 := NextChange(row, start, color); var a2 := NextChange(row, a1, !color);
            var bits := ModeBits(Horizontal) + (Run(color, a1 - start) + Run(!color, a2 - a1));
            pos <= |s| && DecodeStep(s, pos, ref, Upto(row, Start(a0)), a0, color)
              == Next(Upto(row, a2), pos + |bits|, a2, color)
  {
    hide At, ModeBits, Run, ReadRun, ParseMode, Upto, SetRange, NextChange, FirstB;
    HorizontalRoundTrip(s, pos, row, Start(a0), NextChange(row, Start(a0), color), color);
  }

  lemma HorizontalRoundTrip(s: Bits, pos: nat, row: Row, start: nat, a1: nat, color: bool)
    requires start <= a1 <= |row| <= RUN_CAP && a1 == NextChange(row, start, color)
    requires var a2 := NextChange(row, a1, !color);
             At(s, pos, ModeBits(Horizontal) + (Run(color, a1 - start) + Run(!color, a2 - a1)))
    ensures var a2 := NextChange(row, a1, !color);
            var x, y := Run(color, a1 - start), Run(!color, a2 - a1);
            var p := pos + |ModeBits(Horizontal)|;
            && p + |x| + |y| <= |s|
            && ParseMode(s, pos, 0, 0) == ReadMode(Horizontal, p)
            && ReadRun(s, p, color, 0) == Got(a1 - start, p + |x|)
            && ReadRun(s, p + |x|, !color, 0) == Got(a2 - a1, p + |x| + |y|)
            && Upto(row, a2) == if color then SetRange(Upto(row, start), start, a1) else SetRange(Upto(row, start), a1, a2)
  {
    hide At, ModeBits, Run, ReadRun, ParseMode, Upto, SetRange, NextChange;
    var a2 := NextChange(row, a1, !color);
    var x, y := Run(color, a1 - start), Run(!color, a2 - a1);
    var p := pos + |ModeBits(Horizontal)|;
    AtSplit(s, pos, ModeBits(Horizontal), x + y);
    AtSplit(s, p, x, y);
    AtWithin(s, p + |x|, y);
    ReadsMode(s, pos, Horizontal);
    RunRoundTrip(s, p, color, a1 - start, 0);
    RunRoundTrip(s, p + |x|, !color, a2 - a1, 0);
    UptoExtend(row, start, a1, color);
    UptoExtend(row, a1, a2, !color);
  }

  /** Decoding a two-dimensionally coded line against the same reference gives the line
      back and stops at its last bit. */
  lemma {:induction false} RoundTrip2D(s: Bits, pos: nat, ref: seq<nat>, row: Row, a0: int, color: bool)
    requires Increasing(ref)
    requires a0 <= |row| && (a0 < |row| ==> Position(row, a0, color)) && |row| <= RUN_CAP
    requires At(s, pos, Enc2D(ref, row, a0, color))
    ensures Dec2D(s, pos, ref, Upto(row, Start(a0)), a0, color)
         == RowOk(row, pos + |Enc2D(ref, row, a0, color)|)
    decreases |row| - a0
  {
    hide *;
    AtWithin(s, pos, Enc2D(ref, row, a0, color));
    if a0 == |row| {
      Ends2D(s, pos, ref, row, color);
    } else {
      StepAdvances(ref, row, a0, color);
      StepFirst2D(ref, row, a0, color);
      var t := EncodeStep(ref, row, a0, color);
      AtSplit(s, pos, t.bits, Enc2D(ref, row, t.a0, t.color));
      DecodesStep(s, pos, ref, row, a0, color);
      RoundTrip2D(s, pos + |t.bits|, ref, row, t.a0, t.color);
    }
  }

  lemma Ends2D(s: Bits, pos: nat, ref: seq<nat>, row: Row, color: bool)
    requires pos <= |s| && Increasing(ref)
    ensures Enc2D(ref, row, |row|, color) == []
    ensures Start(|row|) == |row|
    ensures Dec2D(s, pos, ref, Upto(row, |row|), |row|, color) == RowOk(row, pos)
  {
    UptoEnds(row);
    hide Upto;
  }

  lemma StepFirst2D(ref: seq<nat>, row: Row, a0: int, color: bool)
    requires Increasing(ref) && Position(row, a0, color)
    ensures var t := EncodeStep(ref, row, a0, color);
            -1 <= a0 < |row| && (t.a0 < |row| ==> Position(row, t.a0, t.color))
            && Enc2D(ref, row, a0, color) == t.bits + Enc2D(ref, row, t.a0, t.color)
  {
    StepAdvances(ref, row, a0, color);
    hide EncodeStep;
  }

  lemma DecodesStep(s: Bits, pos: nat, ref: seq<nat>, row: Row, a0: int, color: bool)
    requires Increasing(ref)
    requires Position(row, a0, color) && |row| <= RUN_CAP
    requires At(s, pos, EncodeStep(ref, row, a0, color).bits)
    ensures var t := EncodeStep(ref, row, a0, color);
            pos + |t.bits| <= |s| && a0 < t.a0 && Start(t.a0) == t.a0 &&
            Dec2D(s, pos, ref, Upto(row, Start(a0)), a0, color)
              == Dec2D(s, pos + |t.bits|, ref, Upto(row, Start(t.a0)), t.a0, t.color)
  {
    hide At, EncodeStep, DecodeStep, Upto;
    AtWithin(s, pos, EncodeStep(ref, row, a0, color).bits);
    StepRoundTrip(s, pos, ref, row, a0, color);
  }
}
