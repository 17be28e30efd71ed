/** The page round trip, and what the decoder guarantees on arbitrary bits. */
module T4PageProofs {
  import opened Arithmetic
  import opened BitIo
  import opened T4Codes
  import opened T4Runs
  import opened T4Rows
  import opened T4Page

  // ---------------------------------------------------------------- EOLs

  lemma EolSpelled(scheme: Scheme, is2d: bool)
    ensures Eol(scheme, is2d) == Zeros(11) + (if scheme.Mr? then [true, !is2d] else [true])
  {
    TagBits();
    hide LsbBits;
    if scheme.Mr? { ElevenZeros(if is2d then 1 else 3, 2); } else { ElevenZeros(1, 1); }
  }

  lemma TagBits()
    ensures LsbBits(1, 1) == [true] && LsbBits(1, 2) == [true, false] && LsbBits(3, 2) == [true, true]
  {
  }

  lemma ElevenZeros(v: nat, k: nat)
    ensures LsbBits(2048 * v, 11 + k) == Zeros(11) + LsbBits(v, k)
  {
    SmallPowers();
    hide LsbBits, Pow;
    LsbBitsZero(11);
    LsbBitsShifted(0, v, 11, k);
  }

  lemma {:induction false} ZeroRunIs(s: Bits, pos: nat, n: nat)
    requires pos + n < |s|
    requires forall i :: pos <= i < pos + n ==> !s[i]
    requires s[pos + n]
    ensures ZeroRun(s, pos) == n
    decreases n
  {
    if n > 0 { ZeroRunIs(s, pos + 1, n - 1); }
  }

  /** An EOL is found behind any number of FILL zeros, with its tag. */
  lemma ReadsEol(scheme: Scheme, s: Bits, pos: nat, fill: nat, is2d: bool)
    requires At(s, pos, Zeros(fill) + Eol(scheme, is2d))
    ensures pos + fill + EolLength(scheme) <= |s|
    ensures ReadEol(scheme, s, pos) == EolRead(scheme.Mr? && !is2d, pos + fill + EolLength(scheme))
  {
    var b := Zeros(fill) + Eol(scheme, is2d);
    EolSpelled(scheme, is2d);
    hide Eol;
    AtEach(s, pos, b);
    var n := fill + 11;
    forall i | pos <= i < pos + n
      ensures !s[i]
    {
      assert s[pos + (i - pos)] == b[i - pos];
    }
    assert s[pos + n] == b[n];
    if scheme.Mr? { assert s[pos + (n + 1)] == b[n + 1]; }
    ZeroRunIs(s, pos, n);
  }

  /** Where a one follows within eleven bits there is no EOL. */
  lemma ReadsNoEol(scheme: Scheme, s: Bits, pos: nat, k: nat)
    requires k < 11 && pos + k < |s| && s[pos + k]
    ensures ReadEol(scheme, s, pos) == NoEol
  {
  }

  // ---------------------------------------------------------------- line starts

  /** `b` has a one among its first eleven bits. */
  ghost predicate StartsSoon(b: Bits) {
    exists k :: 0 <= k < 11 && k < |b| && b[k]
  }

  lemma StartsSoonAppend(a: Bits, b: Bits)
    requires StartsSoon(a)
    ensures StartsSoon(a + b)
  {
    var k :| 0 <= k < 11 && k < |a| && a[k];
    assert (a + b)[k];
  }

  lemma {:induction false} NonzeroHasOne(v: nat, n: nat)
    requires n > 0 && 0 < v % Pow(2, n)
    ensures exists k :: 0 <= k < n && LsbBits(v, n)[k]
    decreases n
  {
    SmallPowers();
    LsbBitsCons(v, n);
    if v % 2 == 1 {
      assert LsbBits(v, n)[0];
    } else {
      PowStep(n);
      HalfMod(v, Pow(2, n - 1));
      hide Pow, LsbBits;
      assert n != 1;
      NonzeroHasOne(v / 2, n - 1);
      var k :| 0 <= k < n - 1 && LsbBits(v / 2, n - 1)[k];
      assert LsbBits(v, n)[k + 1];
    }
  }

  lemma HalfMod(v: nat, p: nat)
    requires p >= 1 && v % 2 == 0
    ensures v % (2 * p) == 2 * ((v / 2) % p)
  {
    var q, r := (v / 2) / p, (v / 2) % p;
    assert v / 2 == q * p + r;
    assert q * (2 * p) == 2 * (q * p);
    assert v == q * (2 * p) + 2 * r;
    DivModUnique(q, 2 * p, 2 * r);
  }

  /** White codes start soon. */
  lemma WhiteStartsSoon(i: nat)
    requires i < TABLE_LEN
    ensures StartsSoon(CodeBits(false, i))
  {
    hide CodeBits;
    WhiteHasOne(i);
  }

  /** A white code has a one among its first eight bits. */
  lemma WhiteHasOne(i: nat)
    requires i < TABLE_LEN
    ensures exists k :: 0 <= k < 8 && k < |CodeBits(false, i)| && CodeBits(false, i)[k]
  {
    var e := Entry(false, i);
    RowsInTree(false, i, seq(LONGEST, _ => false));
    hide Entry, Slot;
    SizeIsPower(e.length);
    CodeHasOne(e.code, e.length);
    assert CodeBits(false, i) == LsbBits(e.code, e.length);
    var k :| 0 <= k < 8 && k < e.length && LsbBits(e.code, e.length)[k];
    assert CodeBits(false, i)[k];
  }

  lemma CodeHasOne(c: nat, n: nat)
    requires 1 <= n <= LONGEST && c < Pow(2, n) && 0 < c % 256
    ensures exists k :: 0 <= k < 8 && k < n && LsbBits(c, n)[k]
  {
    SmallPowers();
    hide Pow, LsbBits;
    if n <= 8 {
      NonzeroHasOne(c, n);
      var k :| 0 <= k < n && LsbBits(c, n)[k];
      assert k < 8;
    } else {
      NonzeroHasOne(c, 8);
      LsbBitsSplit(c, 8, n - 8);
      LsbBitsSplit(c, 8, 0);
      var k :| 0 <= k < 8 && LsbBits(c, 8)[k];
      assert LsbBits(c, n)[k];
    }
  }

  lemma RunStartsSoon(span: nat)
    ensures StartsSoon(Run(false, span))
  {
    hide CodeBits;
    if span >= 2560 + 64 {
      WhiteStartsSoon(103);
      StartsSoonAppend(CodeBits(false, 103), Run(false, span - 2560));
    } else if span >= 64 {
      WhiteStartsSoon(63 + span / 64);
      StartsSoonAppend(CodeBits(false, 63 + span / 64), CodeBits(false, span % 64));
    } else {
      WhiteStartsSoon(span);
    }
  }

  lemma ModeStartsSoon(m: Mode)
    requires m.Vertical? ==> -3 <= m.d <= 3
    ensures StartsSoon(ModeBits(m))
  {
    ModeBitsSpelled(m);
    var b := ModeBits(m);
    hide ModeBits;
    assert b[0] || b[1] || b[2] || b[3] || b[4] || b[5];
  }

  /** A coded line never looks like an EOL. */
  lemma BodyStartsSoon(scheme: Scheme, c: Coder, row: Row)
    requires Increasing(c.ref) && row != []
    ensures StartsSoon(RowBody(scheme, c, row))
  {
    hide Run, ModeBits, StartsSoon, NextChange, FirstB;
    if scheme.Mmr? || (scheme.Mr? && c.is2d) {
      StepFirst2D(c.ref, row, -1, false);
      StepStartsSoon(c.ref, row);
      var t := EncodeStep(c.ref, row, -1, false);
      StartsSoonAppend(t.bits, Enc2D(c.ref, row, t.a0, t.color));
    } else {
      RunFirst1D(row, 0, false);
      var b := NextChange(row, 0, false);
      RunStartsSoon(b);
      StartsSoonAppend(Run(false, b), Enc1D(row, b, true));
    }
  }

  lemma StepStartsSoon(ref: seq<nat>, row: Row)
    requires row != []
    ensures StartsSoon(EncodeStep(ref, row, -1, false).bits)
  {
    hide Run, ModeBits, StartsSoon, NextChange, FirstB;
    var a1: int := NextChange(row, 0, false);
    var k := FirstB(ref, -1, false, 0);
    var b1: int, b2: int := Ref(ref, |row|, k), Ref(ref, |row|, k + 1);
    if b2 < a1 {
      ModeStartsSoon(Pass);
    } else if -3 <= a1 - b1 <= 3 {
      ModeStartsSoon(Vertical(a1 - b1));
    } else {
      ModeStartsSoon(Horizontal);
      StartsSoonAppend(ModeBits(Horizontal), Run(false, a1) + Run(true, NextChange(row, a1, true) - a1));
    }
  }

  lemma NoEolAtBody(scheme: Scheme, s: Bits, pos: nat, b: Bits)
    requires At(s, pos, b) && StartsSoon(b)
    ensures pos <= |s| && ReadEol(scheme, s, pos) == NoEol
  {
    AtEach(s, pos, b);
    var k :| 0 <= k < 11 && k < |b| && b[k];
    assert s[pos + k] == b[k];
    ReadsNoEol(scheme, s, pos, k);
  }

  // ---------------------------------------------------------------- one line

  ghost predicate Is2D(scheme: Scheme, c: Coder) {
    scheme.Mmr? || (scheme.Mr? && c.is2d)
  }

  /** A line body is decoded by the matching row decoder. */
  lemma DecodesBody(scheme: Scheme, s: Bits, pos: nat, c: Coder, row: Row)
    requires Increasing(c.ref) && 1 <= |row| <= RUN_CAP
    requires At(s, pos, RowBody(scheme, c, row))
    ensures pos <= |s|
    ensures var p := pos + |RowBody(scheme, c, row)|;
            if Is2D(scheme, c) then Dec2D(s, pos, c.ref, White(|row|), -1, false) == RowOk(row, p)
            else Dec1D(s, pos, White(|row|), 0, false) == RowOk(row, p)
  {
    hide At, Enc1D, Enc2D, Dec1D, Dec2D;
    AtWithin(s, pos, RowBody(scheme, c, row));
    UptoEnds(row);
    if Is2D(scheme, c) {
      RoundTrip2D(s, pos, c.ref, row, -1, false);
    } else {
      RoundTrip1D(s, pos, row, 0, false);
    }
  }

  /** T.4: the EOL before a line is the only one read, with the line's own tag. */
  lemma ReadsOneEol(scheme: Scheme, s: Bits, pos: nat, fill: nat, is2d: bool, body: Bits)
    requires At(s, pos, Zeros(fill) + Eol(scheme, is2d)) && StartsSoon(body)
    requires At(s, pos + fill + EolLength(scheme), body)
    ensures pos <= |s|
    ensures ReadEols(scheme, s, pos, false, 0) == EolsRead(scheme.Mr? && !is2d, 1, pos + fill + EolLength(scheme))
  {
    hide At, Eol, StartsSoon, ReadEol;
    AtWithin(s, pos, Zeros(fill) + Eol(scheme, is2d));
    ReadsEol(scheme, s, pos, fill, is2d);
    NoEolAtBody(scheme, s, pos + fill + EolLength(scheme), body);
  }

  /** A page is stopped when it gets too long. */
  function Limited(q: Page): Page {
    if |q.rows| > MAX_ROWS then q.(status := Stopped) else q
  }

  lemma WithinLimit(p: Page, row: Row, pos: nat)
    ensures |p.rows| < MAX_ROWS ==> Limited(Emit(p, row, pos, false)) == Emit(p, row, pos, false)
  {
    hide Runs;
  }

  /** T.4: one turn of the decoder undoes one line of the coder. */
  lemma TurnDecodesLine(scheme: Scheme, minRowBits: int, s: Bits, c: Coder, row: Row, p: Page)
    requires !scheme.Mmr? && Increasing(c.ref) && 1 <= |row| <= RUN_CAP
    requires At(s, p.pos, RowBits(scheme, minRowBits, c, row))
    requires p.pos + |RowBits(scheme, minRowBits, c, row)| + 8 <= |s|
    requires p.status.Running? && p.ref == c.ref
    ensures RowTurn(scheme, |row|, s, p) == Limited(Emit(p, row, p.pos + |RowBits(scheme, minRowBits, c, row)|, false))
  {
    hide At, Eol, StartsSoon, RowBody, ReadEols, Dec1D, Dec2D, Runs;
    var fill := FillLength(minRowBits, c.rowBits);
    var body := RowBody(scheme, c, row);
    AtSplit(s, p.pos, Zeros(fill) + Eol(scheme, c.is2d), body);
    BodyStartsSoon(scheme, c, row);
    ReadsOneEol(scheme, s, p.pos, fill, c.is2d, body);
    DecodesBody(scheme, s, p.pos + fill + EolLength(scheme), c, row);
  }

  lemma TurnDecodesLineMmr(s: Bits, c: Coder, row: Row, p: Page)
    requires Increasing(c.ref) && 1 <= |row| <= RUN_CAP
    requires At(s, p.pos, RowBody(Mmr, c, row))
    requires p.pos + |RowBody(Mmr, c, row)| + 8 <= |s|
    requires p.status.Running? && p.ref == c.ref
    ensures RowTurnMmr(|row|, s, p) == Limited(Emit(p, row, p.pos + |RowBody(Mmr, c, row)|, false))
  {
    hide At, StartsSoon, RowBody, ReadEol, Dec2D, Runs;
    BodyStartsSoon(Mmr, c, row);
    NoEolAtBody(Mmr, s, p.pos, RowBody(Mmr, c, row));
    DecodesBody(Mmr, s, p.pos, c, row);
  }

  // ---------------------------------------------------------------- the end of the page

  lemma {:induction false} ReadsEols(scheme: Scheme, s: Bits, pos: nat, tag1d: bool, n: nat)
    requires 1 <= n <= 6
    requires At(s, pos, Eols(scheme, n))
    ensures pos <= |s| && ReadEols(scheme, s, pos, tag1d, 6 - n).count == 6
    decreases n
  {
    hide At, Eol, ReadEol;
    var e := Eol(scheme, false);
    AtSplit(s, pos, e, Eols(scheme, n - 1));
    AtWithin(s, pos, e);
    assert Zeros(0) + e == e;
    ReadsEol(scheme, s, pos, 0, false);
    if n > 1 {
      ReadsEols(scheme, s, pos + EolLength(scheme), if scheme.Mr? then true else tag1d, n - 1);
    }
  }

  lemma TurnEnds(scheme: Scheme, width: nat, minRowBits: int, rowBits: nat, s: Bits, p: Page)
    requires 1 <= width && p.status.Running?
    requires At(s, p.pos, EndBits(scheme, minRowBits, rowBits))
    ensures p.pos <= |s| && Turn(scheme, width, s, p) == p.(status := Ended)
  {
    hide At, Eol, ReadEol, Eols, Dec1D, Dec2D;
    var fill := FillLength(minRowBits, rowBits);
    var first := Zeros(fill) + Eol(scheme, scheme.Mmr?);
    var rest := if scheme.Mmr? then Eol(scheme, true) else Eols(scheme, 5);
    AtSplit(s, p.pos, first, rest);
    AtWithin(s, p.pos, first);
    ReadsEol(scheme, s, p.pos, fill, scheme.Mmr?);
    if !scheme.Mmr? {
      ReadsEols(scheme, s, p.pos + fill + EolLength(scheme), scheme.Mr?, 5);
    }
  }

  // ---------------------------------------------------------------- the page

  lemma PageIsLong(scheme: Scheme, k: int, minRowBits: int, c: Coder, width: nat, rows: seq<Row>)
    requires ValidCoder(c, width) && AllWidth(rows, width)
    ensures |PageBits(scheme, k, minRowBits, c, width, rows)| >= 8
    decreases |rows|
  {
    hide Eol, Eols, RowBits, NextCoder;
    if rows != [] {
      assert |rows[0]| == width;
      NextCoderValid(scheme, k, c, rows[0]);
      PageIsLong(scheme, k, minRowBits, NextCoder(scheme, k, c, rows[0]), width, rows[1..]);
    }
  }

  lemma TurnDecodes(scheme: Scheme, minRowBits: int, s: Bits, c: Coder, row: Row, p: Page)
    requires Increasing(c.ref) && 1 <= |row| <= RUN_CAP
    requires At(s, p.pos, RowBits(scheme, minRowBits, c, row))
    requires p.pos + |RowBits(scheme, minRowBits, c, row)| + 8 <= |s|
    requires p.status.Running? && p.ref == c.ref
    ensures Turn(scheme, |row|, s, p) == Limited(Emit(p, row, p.pos + |RowBits(scheme, minRowBits, c, row)|, false))
    ensures |p.rows| < MAX_ROWS ==> Turn(scheme, |row|, s, p) == Emit(p, row, p.pos + |RowBits(scheme, minRowBits, c, row)|, false)
  {
    if scheme.Mmr? { TurnDecodesLineMmr(s, c, row, p); } else { TurnDecodesLine(scheme, minRowBits, s, c, row, p); }
    WithinLimit(p, row, p.pos + |RowBits(scheme, minRowBits, c, row)|);
    hide *;
  }

  lemma NextReference(scheme: Scheme, k: int, c: Coder, row: Row, p: Page, pos: nat)
    requires Increasing(c.ref)
    ensures Emit(p, row, pos, false).ref == NextCoder(scheme, k, c, row).ref
  {
    hide Runs, RowBody;
  }

  lemma PageFirstLine(scheme: Scheme, k: int, minRowBits: int, c: Coder, width: nat, rows: seq<Row>)
    requires ValidCoder(c, width) && AllWidth(rows, width) && rows != []
    ensures Increasing(c.ref) && |rows[0]| == width && ValidCoder(NextCoder(scheme, k, c, rows[0]), width) && AllWidth(rows[1..], width)
    ensures PageBits(scheme, k, minRowBits, c, width, rows)
         == RowBits(scheme, minRowBits, c, rows[0])
              + PageBits(scheme, k, minRowBits, NextCoder(scheme, k, c, rows[0]), width, rows[1..])
  {
    NextCoderValid(scheme, k, c, rows[0]);
    hide RowBits, NextCoder, EndBits;
  }

  /** Decoding a coded page gives exactly its lines, none of them damaged. */
  lemma {:induction false} PageRoundTripFrom(scheme: Scheme, k: int, minRowBits: int, c: Coder, width: nat, rows: seq<Row>, s: Bits, p: Page)
    requires 1 <= width <= RUN_CAP && ValidCoder(c, width) && AllWidth(rows, width)
    requires At(s, p.pos, PageBits(scheme, k, minRowBits, c, width, rows))
    requires p.status.Running? && p.ref == c.ref && |p.rows| + |rows| <= MAX_ROWS
    ensures p.pos <= |s|
    ensures var q := DecodePage(scheme, width, s, p);
            q.status.Ended? && q.rows == p.rows + rows && q.concealed == p.concealed + Zeros(|rows|)
    decreases |rows|
  {
    hide At, Turn, RowBits, NextCoder, EndBits, PageBits, ValidCoder, Runs, Increasing;
    AtWithin(s, p.pos, PageBits(scheme, k, minRowBits, c, width, rows));
    if rows == [] {
      LastPageBits(scheme, k, minRowBits, c, width);
      TurnEnds(scheme, width, minRowBits, c.rowBits, s, p);
      assert DecodePage(scheme, width, s, p) == p.(status := Ended);
    } else {
      PageFirstLine(scheme, k, minRowBits, c, width, rows);
      var row := rows[0];
      var bits := RowBits(scheme, minRowBits, c, row);
      var next := NextCoder(scheme, k, c, row);
      var rest := PageBits(scheme, k, minRowBits, next, width, rows[1..]);
      AtSplit(s, p.pos, bits, rest);
      PageIsLong(scheme, k, minRowBits, next, width, rows[1..]);
      AtWithin(s, p.pos + |bits|, rest);
      TurnDecodes(scheme, minRowBits, s, c, row, p);
      var q := Emit(p, row, p.pos + |bits|, false);
      NextReference(scheme, k, c, row, p, p.pos + |bits|);
      PageRoundTripFrom(scheme, k, minRowBits, next, width, rows[1..], s, q);
      assert p.rows + rows == q.rows + rows[1..];
      assert p.concealed + Zeros(|rows|) == q.concealed + Zeros(|rows| - 1);
    }
  }

  lemma LastPageBits(scheme: Scheme, k: int, minRowBits: int, c: Coder, width: nat)
    requires ValidCoder(c, width)
    ensures PageBits(scheme, k, minRowBits, c, width, []) == EndBits(scheme, minRowBits, c.rowBits)
  {
  }

  /** The page round trip: for every scheme, K, FILL setting and width up to 2^20, decoding
      a page's bits followed by anything ends the page with exactly the coded lines. */
  lemma PageRoundTrip(scheme: Scheme, k: int, minRowBits: int, width: nat, rows: seq<Row>, s: Bits)
    requires 1 <= width <= RUN_CAP && AllWidth(rows, width) && |rows| <= MAX_ROWS
    requires CodedPage(scheme, k, minRowBits, width, rows) <= s
    ensures var q := DecodePage(scheme, width, s, StartPage(width));
            q.status.Ended? && q.rows == rows && q.concealed == Zeros(|rows|)
  {
    StartCoderValid(scheme, width, k);
    PageRoundTripFrom(scheme, k, minRowBits, StartCoder(scheme, width, k), width, rows, s, StartPage(width));
    hide DecodePage, PageBits;
  }

  // ---------------------------------------------------------------- arbitrary bits

  /** The last undamaged line; white before there is one. */
  ghost function LastGood(rows: seq<Row>, concealed: seq<bool>, width: nat): Row
    requires |rows| == |concealed|
  {
    if rows == [] then White(width)
    else
      var n := |rows| - 1;
      if concealed[n] then LastGood(rows[..n], concealed[..n], width) else rows[n]
  }

  /** Every concealed line repeats the last undamaged one, every line is full width, and
      the reference is always the line emitted last. */
  ghost predicate Sound(p: Page, width: nat) {
    && |p.rows| == |p.concealed|
    && AllWidth(p.rows, width)
    && (forall i :: 0 <= i < |p.rows| && p.concealed[i] ==> p.rows[i] == LastGood(p.rows[..i], p.concealed[..i], width))
    && p.goodRow == LastGood(p.rows, p.concealed, width) && |p.goodRow| == width
    && p.ref == if p.rows == [] then [width] else Runs(p.rows[|p.rows| - 1], 0, false)
  }

  lemma EmitKeepsSound(p: Page, width: nat, row: Row, pos: nat, bad: bool)
    requires Sound(p, width) && |row| == width
    requires bad ==> row == p.goodRow
    ensures Sound(Emit(p, row, pos, bad), width)
  {
    hide Runs;
    var q := Emit(p, row, pos, bad);
    assert q.rows[..|p.rows|] == p.rows && q.concealed[..|p.rows|] == p.concealed;
    forall i | 0 <= i < |q.rows| && q.concealed[i]
      ensures q.rows[i] == LastGood(q.rows[..i], q.concealed[..i], width)
    {
      assert q.rows[..i] == p.rows[..i] && q.concealed[..i] == p.concealed[..i];
    }
  }

  lemma TurnKeepsSound(scheme: Scheme, width: nat, s: Bits, p: Page)
    requires 1 <= width && p.pos <= |s| && p.status.Running?
    requires Sound(p, width)
    ensures Sound(Turn(scheme, width, s, p), width)
  {
    hide Sound, ReadEols, ReadEol, Resync, Dec1D, Dec2D, Emit;
    if scheme.Mmr? {
      var r := Dec2D(s, p.pos, p.ref, White(width), -1, false);
      if r.RowOk? { EmitKeepsSound(p, width, r.row, r.pos, false); }
    } else {
      var e := ReadEols(scheme, s, p.pos, false, 0);
      var r1, r2 := Dec1D(s, e.pos, White(width), 0, false), Dec2D(s, e.pos, p.ref, White(width), -1, false);
      if r1.RowOk? { EmitKeepsSound(p, width, r1.row, r1.pos, false); }
      if r2.RowOk? { EmitKeepsSound(p, width, r2.row, r2.pos, false); }
      GoodRowWidth(p, width);
      EmitKeepsSound(p, width, p.goodRow, Resync(scheme, s, r1.pos), true);
      EmitKeepsSound(p, width, p.goodRow, Resync(scheme, s, r2.pos), true);
    }
    StatusKeepsSound(width);
  }

  lemma GoodRowWidth(p: Page, width: nat)
    requires Sound(p, width)
    ensures |p.goodRow| == width
  {
  }

  lemma StatusKeepsSound(width: nat)
    ensures forall p: Page, st: Status :: Sound(p, width) ==> Sound(p.(status := st), width)
  {
  }

  /** On arbitrary bits the decoder ends in a sound page. */
  lemma {:induction false} DecodeKeepsSound(scheme: Scheme, width: nat, s: Bits, p: Page)
    requires 1 <= width && (p.status.Running? ==> p.pos <= |s|)
    requires Sound(p, width)
    ensures Sound(DecodePage(scheme, width, s, p), width)
    decreases if p.status.Running? then 1 + |s| - p.pos else 0
  {
    hide Turn, Sound;
    if p.status.Running? {
      TurnKeepsSound(scheme, width, s, p);
      DecodeKeepsSound(scheme, width, s, Turn(scheme, width, s, p));
    }
  }
}
