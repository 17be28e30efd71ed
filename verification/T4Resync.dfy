/** What becomes of a page behind a damaged line (nf_t4.c: nf_t4_dec_put): decoding goes on at
    the next EOL, and only the damaged line is concealed. */
module T4Resync {
  import opened BitIo
  import opened T4Codes
  import opened T4Runs
  import opened T4Rows
  import opened T4Page
  import opened T4PageProofs

  // ---------------------------------------------------------------- where the next EOL begins

  /** Eleven zeros or more and a one. */
  ghost predicate EolAt(s: Bits, pos: nat) {
    exists z :: z >= 11 && EolOf(s, pos, z)
  }

  ghost predicate EolOf(s: Bits, pos: nat, z: nat) {
    pos + z < |s| && s[pos + z] && forall i :: pos <= i < pos + z ==> !s[i]
  }

  lemma ReadEolIs(scheme: Scheme, s: Bits, pos: nat)
    requires pos <= |s|
    ensures ReadEol(scheme, s, pos).EolRead? <==> EolAt(s, pos)
  {
    var z := ZeroRun(s, pos);
    if pos + z < |s| { assert EolOf(s, pos, z); }
    if y :| y >= 11 && EolOf(s, pos, y) { ZeroRunIs(s, pos, y); }
  }

  /** From a place on, the cursor comes to the first EOL, and beyond the end only if none
      begins while twelve bits are left. */
  lemma {:induction false} ResyncIsFirst(scheme: Scheme, s: Bits, pos: nat)
    requires pos <= |s|
    ensures var r := Resync(scheme, s, pos);
            if r <= |s| then EolAt(s, r) && forall j :: pos <= j < r ==> !EolAt(s, j)
            else forall j :: pos <= j && j + 12 <= |s| ==> !EolAt(s, j)
    decreases |s| - pos
  {
    hide EolAt, ReadEol;
    if |s| - pos >= 12 {
      ReadEolIs(scheme, s, pos);
      if ReadEol(scheme, s, pos).NoEol? { ResyncIsFirst(scheme, s, pos + 1); }
    }
  }

  /** The line decoder of a turn, and where it begins. */
  function LineRead(scheme: Scheme, width: nat, s: Bits, p: Page): RowResult
    requires 1 <= width && p.pos <= |s|
  {
    var e := ReadEols(scheme, s, p.pos, false, 0);
    if scheme.Mh? || e.tag1d || (p.rows == [] && e.count == 0) then Dec1D(s, e.pos, White(width), 0, false)
    else Dec2D(s, e.pos, p.ref, White(width), -1, false)
  }

  /** A line that cannot be decoded: the last good one is put in its place, and decoding goes
      on where the first EOL begins behind the place where the line broke off; the page ends
      only if none begins there while twelve bits are left. */
  lemma DamagedTurn(scheme: Scheme, width: nat, s: Bits, p: Page)
    requires !scheme.Mmr? && 1 <= width && p.pos <= |s| && p.status.Running?
    requires var e := ReadEols(scheme, s, p.pos, false, 0); e.count < 6 && e.pos + 8 <= |s|
    requires LineRead(scheme, width, s, p).RowBad?
    ensures var b := LineRead(scheme, width, s, p).pos; var q := RowTurn(scheme, width, s, p);
            && b <= |s| && q.rows == p.rows + [p.goodRow] && q.concealed == p.concealed + [true] && q.goodRow == p.goodRow
            && if exists j :: b <= j && j + 12 <= |s| && EolAt(s, j)
               then q.status.Running? && b <= q.pos && EolAt(s, q.pos) && forall j :: b <= j < q.pos ==> !EolAt(s, j)
               else q.status.Ended?
  {
    hide EolAt, Resync, Dec1D, Dec2D, ReadEols, Runs;
    var b := LineRead(scheme, width, s, p).pos;
    ResyncIsFirst(scheme, s, b);
    var y := Resync(scheme, s, b);
    if y <= |s| { EolIsLong(s, y); }
  }

  lemma EolIsLong(s: Bits, pos: nat)
    requires EolAt(s, pos)
    ensures pos + 12 <= |s|
  {
  }

  // ---------------------------------------------------------------- behind zeros

  /** Zeros before an EOL are FILL: starting there changes nothing but the cursor. */
  ghost predicate SamePage(p: Page, q: Page) {
    p == q.(pos := p.pos)
  }

  lemma {:induction false} ZeroRunBefore(s: Bits, y: nat, e: nat)
    requires y <= e <= |s| && forall i :: y <= i < e ==> !s[i]
    ensures ZeroRun(s, y) == e - y + ZeroRun(s, e)
    decreases e - y
  {
    if y < e { ZeroRunBefore(s, y + 1, e); }
  }

  lemma FilledTurn(scheme: Scheme, width: nat, s: Bits, p: Page, y: nat, e: nat)
    requires !scheme.Mmr? && 1 <= width && p.status.Running? && y <= e <= |s| && (forall i :: y <= i < e ==> !s[i])
    requires EolAt(s, e)
    ensures SamePage(RowTurn(scheme, width, s, p.(pos := y)), RowTurn(scheme, width, s, p.(pos := e)))
    ensures RowTurn(scheme, width, s, p.(pos := e)).status.Running? ==>
              RowTurn(scheme, width, s, p.(pos := y)) == RowTurn(scheme, width, s, p.(pos := e))
  {
    hide ReadEols, Dec1D, Dec2D, Resync, EolAt, Runs;
    SameEols(scheme, s, y, e);
  }

  lemma SameEols(scheme: Scheme, s: Bits, y: nat, e: nat)
    requires y <= e <= |s| && (forall i :: y <= i < e ==> !s[i]) && EolAt(s, e)
    ensures ReadEols(scheme, s, y, false, 0) == ReadEols(scheme, s, e, false, 0)
  {
    ReadEolIs(scheme, s, e);
    ZeroRunBefore(s, y, e);
    assert ReadEol(scheme, s, y) == ReadEol(scheme, s, e);
    hide ReadEol, EolAt;
  }

  lemma FilledPage(scheme: Scheme, width: nat, s: Bits, p: Page, y: nat, e: nat)
    requires !scheme.Mmr? && 1 <= width && p.status.Running? && y <= e <= |s| && (forall i :: y <= i < e ==> !s[i])
    requires EolAt(s, e)
    ensures SamePage(DecodePage(scheme, width, s, p.(pos := y)), DecodePage(scheme, width, s, p.(pos := e)))
  {
    FilledTurn(scheme, width, s, p, y, e);
    hide RowTurn, EolAt;
    var a, b := RowTurn(scheme, width, s, p.(pos := y)), RowTurn(scheme, width, s, p.(pos := e));
    assert DecodePage(scheme, width, s, p.(pos := y)) == DecodePage(scheme, width, s, a);
    assert DecodePage(scheme, width, s, p.(pos := e)) == DecodePage(scheme, width, s, b);
    if !b.status.Running? {
      assert DecodePage(scheme, width, s, a) == a && DecodePage(scheme, width, s, b) == b;
    }
  }

  // ---------------------------------------------------------------- a page up to a line

  /** Lines without the end of the page. */
  function LinesBits(scheme: Scheme, k: int, minRowBits: int, c: Coder, width: nat, rows: seq<Row>): Bits
    requires ValidCoder(c, width) && AllWidth(rows, width)
    decreases |rows|
  {
    if rows == [] then []
    else
      assert |rows[0]| == width;
      NextCoderValid(scheme, k, c, rows[0]);
      RowBits(scheme, minRowBits, c, rows[0]) + LinesBits(scheme, k, minRowBits, NextCoder(scheme, k, c, rows[0]), width, rows[1..])
  }

  /** The coder behind them. */
  function CoderAfter(scheme: Scheme, k: int, c: Coder, width: nat, rows: seq<Row>): (d: Coder)
    requires ValidCoder(c, width) && AllWidth(rows, width)
    ensures ValidCoder(d, width)
    decreases |rows|
  {
    if rows == [] then c
    else
      assert |rows[0]| == width;
      NextCoderValid(scheme, k, c, rows[0]);
      CoderAfter(scheme, k, NextCoder(scheme, k, c, rows[0]), width, rows[1..])
  }

  /** A page after undamaged lines. */
  ghost function PageAfter(p: Page, rows: seq<Row>, pos: nat, ref: seq<nat>): Page {
    p.(pos := pos, rows := p.rows + rows, concealed := p.concealed + Zeros(|rows|), ref := ref,
       goodRow := if rows == [] then p.goodRow else rows[|rows| - 1])
  }

  lemma FirstOfLines(scheme: Scheme, k: int, minRowBits: int, c: Coder, width: nat, rows: seq<Row>)
    requires ValidCoder(c, width) && AllWidth(rows, width) && rows != []
    ensures Increasing(c.ref) && |rows[0]| == width && AllWidth(rows[1..], width)
    ensures var d := NextCoder(scheme, k, c, rows[0]);
            && ValidCoder(d, width) && CoderAfter(scheme, k, c, width, rows) == CoderAfter(scheme, k, d, width, rows[1..])
            && LinesBits(scheme, k, minRowBits, c, width, rows)
                 == RowBits(scheme, minRowBits, c, rows[0]) + LinesBits(scheme, k, minRowBits, d, width, rows[1..])
  {
    NextCoderValid(scheme, k, c, rows[0]);
    hide RowBits, NextCoder;
  }

  lemma NoLines(scheme: Scheme, k: int, minRowBits: int, c: Coder, width: nat)
    requires ValidCoder(c, width)
    ensures LinesBits(scheme, k, minRowBits, c, width, []) == [] && CoderAfter(scheme, k, c, width, []) == c
  {
  }

  lemma PageAfterStep(p: Page, row: Row, pos: nat, rows: seq<Row>, end: nat, ref: seq<nat>)
    requires rows != [] && rows[0] == row
    ensures PageAfter(Emit(p, row, pos, false), rows[1..], end, ref) == PageAfter(p, rows, end, ref)
  {
    hide Runs;
    var q := Emit(p, row, pos, false);
    assert q.rows + rows[1..] == p.rows + rows;
    assert q.concealed + Zeros(|rows| - 1) == p.concealed + Zeros(|rows|);
  }

  /** Undamaged lines are decoded and decoding goes on behind them. */
  lemma {:induction false} LinesDecoded(scheme: Scheme, k: int, minRowBits: int, c: Coder, width: nat, rows: seq<Row>, s: Bits, p: Page)
    requires 1 <= width <= RUN_CAP && ValidCoder(c, width) && AllWidth(rows, width)
    requires At(s, p.pos, LinesBits(scheme, k, minRowBits, c, width, rows))
    requires p.pos + |LinesBits(scheme, k, minRowBits, c, width, rows)| + 8 <= |s|
    requires p.status.Running? && p.ref == c.ref && |p.rows| + |rows| <= MAX_ROWS
    ensures var end := p.pos + |LinesBits(scheme, k, minRowBits, c, width, rows)|;
            p.pos <= |s| && DecodePage(scheme, width, s, p)
                         == DecodePage(scheme, width, s, PageAfter(p, rows, end, CoderAfter(scheme, k, c, width, rows).ref))
    decreases |rows|
  {
    hide At, Turn, RowBits, NextCoder, LinesBits, CoderAfter, ValidCoder, Runs, Increasing;
    if rows == [] {
      NoLines(scheme, k, minRowBits, c, width);
      assert p.concealed + Zeros(0) == p.concealed && p.rows + [] == p.rows;
    } else {
      FirstOfLines(scheme, k, minRowBits, c, width, rows);
      var row := rows[0];
      var bits, next := RowBits(scheme, minRowBits, c, row), NextCoder(scheme, k, c, row);
      var rest := LinesBits(scheme, k, minRowBits, next, width, rows[1..]);
      AtSplit(s, p.pos, bits, rest);
      TurnDecodes(scheme, minRowBits, s, c, row, p);
      var q := Emit(p, row, p.pos + |bits|, false);
      NextReference(scheme, k, c, row, p, p.pos + |bits|);
      LinesDecoded(scheme, k, minRowBits, next, width, rows[1..], s, q);
      PageAfterStep(p, row, p.pos + |bits|, rows, p.pos + |bits + rest|, CoderAfter(scheme, k, c, width, rows).ref);
    }
  }

  // ---------------------------------------------------------------- behind a damaged line

  /** A line coded one-dimensionally, and what follows it, does not depend on the reference. */
  lemma RefFree(scheme: Scheme, k: int, minRowBits: int, c: Coder, width: nat, rows: seq<Row>, ref: seq<nat>)
    requires ValidCoder(c, width) && AllWidth(rows, width) && !Is2D(scheme, c) && ValidReference(ref, width)
    ensures ValidCoder(c.(ref := ref), width)
    ensures PageBits(scheme, k, minRowBits, c, width, rows) == PageBits(scheme, k, minRowBits, c.(ref := ref), width, rows)
  {
    var d := c.(ref := ref);
    if rows != [] {
      assert RowBody(scheme, c, rows[0]) == RowBody(scheme, d, rows[0]);
      assert NextCoder(scheme, k, c, rows[0]) == NextCoder(scheme, k, d, rows[0]);
    }
    hide Enc1D, Enc2D, Eol, Eols, Runs;
  }

  /** The rest of a page begins with an EOL. */
  lemma PageStartsEol(scheme: Scheme, k: int, minRowBits: int, c: Coder, width: nat, rows: seq<Row>, s: Bits, pos: nat)
    requires !scheme.Mmr? && ValidCoder(c, width) && AllWidth(rows, width)
    requires At(s, pos, PageBits(scheme, k, minRowBits, c, width, rows))
    ensures pos <= |s| && EolAt(s, pos)
  {
    var fill := FillLength(minRowBits, c.rowBits);
    var rest: Bits;
    if rows == [] {
      rest := Eols(scheme, 5);
      EndsWithEols(scheme, k, minRowBits, c, width);
      hide *;
      AtSplit(s, pos, Zeros(fill) + Eol(scheme, false), rest);
      FilledEolAt(scheme, s, pos, fill, false);
    } else {
      FirstLineEol(scheme, k, minRowBits, c, width, rows);
      rest := RowBody(scheme, c, rows[0]) + PageBits(scheme, k, minRowBits, NextCoder(scheme, k, c, rows[0]), width, rows[1..]);
      hide *;
      AtSplit(s, pos, Zeros(fill) + Eol(scheme, c.is2d), rest);
      FilledEolAt(scheme, s, pos, fill, c.is2d);
    }
  }

  lemma EndsWithEols(scheme: Scheme, k: int, minRowBits: int, c: Coder, width: nat)
    requires !scheme.Mmr? && ValidCoder(c, width)
    ensures PageBits(scheme, k, minRowBits, c, width, [])
         == Zeros(FillLength(minRowBits, c.rowBits)) + Eol(scheme, false) + Eols(scheme, 5)
  {
    LastPageBits(scheme, k, minRowBits, c, width);
    hide Eol, Eols;
  }

  lemma FirstLineEol(scheme: Scheme, k: int, minRowBits: int, c: Coder, width: nat, rows: seq<Row>)
    requires !scheme.Mmr? && ValidCoder(c, width) && AllWidth(rows, width) && rows != []
    ensures Increasing(c.ref) && |rows[0]| == width && AllWidth(rows[1..], width) && ValidCoder(NextCoder(scheme, k, c, rows[0]), width)
    ensures PageBits(scheme, k, minRowBits, c, width, rows)
         == Zeros(FillLength(minRowBits, c.rowBits)) + Eol(scheme, c.is2d)
              + (RowBody(scheme, c, rows[0]) + PageBits(scheme, k, minRowBits, NextCoder(scheme, k, c, rows[0]), width, rows[1..]))
  {
    PageFirstLine(scheme, k, minRowBits, c, width, rows);
    hide Eol, RowBody, NextCoder, PageBits;
    Assoc(Zeros(FillLength(minRowBits, c.rowBits)) + Eol(scheme, c.is2d), RowBody(scheme, c, rows[0]),
          PageBits(scheme, k, minRowBits, NextCoder(scheme, k, c, rows[0]), width, rows[1..]));
  }

  lemma FilledEolAt(scheme: Scheme, s: Bits, pos: nat, fill: nat, is2d: bool)
    requires At(s, pos, Zeros(fill) + Eol(scheme, is2d))
    ensures pos <= |s| && EolAt(s, pos)
  {
    hide Eol, EolAt;
    AtWithin(s, pos, Zeros(fill) + Eol(scheme, is2d));
    ReadsEol(scheme, s, pos, fill, is2d);
    ReadEolIs(scheme, s, pos);
  }

  /** The first EOL from `b` on, when none ends before `e` where one begins: only zeros lie
      between them. */
  lemma ZerosBetween(s: Bits, b: nat, y: nat, e: nat)
    requires b <= y && b <= e <= |s| && EolAt(s, y) && EolAt(s, e) && forall j :: b <= j < y ==> !EolAt(s, j)
    requires forall j, z :: b <= j && z >= 11 && j + z < e ==> !EolOf(s, j, z)
    ensures y <= e && forall i :: y <= i < e ==> !s[i]
  {
    var z :| z >= 11 && EolOf(s, y, z);
  }

  /** Behind a line that breaks off before `e`, where the rest of the page begins with a line
      coded one-dimensionally: just that line is concealed. */
  lemma RestIntact(scheme: Scheme, k: int, minRowBits: int, c: Coder, width: nat, rows: seq<Row>, s: Bits, p: Page, e: nat)
    requires !scheme.Mmr? && 1 <= width <= RUN_CAP && ValidCoder(c, width) && AllWidth(rows, width) && !Is2D(scheme, c)
    requires p.status.Running? && p.pos <= |s| && |p.goodRow| == width && |p.rows| + 1 + |rows| <= MAX_ROWS
    requires var r := ReadEols(scheme, s, p.pos, false, 0); r.count < 6 && r.pos + 8 <= |s|
    requires var l := LineRead(scheme, width, s, p);
             l.RowBad? && l.pos <= e && forall j, z :: l.pos <= j && z >= 11 && j + z < e ==> !EolOf(s, j, z)
    requires At(s, e, PageBits(scheme, k, minRowBits, c, width, rows))
    ensures var q := DecodePage(scheme, width, s, p);
            q.status.Ended? && q.rows == p.rows + [p.goodRow] + rows && q.concealed == p.concealed + [true] + Zeros(|rows|)
  {
    hide At, PageBits, EolAt, EolOf, RowTurn, LineRead, ReadEols, ValidCoder, Increasing, Runs, Is2D;
    PageStartsEol(scheme, k, minRowBits, c, width, rows, s, e);
    var b := LineRead(scheme, width, s, p).pos;
    DamagedTurn(scheme, width, s, p);
    EolIsLong(s, e);
    var q := RowTurn(scheme, width, s, p);
    ZerosBetween(s, b, q.pos, e);
    ConcealedReference(scheme, width, s, p);
    DecodeTurn(scheme, width, s, p);
    FilledPage(scheme, width, s, q, q.pos, e);
    RefFree(scheme, k, minRowBits, c, width, rows, q.ref);
    PageRoundTripFrom(scheme, k, minRowBits, c.(ref := q.ref), width, rows, s, q.(pos := e));
  }

  lemma DecodeTurn(scheme: Scheme, width: nat, s: Bits, p: Page)
    requires !scheme.Mmr? && 1 <= width && p.pos <= |s| && p.status.Running?
    ensures DecodePage(scheme, width, s, p) == DecodePage(scheme, width, s, RowTurn(scheme, width, s, p))
  {
    hide RowTurn;
  }

  lemma ConcealedReference(scheme: Scheme, width: nat, s: Bits, p: Page)
    requires !scheme.Mmr? && 1 <= width && p.pos <= |s| && p.status.Running? && |p.goodRow| == width
    requires var e := ReadEols(scheme, s, p.pos, false, 0); e.count < 6 && e.pos + 8 <= |s|
    requires LineRead(scheme, width, s, p).RowBad?
    ensures ValidReference(RowTurn(scheme, width, s, p).ref, width)
  {
    hide Dec1D, Dec2D, ReadEols, Resync, Runs, Increasing;
    LineIsReference(p.goodRow);
  }

  // ---------------------------------------------------------------- bits that cannot be decoded

  /** Codes of runs in turn. */
  function Codes(spans: seq<nat>, color: bool): Bits {
    if spans == [] then [] else Run(color, spans[0]) + Codes(spans[1..], !color)
  }

  function Total(spans: seq<nat>): nat {
    if spans == [] then 0 else spans[0] + Total(spans[1..])
  }

  /** Fourteen bits or more that begin with no code of the colour. */
  ghost predicate NoCode(color: bool, t: Bits) {
    |t| >= 14 && forall i :: 0 <= i < TABLE_LEN ==> !(CodeBits(color, i) <= t)
  }

  /** Runs that do not fill the line, and then no code. */
  ghost predicate Undecodable(junk: Bits, width: nat) {
    exists spans, tail :: BreaksOff(junk, width, spans, tail)
  }

  ghost predicate BreaksOff(junk: Bits, width: nat, spans: seq<nat>, tail: Bits) {
    junk == Codes(spans, false) + tail && Total(spans) < width && NoCode(|spans| % 2 == 1, tail)
  }

  /** Eight zeros begin no white code. */
  lemma EightZeros(t: Bits)
    requires |t| >= 14 && forall k :: 0 <= k < 8 ==> !t[k]
    ensures NoCode(false, t)
  {
    hide CodeBits;
    forall i | 0 <= i < TABLE_LEN ensures !(CodeBits(false, i) <= t) { WhiteHasOne(i); }
  }

  /** Such bits, eight zeros and six ones, for instance. */
  lemma ZerosAndOnes(width: nat)
    requires width > 0
    ensures var junk := Zeros(8) + [true, true, true, true, true, true];
            Undecodable(junk, width) && NoEolIn(junk) && !AllZeros(junk)
  {
    var junk := Zeros(8) + [true, true, true, true, true, true];
    EightZeros(junk);
    hide NoCode;
    assert Codes([], false) + junk == junk;
    assert BreaksOff(junk, width, [], junk);
    assert junk[8];
    forall j | 0 <= j <= |junk| ensures !EolAt(junk, j) {
      if EolAt(junk, j) { EolIsLong(junk, j); }
    }
  }

  lemma LooksUpNone(s: Bits, pos: nat, color: bool, t: Bits, n: nat)
    requires NoCode(color, t) && At(s, pos, t) && n < 14
    ensures pos + 14 <= |s| && LookUp(color, s[pos..pos + n + 1], 0) == TABLE_LEN
  {
    hide CodeBits, LookUp;
    assert s[pos..pos + n + 1] == t[..n + 1] by { assert s[pos..pos + |t|][..n + 1] == s[pos..pos + n + 1]; }
    var i := LookUp(color, t[..n + 1], 0);
  }

  lemma {:induction false} ReadsNone(s: Bits, pos: nat, color: bool, t: Bits, n: nat)
    requires NoCode(color, t) && At(s, pos, t) && n <= 14
    ensures pos + 14 <= |s| && ReadCode(s, pos, color, n) == Got(-1, pos + 14)
    decreases 14 - n
  {
    TailLength(color, t);
    AtWithin(s, pos, t);
    hide NoCode, At, LookUp, Entry;
    if n < 14 {
      LooksUpNone(s, pos, color, t, n);
      ReadsNone(s, pos, color, t, n + 1);
    }
  }

  lemma {:induction false} BreaksOff1D(s: Bits, pos: nat, spans: seq<nat>, tail: Bits, row: Row, a: nat, color: bool)
    requires At(s, pos, Codes(spans, color) + tail) && a + Total(spans) < |row| <= RUN_CAP
    requires NoCode(if |spans| % 2 == 1 then !color else color, tail)
    ensures pos <= |s| && Dec1D(s, pos, row, a, color) == RowBad(pos + |Codes(spans, color)| + 14)
    decreases |spans|
  {
    hide Run, ReadRun, NoCode, SetRange;
    AtWithin(s, pos, Codes(spans, color) + tail);
    if spans == [] {
      assert Codes(spans, color) + tail == tail;
      ReadsNoRun(s, pos, color, tail);
    } else {
      var rest := Codes(spans[1..], !color) + tail;
      assert Codes(spans, color) + tail == Run(color, spans[0]) + rest;
      AtSplit(s, pos, Run(color, spans[0]), rest);
      RunRoundTrip(s, pos, color, spans[0], 0);
      var b := a + spans[0];
      BreaksOff1D(s, pos + |Run(color, spans[0])|, spans[1..], tail, if color then SetRange(row, a, b) else row, b, !color);
    }
  }

  lemma ReadsNoRun(s: Bits, pos: nat, color: bool, t: Bits)
    requires NoCode(color, t) && At(s, pos, t)
    ensures pos + 14 <= |s| && ReadRun(s, pos, color, 0) == Got(-1, pos + 14)
  {
    hide ReadCode, NoCode;
    ReadsNone(s, pos, color, t, 0);
  }

  // ---------------------------------------------------------------- one line of a page replaced

  ghost predicate NoEolIn(junk: Bits) {
    forall j :: 0 <= j <= |junk| ==> !EolAt(junk, j)
  }

  ghost predicate AllZeros(b: Bits) {
    forall i :: 0 <= i < |b| ==> !b[i]
  }

  /** A one-dimensional page with `junk` in place of the code of line `x`, from that line's EOL
      on. */
  ghost function FromDamage(k: int, minRowBits: int, width: nat, c: Coder, x: Row, junk: Bits, post: seq<Row>): Bits
    requires ValidCoder(c, width) && AllWidth(post, width) && |x| == width
  {
    NextCoderValid(Mh, k, c, x);
    FilledEol(Mh, minRowBits, c.is2d, c.rowBits) + (junk + PageBits(Mh, k, minRowBits, NextCoder(Mh, k, c, x), width, post))
  }

  ghost function DamagedPage(k: int, minRowBits: int, width: nat, pre: seq<Row>, x: Row, junk: Bits, post: seq<Row>): Bits
    requires AllWidth(pre, width) && AllWidth(post, width) && |x| == width
  {
    StartCoderValid(Mh, width, k);
    var c := StartCoder(Mh, width, k);
    LinesBits(Mh, k, minRowBits, c, width, pre)
      + FromDamage(k, minRowBits, width, CoderAfter(Mh, k, c, width, pre), x, junk, post)
  }

  lemma ThreeParts(s: Bits, pos: nat, a: Bits, b: Bits, c: Bits)
    requires At(s, pos, a + (b + c))
    ensures At(s, pos, a) && At(s, pos + |a|, b) && At(s, pos + |a| + |b|, c) && pos + |a| + |b| + |c| <= |s|
  {
    hide At;
    AtSplit(s, pos, a, b + c);
    AtSplit(s, pos + |a|, b, c);
    AtWithin(s, pos + |a| + |b|, c);
  }

  /** Where the parts of the damaged stretch stand. */
  lemma DamageAt(k: int, minRowBits: int, width: nat, c: Coder, x: Row, junk: Bits, post: seq<Row>, s: Bits, pos: nat)
    returns (next: Coder, fill: nat, start: nat)
    requires ValidCoder(c, width) && AllWidth(post, width) && |x| == width
    requires At(s, pos, FromDamage(k, minRowBits, width, c, x, junk, post))
    ensures ValidCoder(next, width) && start == pos + fill + 12 && start + |junk| + 8 <= |s|
    ensures At(s, pos, Zeros(fill) + Eol(Mh, c.is2d)) && At(s, start, junk)
    ensures At(s, start + |junk|, PageBits(Mh, k, minRowBits, next, width, post))
  {
    hide *;
    var rest;
    next, fill, rest := FromDamageIs(k, minRowBits, width, c, x, junk, post);
    EolSize(fill, c.is2d);
    start := pos + fill + 12;
    ThreeParts(s, pos, Zeros(fill) + Eol(Mh, c.is2d), junk, rest);
    PageIsLong(Mh, k, minRowBits, next, width, post);
  }

  lemma FromDamageIs(k: int, minRowBits: int, width: nat, c: Coder, x: Row, junk: Bits, post: seq<Row>)
    returns (next: Coder, fill: nat, rest: Bits)
    requires ValidCoder(c, width) && AllWidth(post, width) && |x| == width
    ensures ValidCoder(next, width) && rest == PageBits(Mh, k, minRowBits, next, width, post)
    ensures FromDamage(k, minRowBits, width, c, x, junk, post) == (Zeros(fill) + Eol(Mh, c.is2d)) + (junk + rest)
  {
    CoderIncreases(c, width);
    hide PageBits, NextCoder, Eol, ValidCoder, AllWidth, FillLength, Increasing;
    NextCoderValid(Mh, k, c, x);
    next := NextCoder(Mh, k, c, x);
    fill := FillLength(minRowBits, c.rowBits);
    rest := PageBits(Mh, k, minRowBits, next, width, post);
  }

  lemma EolSize(fill: nat, is2d: bool)
    ensures |Zeros(fill) + Eol(Mh, is2d)| == fill + 12
  {
  }

  /** Junk without an EOL that is not all zeros is not taken for one either. */
  lemma JunkStartsSoon(junk: Bits)
    requires NoEolIn(junk) && !AllZeros(junk)
    ensures StartsSoon(junk)
  {
    var i :| 0 <= i < |junk| && junk[i];
    var z := FirstOne(junk, i);
    if z >= 11 {
      assert EolOf(junk, 0, z);
      assert EolAt(junk, 0);
    }
  }

  lemma FirstOne(b: Bits, i: nat) returns (z: nat)
    requires i < |b| && b[i]
    ensures z <= i && b[z] && forall j :: 0 <= j < z ==> !b[j]
  {
    z := 0;
    while !b[z]
      invariant z <= i && forall j :: 0 <= j < z ==> !b[j]
      decreases i - z
    {
      z := z + 1;
    }
  }

  lemma NoEolInside(s: Bits, at: nat, junk: Bits, b: nat)
    requires At(s, at, junk) && NoEolIn(junk) && at <= b
    ensures forall j, z :: b <= j && z >= 11 && j + z < at + |junk| ==> !EolOf(s, j, z)
  {
    hide EolAt, EolOf, At;
    forall j: nat, z: nat | b <= j && z >= 11 && j + z < at + |junk| ensures !EolOf(s, j, z) {
      if EolOf(s, j, z) { EolInside(s, at, junk, j, z); }
    }
  }

  lemma EolInside(s: Bits, at: nat, junk: Bits, j: nat, z: nat)
    requires At(s, at, junk) && at <= j && z >= 11 && j + z < at + |junk| && EolOf(s, j, z)
    ensures EolAt(junk, j - at)
  {
    AtEach(s, at, junk);
    forall i | j - at <= i < j - at + z ensures !junk[i] { assert s[at + i] == junk[i]; }
    assert s[at + (j - at + z)] == junk[j - at + z];
    assert EolOf(junk, j - at, z);
  }

  /** The page is decoded up to the damage. */
  lemma UpToDamage(k: int, minRowBits: int, width: nat, pre: seq<Row>, x: Row, junk: Bits, post: seq<Row>, s: Bits) returns (c: Coder, p: Page)
    requires 1 <= width <= RUN_CAP && AllWidth(pre, width) && AllWidth(post, width) && |x| == width
    requires |pre| + 1 + |post| <= MAX_ROWS && DamagedPage(k, minRowBits, width, pre, x, junk, post) <= s
    ensures ValidCoder(c, width) && p.ref == c.ref && p.pos <= |s| && p.status.Running? && p.rows == pre && p.concealed == Zeros(|pre|)
    ensures p.goodRow == if pre == [] then White(width) else pre[|pre| - 1]
    ensures At(s, p.pos, FromDamage(k, minRowBits, width, c, x, junk, post))
    ensures DecodePage(Mh, width, s, StartPage(width)) == DecodePage(Mh, width, s, p)
  {
    StartCoderValid(Mh, width, k);
    var b := StartCoder(Mh, width, k);
    c := CoderAfter(Mh, k, b, width, pre);
    var lines := LinesBits(Mh, k, minRowBits, b, width, pre);
    var rest := FromDamage(k, minRowBits, width, c, x, junk, post);
    var start := StartPage(width);
    assert At(s, 0, lines + rest);
    p := PageAfter(start, pre, |lines|, c.ref);
    assert p.rows == pre && p.concealed == Zeros(|pre|);
    assert start.ref == b.ref;
    hide *;
    AtSplit(s, 0, lines, rest);
    var next, fill, at := DamageAt(k, minRowBits, width, c, x, junk, post, s, |lines|);
    LinesDecoded(Mh, k, minRowBits, b, width, pre, s, start);
  }

  /** Undamaged lines before, a line replaced by bits that cannot be decoded, are not all zeros
      and hold no EOL: exactly that line is concealed, by the line before it (white if there
      is none), and all others come out in their places. */
  lemma DamagedLineConcealed(k: int, minRowBits: int, width: nat, pre: seq<Row>, x: Row, junk: Bits, post: seq<Row>, s: Bits)
    requires 1 <= width <= RUN_CAP && AllWidth(pre, width) && AllWidth(post, width) && |x| == width
    requires |pre| + 1 + |post| <= MAX_ROWS
    requires Undecodable(junk, width) && NoEolIn(junk) && !AllZeros(junk)
    requires DamagedPage(k, minRowBits, width, pre, x, junk, post) <= s
    ensures var q := DecodePage(Mh, width, s, StartPage(width));
            && q.status.Ended?
            && q.rows == pre + [if pre == [] then White(width) else pre[|pre| - 1]] + post
            && q.concealed == Zeros(|pre|) + [true] + Zeros(|post|)
  {
    hide *;
    var c, p := UpToDamage(k, minRowBits, width, pre, x, junk, post, s);
    LastWidth(pre, width);
    DamagedFrom(k, minRowBits, width, c, x, junk, post, s, p);
  }

  lemma LastWidth(rows: seq<Row>, width: nat)
    requires AllWidth(rows, width)
    ensures rows != [] ==> |rows[|rows| - 1]| == width
  {
  }

  /** The line decoder breaks off within the junk, and no EOL ends there. */
  lemma JunkBreaks(width: nat, fill: nat, is2d: bool, junk: Bits, s: Bits, p: Page, start: nat)
    requires 1 <= width <= RUN_CAP && Undecodable(junk, width) && NoEolIn(junk) && !AllZeros(junk)
    requires At(s, p.pos, Zeros(fill) + Eol(Mh, is2d)) && start == p.pos + fill + 12 && At(s, start, junk)
    ensures p.pos <= |s| && var r := ReadEols(Mh, s, p.pos, false, 0); r.count == 1 && r.pos == start
    ensures var l := LineRead(Mh, width, s, p);
            l.RowBad? && l.pos <= start + |junk| && forall j, z :: l.pos <= j && z >= 11 && j + z < start + |junk| ==> !EolOf(s, j, z)
  {
    hide At, NoEolIn, AllZeros, Eol, EolOf, StartsSoon, ReadEols, Codes, NoCode, Dec1D;
    JunkStartsSoon(junk);
    ReadsOneEol(Mh, s, p.pos, fill, is2d, junk);
    var spans, tail :| BreaksOff(junk, width, spans, tail);
    BreaksOff1D(s, start, spans, tail, White(width), 0, false);
    TailLength(|spans| % 2 == 1, tail);
    NoEolInside(s, start, junk, start);
  }

  lemma DamagedFrom(k: int, minRowBits: int, width: nat, c: Coder, x: Row, junk: Bits, post: seq<Row>, s: Bits, p: Page)
    requires 1 <= width <= RUN_CAP && ValidCoder(c, width) && AllWidth(post, width) && |x| == width
    requires p.status.Running? && |p.goodRow| == width && |p.rows| + 1 + |post| <= MAX_ROWS
    requires Undecodable(junk, width) && NoEolIn(junk) && !AllZeros(junk)
    requires At(s, p.pos, FromDamage(k, minRowBits, width, c, x, junk, post))
    ensures p.pos <= |s|
    ensures var q := DecodePage(Mh, width, s, p);
            q.status.Ended? && q.rows == p.rows + [p.goodRow] + post && q.concealed == p.concealed + [true] + Zeros(|post|)
  {
    hide *;
    var next, fill, start := DamageAt(k, minRowBits, width, c, x, junk, post, s, p.pos);
    JunkBreaks(width, fill, c.is2d, junk, s, p, start);
    NotTwoDimensional(next);
    RestIntact(Mh, k, minRowBits, next, width, post, s, p, start + |junk|);
  }

  lemma TailLength(color: bool, t: Bits)
    requires NoCode(color, t)
    ensures |t| >= 14
  {
    hide CodeBits;
  }

  // ---------------------------------------------------------------- a line of zeros

  /** Zeros in place of a line's code are FILL: nothing is concealed, and the line is missing. */
  lemma ZeroedLineVanishes(k: int, minRowBits: int, width: nat, pre: seq<Row>, x: Row, junk: Bits, post: seq<Row>, s: Bits)
    requires 1 <= width <= RUN_CAP && AllWidth(pre, width) && AllWidth(post, width) && |x| == width
    requires |pre| + 1 + |post| <= MAX_ROWS && AllZeros(junk)
    requires DamagedPage(k, minRowBits, width, pre, x, junk, post) <= s
    ensures var q := DecodePage(Mh, width, s, StartPage(width));
            q.status.Ended? && q.rows == pre + post && q.concealed == Zeros(|pre| + |post|)
  {
    hide *;
    var c, p := UpToDamage(k, minRowBits, width, pre, x, junk, post, s);
    CoderReference(c, width);
    ZeroedFrom(k, minRowBits, width, c, x, junk, post, s, p);
    ZerosAppend(|pre|, |post|);
  }

  lemma CoderIncreases(c: Coder, width: nat)
    requires ValidCoder(c, width)
    ensures Increasing(c.ref)
  {
  }

  lemma CoderReference(c: Coder, width: nat)
    requires ValidCoder(c, width)
    ensures ValidReference(c.ref, width)
  {
  }

  lemma ZerosAppend(m: nat, n: nat)
    ensures Zeros(m) + Zeros(n) == Zeros(m + n)
  {
  }

  lemma ZeroedFrom(k: int, minRowBits: int, width: nat, c: Coder, x: Row, junk: Bits, post: seq<Row>, s: Bits, p: Page)
    requires 1 <= width <= RUN_CAP && ValidCoder(c, width) && AllWidth(post, width) && |x| == width && AllZeros(junk)
    requires p.status.Running? && ValidReference(p.ref, width) && |p.rows| + 1 + |post| <= MAX_ROWS
    requires At(s, p.pos, FromDamage(k, minRowBits, width, c, x, junk, post))
    ensures p.pos <= |s|
    ensures var q := DecodePage(Mh, width, s, p);
            q.status.Ended? && q.rows == p.rows + post && q.concealed == p.concealed + Zeros(|post|)
  {
    hide *;
    var next, fill, start := DamageAt(k, minRowBits, width, c, x, junk, post, s, p.pos);
    var e := start + |junk|;
    PageStartsEol(Mh, k, minRowBits, next, width, post, s, e);
    PageEols(k, minRowBits, next, width, post, s, e);
    SkipsZeros(width, fill, c.is2d, junk, s, p, start);
    RestDecoded(k, minRowBits, next, width, post, s, p, e);
    SamePageMeans(DecodePage(Mh, width, s, p), DecodePage(Mh, width, s, p.(pos := e)));
  }

  /** An EOL and zeros before another EOL, or before the end of the page, make no difference. */
  lemma SkipsZeros(width: nat, fill: nat, is2d: bool, junk: Bits, s: Bits, p: Page, start: nat)
    requires 1 <= width && p.status.Running? && AllZeros(junk) && start == p.pos + fill + 12
    requires At(s, p.pos, Zeros(fill) + Eol(Mh, is2d)) && At(s, start, junk) && start + |junk| <= |s|
    requires EolAt(s, start + |junk|) && var n := ReadEols(Mh, s, start + |junk|, false, 0).count; n == 1 || n == 6
    ensures SamePage(DecodePage(Mh, width, s, p), DecodePage(Mh, width, s, p.(pos := start + |junk|)))
  {
    hide *;
    var e := start + |junk|;
    ZerosAt(s, start, junk);
    SameEols(Mh, s, start, e);
    SkipsEol(width, fill, is2d, s, p, start);
    FilledPage(Mh, width, s, p, start, e);
    SamePageOn(DecodePage(Mh, width, s, p), DecodePage(Mh, width, s, p.(pos := start)), DecodePage(Mh, width, s, p.(pos := e)));
  }

  lemma SkipsEol(width: nat, fill: nat, is2d: bool, s: Bits, p: Page, start: nat)
    requires 1 <= width && p.status.Running? && start == p.pos + fill + 12 <= |s| && At(s, p.pos, Zeros(fill) + Eol(Mh, is2d))
    requires var n := ReadEols(Mh, s, start, false, 0).count; n == 1 || n == 6
    ensures SamePage(DecodePage(Mh, width, s, p), DecodePage(Mh, width, s, p.(pos := start)))
  {
    assert EolLength(Mh) == 12;
    hide *;
    ReadsEol(Mh, s, p.pos, fill, is2d);
    AnotherEol(width, s, p, start);
  }

  lemma SamePageOn(p: Page, q: Page, r: Page)
    requires SamePage(p, q) && SamePage(q, r)
    ensures SamePage(p, r)
  {
  }

  /** The rest of a one-dimensional page, whatever the reference. */
  lemma RestDecoded(k: int, minRowBits: int, c: Coder, width: nat, rows: seq<Row>, s: Bits, p: Page, e: nat)
    requires 1 <= width <= RUN_CAP && ValidCoder(c, width) && AllWidth(rows, width) && ValidReference(p.ref, width)
    requires p.status.Running? && |p.rows| + |rows| <= MAX_ROWS && At(s, e, PageBits(Mh, k, minRowBits, c, width, rows))
    ensures e <= |s|
    ensures var q := DecodePage(Mh, width, s, p.(pos := e));
            q.status.Ended? && q.rows == p.rows + rows && q.concealed == p.concealed + Zeros(|rows|)
  {
    hide *;
    NotTwoDimensional(c);
    RefFree(Mh, k, minRowBits, c, width, rows, p.ref);
    PageRoundTripFrom(Mh, k, minRowBits, c.(ref := p.ref), width, rows, s, p.(pos := e));
  }

  lemma ZerosAt(s: Bits, at: nat, b: Bits)
    requires At(s, at, b) && AllZeros(b)
    ensures at + |b| <= |s| && forall i :: at <= i < at + |b| ==> !s[i]
  {
    AtEach(s, at, b);
    forall i | at <= i < at + |b| ensures !s[i] { assert s[at + (i - at)] == b[i - at]; }
  }

  /** One EOL more before others is read as one more, up to the six that end a page. */
  lemma {:induction false} OneEolMore(s: Bits, pos: nat, m: nat)
    requires pos <= |s| && m < 5
    ensures var a, b := ReadEols(Mh, s, pos, false, m), ReadEols(Mh, s, pos, false, m + 1);
            b.count == (if a.count == 6 then 6 else a.count + 1) && (a.count < 6 ==> b.pos == a.pos)
    decreases 6 - m
  {
    hide ReadEol;
    var e := ReadEol(Mh, s, pos);
    if e.EolRead? && m < 4 { OneEolMore(s, e.pos, m + 1); }
  }

  /** The rest of a page begins with one EOL, or with the six that end it. */
  lemma PageEols(k: int, minRowBits: int, c: Coder, width: nat, rows: seq<Row>, s: Bits, pos: nat)
    requires 1 <= width && ValidCoder(c, width) && AllWidth(rows, width)
    requires At(s, pos, PageBits(Mh, k, minRowBits, c, width, rows))
    ensures pos <= |s| && var n := ReadEols(Mh, s, pos, false, 0).count; n == 1 || n == 6
  {
    if rows == [] {
      hide *;
      EndEols(k, minRowBits, c, width, s, pos);
    } else {
      hide *;
      LineEols(k, minRowBits, c, width, rows, s, pos);
    }
  }

  lemma EndEols(k: int, minRowBits: int, c: Coder, width: nat, s: Bits, pos: nat)
    requires ValidCoder(c, width) && At(s, pos, PageBits(Mh, k, minRowBits, c, width, []))
    ensures pos <= |s| && ReadEols(Mh, s, pos, false, 0).count == 6
  {
    var fill := FillLength(minRowBits, c.rowBits);
    EndsWithEols(Mh, k, minRowBits, c, width);
    hide *;
    EolThenFive(s, pos, fill);
  }

  lemma EolThenFive(s: Bits, pos: nat, fill: nat)
    requires At(s, pos, Zeros(fill) + Eol(Mh, false) + Eols(Mh, 5))
    ensures pos <= |s| && ReadEols(Mh, s, pos, false, 0).count == 6
  {
    hide At, Eol, Eols, ReadEol;
    AtSplit(s, pos, Zeros(fill) + Eol(Mh, false), Eols(Mh, 5));
    AtWithin(s, pos, Zeros(fill) + Eol(Mh, false));
    ReadsEol(Mh, s, pos, fill, false);
    ReadsEols(Mh, s, pos + fill + 12, false, 5);
  }

  lemma LineEols(k: int, minRowBits: int, c: Coder, width: nat, rows: seq<Row>, s: Bits, pos: nat)
    requires 1 <= width && ValidCoder(c, width) && AllWidth(rows, width) && rows != []
    requires At(s, pos, PageBits(Mh, k, minRowBits, c, width, rows))
    ensures pos <= |s| && ReadEols(Mh, s, pos, false, 0).count == 1
  {
    hide At, Eol, ValidCoder, AllWidth, PageBits, StartsSoon, RowBody, NextCoder, Increasing, ReadEols;
    var fill := FillLength(minRowBits, c.rowBits);
    FirstLineEol(Mh, k, minRowBits, c, width, rows);
    BodyStartsSoon(Mh, c, rows[0]);
    var body := RowBody(Mh, c, rows[0]);
    var eol := Zeros(fill) + Eol(Mh, c.is2d);
    ThreeParts(s, pos, eol, body, PageBits(Mh, k, minRowBits, NextCoder(Mh, k, c, rows[0]), width, rows[1..]));
    OneEolOnly(s, pos, fill, c.is2d, body);
  }

  lemma OneEolOnly(s: Bits, pos: nat, fill: nat, is2d: bool, body: Bits)
    requires At(s, pos, Zeros(fill) + Eol(Mh, is2d)) && StartsSoon(body) && At(s, pos + fill + 12, body)
    ensures pos <= |s| && ReadEols(Mh, s, pos, false, 0).count == 1
  {
    hide At, Eol, StartsSoon, ReadEols;
    ReadsOneEol(Mh, s, pos, fill, is2d, body);
  }

  /** An EOL before one, or before the end of the page, makes no difference. */
  lemma AnotherEol(width: nat, s: Bits, p: Page, start: nat)
    requires 1 <= width && p.pos <= |s| && p.status.Running? && ReadEol(Mh, s, p.pos) == EolRead(false, start)
    requires var n := ReadEols(Mh, s, start, false, 0).count; n == 1 || n == 6
    ensures SamePage(DecodePage(Mh, width, s, p), DecodePage(Mh, width, s, p.(pos := start)))
  {
    AnotherEolTurn(width, s, p, start);
    hide *;
    DecodeTurn(Mh, width, s, p);
    DecodeTurn(Mh, width, s, p.(pos := start));
    EndedPage(width, s, RowTurn(Mh, width, s, p));
    EndedPage(width, s, RowTurn(Mh, width, s, p.(pos := start)));
    SamePageStatus(RowTurn(Mh, width, s, p), RowTurn(Mh, width, s, p.(pos := start)));
  }

  lemma EndedPage(width: nat, s: Bits, p: Page)
    requires 1 <= width && (p.status.Running? ==> p.pos <= |s|)
    ensures !p.status.Running? ==> DecodePage(Mh, width, s, p) == p
    ensures SamePage(DecodePage(Mh, width, s, p), DecodePage(Mh, width, s, p))
  {
    hide Turn;
  }

  lemma SamePageStatus(p: Page, q: Page)
    requires SamePage(p, q)
    ensures p.status == q.status
  {
  }

  lemma AnotherEolTurn(width: nat, s: Bits, p: Page, start: nat)
    requires 1 <= width && p.pos <= |s| && p.status.Running? && ReadEol(Mh, s, p.pos) == EolRead(false, start)
    requires var n := ReadEols(Mh, s, start, false, 0).count; n == 1 || n == 6
    ensures var a, b := RowTurn(Mh, width, s, p), RowTurn(Mh, width, s, p.(pos := start));
            SamePage(a, b) && (b.status.Running? ==> a == b)
  {
    hide ReadEol, ReadEols, Dec1D, Resync, Runs;
    EolBefore(s, p.pos, start);
  }

  lemma EolBefore(s: Bits, pos: nat, start: nat)
    requires pos <= |s| && ReadEol(Mh, s, pos) == EolRead(false, start)
    ensures start <= |s|
    ensures var a, b := ReadEols(Mh, s, pos, false, 0), ReadEols(Mh, s, start, false, 0);
            a.count == (if b.count == 6 then 6 else b.count + 1) && (b.count < 6 ==> a.pos == b.pos)
  {
    assert ReadEols(Mh, s, pos, false, 0) == ReadEols(Mh, s, start, false, 1);
    hide ReadEol, ReadEols;
    OneEolMore(s, start, 0);
  }

  lemma NotTwoDimensional(c: Coder)
    ensures !Is2D(Mh, c)
  {
  }

  lemma SamePageMeans(p: Page, q: Page)
    requires SamePage(p, q)
    ensures p.status == q.status && p.rows == q.rows && p.concealed == q.concealed
  {
  }

  // ---------------------------------------------------------------- where a page is broken off

  lemma {:induction false} LinesSnoc(scheme: Scheme, k: int, minRowBits: int, c: Coder, width: nat, pre: seq<Row>, x: Row)
    requires ValidCoder(c, width) && AllWidth(pre, width) && |x| == width
    ensures AllWidth(pre + [x], width)
    ensures var d := CoderAfter(scheme, k, c, width, pre);
            Increasing(d.ref) && LinesBits(scheme, k, minRowBits, c, width, pre + [x])
                                   == LinesBits(scheme, k, minRowBits, c, width, pre) + RowBits(scheme, minRowBits, d, x)
    decreases |pre|
  {
    hide RowBits, NextCoder, LinesBits, CoderAfter;
    var all := pre + [x];
    assert AllWidth(all, width);
    FirstOfLines(scheme, k, minRowBits, c, width, all);
    var d := NextCoder(scheme, k, c, all[0]);
    if pre == [] {
      NoLines(scheme, k, minRowBits, c, width);
      NoLines(scheme, k, minRowBits, d, width);
      assert all[1..] == [];
      assert RowBits(scheme, minRowBits, c, x) + [] == [] + RowBits(scheme, minRowBits, c, x);
    } else {
      assert all[0] == pre[0] && all[1..] == pre[1..] + [x];
      FirstOfLines(scheme, k, minRowBits, c, width, pre);
      LinesSnoc(scheme, k, minRowBits, d, width, pre[1..], x);
      Assoc(RowBits(scheme, minRowBits, c, pre[0]), LinesBits(scheme, k, minRowBits, d, width, pre[1..]),
            RowBits(scheme, minRowBits, CoderAfter(scheme, k, c, width, pre), x));
    }
    hide ValidCoder;
  }

  lemma StoppedPage(scheme: Scheme, width: nat, s: Bits, p: Page)
    requires 1 <= width && p.pos <= |s| && p.status.Running? && !Turn(scheme, width, s, p).status.Running?
    ensures DecodePage(scheme, width, s, p) == Turn(scheme, width, s, p)
  {
    hide Turn;
  }

  lemma FromTheStart(scheme: Scheme, width: nat, k: int, pre: seq<Row>, end: nat, ref: seq<nat>)
    ensures var z := StartPage(width); z.ref == StartCoder(scheme, width, k).ref && z.pos == 0 && z.rows == [] && z.status.Running?
    ensures var p := PageAfter(StartPage(width), pre, end, ref);
            p.rows == pre && p.concealed == Zeros(|pre|) && p.status.Running? && p.pos == end && p.ref == ref
  {
    assert [] + pre == pre && [] + Zeros(|pre|) == Zeros(|pre|);
  }

  /** A page of more lines than the decoder takes is broken off behind line 100001. */
  lemma LongPageStops(scheme: Scheme, k: int, minRowBits: int, width: nat, pre: seq<Row>, x: Row, s: Bits)
    requires 1 <= width <= RUN_CAP && AllWidth(pre, width) && |x| == width && |pre| == MAX_ROWS
    requires ValidCoder(StartCoder(scheme, width, k), width) && AllWidth(pre + [x], width)
    requires var lines := LinesBits(scheme, k, minRowBits, StartCoder(scheme, width, k), width, pre + [x]);
             At(s, 0, lines) && |lines| + 8 <= |s|
    ensures var q := DecodePage(scheme, width, s, StartPage(width));
            q.status.Stopped? && q.rows == pre + [x] && q.concealed == Zeros(|pre| + 1)
  {
    hide *;
    var b := StartCoder(scheme, width, k);
    var c := CoderAfter(scheme, k, b, width, pre);
    LinesSnoc(scheme, k, minRowBits, b, width, pre, x);
    var lines, bits := LinesBits(scheme, k, minRowBits, b, width, pre), RowBits(scheme, minRowBits, c, x);
    AtSplit(s, 0, lines, bits);
    FromTheStart(scheme, width, k, pre, |lines|, c.ref);
    LinesDecoded(scheme, k, minRowBits, b, width, pre, s, StartPage(width));
    var p := PageAfter(StartPage(width), pre, |lines|, c.ref);
    TurnDecodes(scheme, minRowBits, s, c, x, p);
    TooLong(p, x, |lines| + |bits|);
    AtWithin(s, |lines|, bits);
    StoppedPage(scheme, width, s, p);
    ZerosAppend(|pre|, 1);
    OneZero();
  }

  lemma OneZero()
    ensures Zeros(1) == [false]
  {
  }

  lemma TooLong(p: Page, x: Row, pos: nat)
    requires |p.rows| >= MAX_ROWS
    ensures var q := Limited(Emit(p, x, pos, false)); q.status.Stopped? && q.rows == p.rows + [x] && q.concealed == p.concealed + [false]
  {
    hide Runs;
  }

  /** Seven zeros and a one begin no mode and no EOL. */
  function NoModeCode(): Bits {
    [false, false, false, false, false, false, false, true]
  }

  lemma NoModeAt(s: Bits, pos: nat, ref: seq<nat>, width: nat)
    requires width >= 1 && At(s, pos, NoModeCode())
    ensures pos + 8 <= |s| && ReadEol(Mmr, s, pos).NoEol? && Dec2D(s, pos, ref, White(width), -1, false).RowBad?
  {
    hide FirstB, ReadRun, SetRange;
    AtWithin(s, pos, NoModeCode());
    AtEach(s, pos, NoModeCode());
    forall i | pos <= i < pos + 7 ensures !s[i] { assert s[pos + (i - pos)] == NoModeCode()[i - pos]; }
    assert s[pos + 7] == NoModeCode()[7];
    ZeroRunIs(s, pos, 7);
    NotYet(s, pos, 0, 0);
    NotYet(s, pos + 1, 0, 1);
    NotYet(s, pos + 2, 0, 2);
    NotYet(s, pos + 3, 0, 3);
    NotYet(s, pos + 4, 0, 4);
    NotYet(s, pos + 5, 0, 5);
    NotYet(s, pos + 6, 0, 6);
    hide ParseMode;
    assert ParseMode(s, pos + 7, 0, 7) == NoMode(pos + 7) by { NoModeLeft(s, pos + 7); }
  }

  lemma NoModeLeft(s: Bits, pos: nat)
    requires pos <= |s|
    ensures ParseMode(s, pos, 0, 7) == NoMode(pos)
  {
  }

  /** T.6 has no EOLs to go on from: where no mode begins the page is broken off, the lines
      before it intact. */
  lemma MmrBreaksOff(k: int, minRowBits: int, width: nat, pre: seq<Row>, s: Bits)
    requires 1 <= width <= RUN_CAP && AllWidth(pre, width) && |pre| <= MAX_ROWS
    requires ValidCoder(StartCoder(Mmr, width, k), width)
    requires At(s, 0, LinesBits(Mmr, k, minRowBits, StartCoder(Mmr, width, k), width, pre) + NoModeCode())
    ensures var q := DecodePage(Mmr, width, s, StartPage(width));
            q.status.Broken? && q.rows == pre && q.concealed == Zeros(|pre|)
  {
    hide *;
    var b := StartCoder(Mmr, width, k);
    var c := CoderAfter(Mmr, k, b, width, pre);
    var lines := LinesBits(Mmr, k, minRowBits, b, width, pre);
    AtSplit(s, 0, lines, NoModeCode());
    FromTheStart(Mmr, width, k, pre, |lines|, c.ref);
    NoModeAt(s, |lines|, c.ref, width);
    LinesDecoded(Mmr, k, minRowBits, b, width, pre, s, StartPage(width));
    var p := PageAfter(StartPage(width), pre, |lines|, c.ref);
    MmrTurnBreaks(width, s, p);
    StoppedPage(Mmr, width, s, p);
  }

  lemma MmrTurnBreaks(width: nat, s: Bits, p: Page)
    requires 1 <= width && p.pos + 8 <= |s| && p.status.Running?
    requires ReadEol(Mmr, s, p.pos).NoEol? && Dec2D(s, p.pos, p.ref, White(width), -1, false).RowBad?
    ensures Turn(Mmr, width, s, p) == p.(status := Broken)
  {
    hide ReadEol, Dec2D, White;
  }
}
