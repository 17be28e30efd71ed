/** A whole page (nf_t4.c): EOL, FILL, K-factor alternation, RTC/EOFB on the coding side;
    EOL hunting, concealment and resynchronisation on the decoding side; and the page
    round trip. */
module T4Page {
  import opened BitIo
  import opened T4Rows

  /** Modified Huffman (1-D), Modified READ (T.4 2-D), Modified Modified READ (T.6). */
  datatype Scheme = Mh | Mr | Mmr

  const MAX_ROWS: nat := 100000

  // ---------------------------------------------------------------- coding

  function Zeros(n: nat): (b: Bits)
    ensures |b| == n
  {
    seq(n, _ => false)
  }

  /** The EOL code; T.4 2-D adds a tag bit, one before a 1-D line. */
  function EolCode(scheme: Scheme, is2d: bool): nat {
    if scheme.Mr? && !is2d then 0x1800 else 0x0800
  }

  function EolLength(scheme: Scheme): nat {
    if scheme.Mr? then 13 else 12
  }

  function Eol(scheme: Scheme, is2d: bool): (b: Bits)
    ensures |b| == EolLength(scheme)
  {
    LsbBits(EolCode(scheme, is2d), EolLength(scheme))
  }

  /** FILL zeros owed before an EOL that ends a line of `rowBits` coded bits. */
  function FillLength(minRowBits: int, rowBits: nat): nat {
    if minRowBits > 0 && rowBits > 13 && rowBits < minRowBits then minRowBits - rowBits else 0
  }

  function FilledEol(scheme: Scheme, minRowBits: int, is2d: bool, rowBits: nat): Bits {
    Zeros(FillLength(minRowBits, rowBits)) + Eol(scheme, is2d)
  }

  /** What the coder carries from line to line. */
  datatype Coder = Coder(is2d: bool, toNext1d: int, ref: seq<nat>, rowBits: nat)

  function StartCoder(scheme: Scheme, width: nat, k: int): Coder {
    Coder(scheme.Mmr?, (if k > 0 then k else 2) - 1, [width], 0)
  }

  ghost predicate ValidReference(ref: seq<nat>, width: nat) {
    Increasing(ref) && |ref| >= 1 && forall i :: 0 <= i < |ref| ==> ref[i] <= width
  }

  ghost predicate ValidCoder(c: Coder, width: nat) {
    ValidReference(c.ref, width)
  }

  function RowBody(scheme: Scheme, c: Coder, row: Row): Bits
    requires Increasing(c.ref)
  {
    if scheme.Mmr? || (scheme.Mr? && c.is2d) then Enc2D(c.ref, row, if row == [] then 0 else -1, false)
    else Enc1D(row, 0, false)
  }

  function RowBits(scheme: Scheme, minRowBits: int, c: Coder, row: Row): Bits
    requires Increasing(c.ref)
  {
    if scheme.Mmr? then RowBody(scheme, c, row)
    else FilledEol(scheme, minRowBits, c.is2d, c.rowBits) + RowBody(scheme, c, row)
  }

  /** The coder after a line: T.4 2-D codes a line 1-D whenever the K counter runs out. */
  function NextCoder(scheme: Scheme, k: int, c: Coder, row: Row): Coder
    requires Increasing(c.ref)
  {
    var max := if k > 0 then k else 2;
    var n := |RowBody(scheme, c, row)|;
    var ref := Runs(row, 0, false);
    if scheme.Mr? then
      var left := if c.is2d then c.toNext1d - 1 else c.toNext1d;
      if left <= 0 then Coder(false, max - 1, ref, n) else Coder(true, left, ref, n)
    else Coder(c.is2d, c.toNext1d, ref, n)
  }

  lemma NextCoderValid(scheme: Scheme, k: int, c: Coder, row: Row)
    requires ValidCoder(c, |row|)
    ensures ValidCoder(NextCoder(scheme, k, c, row), |row|)
  {
    hide RowBody, Runs;
    RunsAreRuns(row);
    RunsIncrease(Runs(row, 0, false), row);
  }

  ghost predicate AllWidth(rows: seq<Row>, width: nat) {
    forall i :: 0 <= i < |rows| ==> |rows[i]| == width
  }

  /** RTC: six EOLs tagged 1-D; EOFB: two. */
  function EndBits(scheme: Scheme, minRowBits: int, rowBits: nat): Bits {
    if scheme.Mmr? then FilledEol(scheme, minRowBits, true, rowBits) + Eol(scheme, true)
    else FilledEol(scheme, minRowBits, false, rowBits) + Eols(scheme, 5)
  }

  function Eols(scheme: Scheme, n: nat): Bits {
    if n == 0 then [] else Eol(scheme, false) + Eols(scheme, n - 1)
  }

  /** The remaining lines and the end of the page. */
  function PageBits(scheme: Scheme, k: int, minRowBits: int, c: Coder, width: nat, rows: seq<Row>): Bits
    requires ValidCoder(c, width) && AllWidth(rows, width)
    decreases |rows|
  {
    if rows == [] then EndBits(scheme, minRowBits, c.rowBits)
    else
      assert |rows[0]| == width;
      NextCoderValid(scheme, k, c, rows[0]);
      RowBits(scheme, minRowBits, c, rows[0])
        + PageBits(scheme, k, minRowBits, NextCoder(scheme, k, c, rows[0]), width, rows[1..])
  }

  lemma StartCoderValid(scheme: Scheme, width: nat, k: int)
    ensures ValidCoder(StartCoder(scheme, width, k), width)
  {
  }

  /** A whole page. */
  function CodedPage(scheme: Scheme, k: int, minRowBits: int, width: nat, rows: seq<Row>): Bits
    requires AllWidth(rows, width)
  {
    StartCoderValid(scheme, width, k);
    PageBits(scheme, k, minRowBits, StartCoder(scheme, width, k), width, rows)
  }

  // ---------------------------------------------------------------- decoding

  /** Number of zeros from `pos` on. */
  function ZeroRun(s: Bits, pos: nat): (n: nat)
    requires pos <= |s|
    ensures pos + n <= |s|
    ensures forall i :: pos <= i < pos + n ==> !s[i]
    ensures pos + n < |s| ==> s[pos + n]
    decreases |s| - pos
  {
    if pos == |s| || s[pos] then 0 else 1 + ZeroRun(s, pos + 1)
  }

  datatype EolRead = NoEol | EolRead(tag1d: bool, pos: nat)

  /** At least eleven zeros and a one, then the tag bit in T.4 2-D. */
  function ReadEol(scheme: Scheme, s: Bits, pos: nat): (r: EolRead)
    requires pos <= |s|
    ensures r.EolRead? ==> pos + 12 <= r.pos <= |s|
  {
    var z := ZeroRun(s, pos);
    if pos + z < |s| && z >= 11 then
      var p := pos + z + 1;
      if scheme.Mr? then (if p < |s| then EolRead(s[p], p + 1) else EolRead(false, p))
      else EolRead(false, p)
    else NoEol
  }

  datatype EolsRead = EolsRead(tag1d: bool, count: nat, pos: nat)

  /** Consecutive EOLs, at most six; the tag is the last one's. */
  function ReadEols(scheme: Scheme, s: Bits, pos: nat, tag1d: bool, count: nat): (r: EolsRead)
    requires pos <= |s| && count < 6
    ensures pos <= r.pos <= |s| && count <= r.count <= 6
    decreases 6 - count
  {
    var e := ReadEol(scheme, s, pos);
    if e.NoEol? then EolsRead(tag1d, count, pos)
    else
      var tag := if scheme.Mr? then e.tag1d else tag1d;
      if count + 1 == 6 then EolsRead(tag, 6, e.pos) else ReadEols(scheme, s, e.pos, tag, count + 1)
  }

  /** The cursor of the next EOL, or |s| + 1 when fewer than 12 bits remain first. */
  function Resync(scheme: Scheme, s: Bits, pos: nat): (r: nat)
    requires pos <= |s|
    ensures r >= pos
    decreases |s| - pos
  {
    if |s| - pos < 12 then |s| + 1
    else if ReadEol(scheme, s, pos).EolRead? then pos
    else Resync(scheme, s, pos + 1)
  }

  datatype Status = Running | Ended | Stopped | Broken

  /** A page being decoded: lines so far, which of them conceal damage, the line that
      conceals, the reference line. */
  datatype Page = Page(pos: nat, rows: seq<Row>, concealed: seq<bool>, goodRow: Row, ref: seq<nat>, status: Status)

  function StartPage(width: nat): Page {
    Page(0, [], [], White(width), [width], Running)
  }

  function Emit(p: Page, row: Row, pos: nat, bad: bool): Page {
    p.(pos := pos, rows := p.rows + [row], concealed := p.concealed + [bad],
       goodRow := if bad then p.goodRow else row, ref := Runs(row, 0, false))
  }

  /** T.4: one turn of the line loop. */
  function RowTurn(scheme: Scheme, width: nat, s: Bits, p: Page): (q: Page)
    requires 1 <= width && p.pos <= |s| && p.status.Running?
    ensures q.status.Running? ==> p.pos < q.pos <= |s|
  {
    var e := ReadEols(scheme, s, p.pos, false, 0);
    if e.count >= 6 || |s| - e.pos < 8 then p.(status := Ended)
    else
      var row1d := scheme.Mh? || e.tag1d || (p.rows == [] && e.count == 0);
      var r := if row1d then Dec1D(s, e.pos, White(width), 0, false)
               else Dec2D(s, e.pos, p.ref, White(width), -1, false);
      if r.RowBad? then
        var y := Resync(scheme, s, r.pos);
        Emit(p, p.goodRow, y, true).(status := if y > |s| then Ended else Running)
      else
        var q := Emit(p, r.row, r.pos, false);
        if |q.rows| > MAX_ROWS then q.(status := Stopped) else q
  }

  /** T.6: one turn of the line loop. */
  function RowTurnMmr(width: nat, s: Bits, p: Page): (q: Page)
    requires 1 <= width && p.pos <= |s| && p.status.Running?
    ensures q.status.Running? ==> p.pos < q.pos <= |s|
  {
    if |s| - p.pos < 8 || ReadEol(Mmr, s, p.pos).EolRead? then p.(status := Ended)
    else
      var r := Dec2D(s, p.pos, p.ref, White(width), -1, false);
      if r.RowBad? then p.(status := Broken)
      else
        var q := Emit(p, r.row, r.pos, false);
        if |q.rows| > MAX_ROWS then q.(status := Stopped) else q
  }

  function Turn(scheme: Scheme, width: nat, s: Bits, p: Page): (q: Page)
    requires 1 <= width && p.pos <= |s| && p.status.Running?
    ensures q.status.Running? ==> p.pos < q.pos <= |s|
  {
    if scheme.Mmr? then RowTurnMmr(width, s, p) else RowTurn(scheme, width, s, p)
  }

  /** Decoding terminates on any bits: every turn that goes on moves the cursor. */
  function DecodePage(scheme: Scheme, width: nat, s: Bits, p: Page): Page
    requires 1 <= width && (p.status.Running? ==> p.pos <= |s|)
    decreases if p.status.Running? then 1 + |s| - p.pos else 0
  {
    if !p.status.Running? then p
    else
      hide Turn;
      DecodePage(scheme, width, s, Turn(scheme, width, s, p))
  }
}
