/** The T.4/T.6 decoder object (nf_t4.c: struct nf_t4_dec): a bit cursor over the received
    bytes, a packed line under construction, the reference line's changing elements and the
    last good line.  Each method is proved against the reading function of the same purpose
    in T4Runs, T4Rows and T4Page. */
module T4Decoder {
  import opened Arithmetic
  import opened BitIo
  import opened T4Codes
  import opened T4Runs
  import opened T4Rows
  import opened T4Page
  import opened T4Pixels

  // ---------------------------------------------------------------- canonical codes

  /** The number a bit string stands for, first bit most significant. */
  function MsbValue(b: Bits): nat {
    if b == [] then 0 else 2 * MsbValue(b[..|b| - 1]) + (if b[|b| - 1] then 1 else 0)
  }

  lemma MsbSnoc(b: Bits, x: bool)
    ensures MsbValue(b + [x]) == 2 * MsbValue(b) + (if x then 1 else 0)
  {
    assert (b + [x])[..|b|] == b;
  }

  lemma {:induction false} MsbInjective(a: Bits, b: Bits)
    requires |a| == |b| && MsbValue(a) == MsbValue(b)
    ensures a == b
  {
    if a != [] {
      var n := |a| - 1;
      MsbInjective(a[..n], b[..n]);
      assert a == a[..n] + [a[n]] && b == b[..n] + [b[n]];
    }
  }

  /** The code with its bits reversed: built up from the low end, as the reader does. */
  method Canonical(code: nat, length: nat) returns (canon: nat)
    ensures canon == MsbValue(LsbBits(code, length))
  {
    hide LsbBits, MsbValue;
    var c := code;
    canon := 0;
    ghost var done: Bits := [];
    MsbNil();
    for i := 0 to length
      invariant canon == MsbValue(done) && done + LsbBits(c, length - i) == LsbBits(code, length)
    {
      LsbBitsCons(c, length - i);
      MsbSnoc(done, c % 2 == 1);
      Assoc(done, [c % 2 == 1], LsbBits(c / 2, length - i - 1));
      canon := 2 * canon + c % 2;
      done := done + [c % 2 == 1];
      c := c / 2;
    }
    assert LsbBits(c, 0) == [];
    assert done == LsbBits(code, length);
  }

  lemma MsbNil()
    ensures MsbValue([]) == 0
  {
  }

  /** Searches the table for a code of `n` bits whose reading is `v`. */
  method FindCode(black: bool, v: nat, n: nat, ghost bits: Bits) returns (i: nat)
    requires |bits| == n && v == MsbValue(bits)
    ensures i == LookUp(black, bits, 0)
  {
    hide Entry, LsbBits, MsbValue;
    i := 0;
    while i < TABLE_LEN
      invariant i <= TABLE_LEN && LookUp(black, bits, i) == LookUp(black, bits, 0)
    {
      var e := Entry(black, i);
      if e.length == n {
        var canon := Canonical(e.code, n);
        if canon == v {
          MsbInjective(CodeBits(black, i), bits);
          return;
        }
      }
      i := i + 1;
    }
  }

  /** Reading a code, one bit further. */
  lemma CodeSoFar(s: Bits, pos: nat, black: bool, n: nat)
    requires n <= 14 && pos + n <= |s|
    ensures n == 14 || pos + n == |s| ==> ReadCode(s, pos, black, n) == Got(-1, pos + n)
    ensures n < 14 && pos + n < |s| ==>
              var piece := s[pos..pos + n] + [s[pos + n]];
              var i := LookUp(black, piece, 0);
              && piece == s[pos..pos + n + 1]
              && ReadCode(s, pos, black, n)
                 == if i < TABLE_LEN then Got(Entry(black, i).run, pos + n + 1) else ReadCode(s, pos, black, n + 1)
  {
    hide LookUp, Entry;
    assert n < 14 && pos + n < |s| ==> s[pos..pos + n] + [s[pos + n]] == s[pos..pos + n + 1];
  }

  lemma ZeroRunStep(s: Bits, pos: nat)
    requires pos <= |s|
    ensures ZeroRun(s, pos) == if pos < |s| && !s[pos] then 1 + ZeroRun(s, pos + 1) else 0
  {
  }

  lemma OneRun(s: Bits, pos: nat, row: Row, a: nat, color: bool)
    requires pos <= |s| && a < |row|
    ensures var g := ReadRun(s, pos, color, 0);
            var b := if a + g.run > |row| then |row| else a + g.run;
            Dec1D(s, pos, row, a, color)
              == if g.run < 0 then RowBad(g.pos) else Dec1D(s, g.pos, if color then SetRange(row, a, b) else row, b, !color)
  {
    hide ReadRun, SetRange;
  }

  lemma LineDone(s: Bits, pos: nat, row: Row, color: bool)
    requires pos <= |s|
    ensures Dec1D(s, pos, row, |row|, color) == RowOk(row, pos)
  {
  }

  lemma OneStep(s: Bits, pos: nat, ref: seq<nat>, row: Row, a0: int, color: bool)
    requires pos <= |s| && a0 < |row|
    ensures var t := DecodeStep(s, pos, ref, row, a0, color);
            Dec2D(s, pos, ref, row, a0, color)
              == if t.Failed? then RowBad(t.pos) else Dec2D(s, t.pos, ref, t.row, t.a0, t.color)
  {
    hide DecodeStep;
  }

  lemma RowDone(s: Bits, pos: nat, ref: seq<nat>, row: Row, a0: int, color: bool)
    requires pos <= |s| && a0 >= |row|
    ensures Dec2D(s, pos, ref, row, a0, color) == RowOk(row, pos)
  {
  }

  /** How many lines are marked. */
  function Trues(b: seq<bool>): nat {
    if b == [] then 0 else Trues(b[..|b| - 1]) + (if b[|b| - 1] then 1 else 0)
  }

  lemma {:induction false} NoTrues(n: nat)
    ensures Trues(Zeros(n)) == 0
  {
    if n > 0 {
      assert Zeros(n)[..n - 1] == Zeros(n - 1);
      NoTrues(n - 1);
    }
  }

  lemma TruesSnoc(b: seq<bool>, x: bool)
    ensures Trues(b + [x]) == Trues(b) + (if x then 1 else 0)
  {
    assert (b + [x])[..|b|] == b;
  }

  lemma TurnIs(scheme: Scheme, width: nat, s: Bits, p: Page)
    requires 1 <= width && p.pos <= |s| && p.status.Running?
    ensures Turn(scheme, width, s, p) == if scheme.Mmr? then RowTurnMmr(width, s, p) else RowTurn(scheme, width, s, p)
    ensures !scheme.Mmr? ==> !Turn(scheme, width, s, p).status.Broken?
  {
    hide ReadEols, Resync, Dec1D, Dec2D, RowTurnMmr;
  }

  // ---------------------------------------------------------------- the decoder

  class Decoder {
    const width: nat
    const scheme: Scheme
    var data: seq<Byte>
    var bitpos: nat
    var row: array<Byte>
    var goodRow: array<Byte>
    var ref: array<nat>
    var refN: nat
    var emitted: seq<seq<Byte>>
    var rows: nat
    var badRows: nat
    var ended: bool
    ghost var concealed: seq<bool>

    ghost function Received(): Bits
      reads this`data
    {
      BytesBits(data)
    }

    method BitsLeft() returns (n: int)
      ensures n == |Received()| - bitpos
    {
      n := 8 * |data| - bitpos;
    }

    /** Next bit, or -1 when the data are used up. */
    method GetBit() returns (b: int)
      modifies this`bitpos
      ensures old(bitpos) >= |Received()| ==> b == -1 && bitpos == old(bitpos)
      ensures old(bitpos) < |Received()| ==> bitpos == old(bitpos) + 1 && b == if Received()[old(bitpos)] then 1 else 0
    {
      hide BytesBits, Pow;
      if bitpos >= 8 * |data| { return -1; }
      BytesBitAt(data, bitpos);
      b := (data[bitpos / 8] / Pow(2, bitpos % 8)) % 2;
      bitpos := bitpos + 1;
    }

    /** One code: bits are read until a table row matches, fourteen at most. */
    method ReadCode(black: bool) returns (run: int)
      requires bitpos <= |Received()|
      modifies this`bitpos
      ensures Got(run, bitpos) == T4Runs.ReadCode(Received(), old(bitpos), black, 0)
    {
      hide Received, LookUp, MsbValue, Entry, CodeBits, T4Runs.ReadCode;
      ghost var s, pos := Received(), bitpos;
      ghost var bits: Bits := [];
      var v: nat, n: nat := 0, 0;
      MsbNil();
      while n < 14
        invariant n <= 14 && bitpos == pos + n <= |s| && bits == s[pos..pos + n]
        invariant v == MsbValue(bits)
        invariant T4Runs.ReadCode(s, pos, black, n) == T4Runs.ReadCode(s, pos, black, 0)
        decreases 14 - n
      {
        var b := GetBit();
        CodeSoFar(s, pos, black, n);
        if b < 0 { return -1; }
        MsbSnoc(bits, s[pos + n]);
        bits := bits + [s[pos + n]];
        v := 2 * v + b;
        n := n + 1;
        var i := FindCode(black, v, n, bits);
        if i < TABLE_LEN { return Entry(black, i).run; }
      }
      CodeSoFar(s, pos, black, 14);
      run := -1;
    }

    /** A complete run: make-up codes and a terminating code, capped. */
    method ReadRun(black: bool) returns (total: int)
      requires bitpos <= |Received()|
      modifies this`bitpos
      ensures Got(total, bitpos) == T4Runs.ReadRun(Received(), old(bitpos), black, 0)
    {
      hide BytesBits, T4Runs.ReadCode;
      ghost var s := Received();
      total := 0;
      while true
        invariant old(bitpos) <= bitpos <= |s| && 0 <= total <= RUN_CAP
        invariant T4Runs.ReadRun(s, bitpos, black, total) == T4Runs.ReadRun(s, old(bitpos), black, 0)
        decreases |s| - bitpos
      {
        var r := ReadCode(black);
        if r < 0 { return -1; }
        total := total + r;
        if total > RUN_CAP { total := RUN_CAP; }
        if r < 64 { return; }
      }
    }

    // -------------------------------------------------------------- EOLs

    /** An EOL at the cursor, with its tag bit in T.4 2-D; the cursor stays put without one.
        `tag` is the tag passed in unless an EOL overwrites it. */
    method ConsumeEol(was: bool) returns (found: bool, tag: bool)
      requires bitpos <= |Received()|
      modifies this`bitpos
      ensures var e := ReadEol(scheme, Received(), old(bitpos));
              && found == e.EolRead?
              && bitpos == (if e.EolRead? then e.pos else old(bitpos))
              && tag == (if e.EolRead? && scheme.Mr? then e.tag1d else was)
    {
      hide Received, ZeroRun;
      ghost var s := Received();
      var save := bitpos;
      var zeros := 0;
      tag := was;
      var b := GetBit();
      while b == 0
        invariant save + zeros <= |s|
        invariant ZeroRun(s, save) == zeros + ZeroRun(s, save + zeros)
        invariant if save + zeros == |s| then b == -1 && bitpos == |s|
                  else bitpos == save + zeros + 1 && b == if s[save + zeros] then 1 else 0
        decreases |s| - bitpos, b
      {
        ZeroRunStep(s, save + zeros);
        zeros := zeros + 1;
        b := GetBit();
      }
      ZeroRunStep(s, save + zeros);
      if b == 1 && zeros >= 11 {
        if scheme.Mr? {
          var t := GetBit();
          tag := t == 1;
        }
        return true, tag;
      }
      bitpos := save;
      found := false;
    }

    /** All EOLs at the cursor, six at most. */
    method ConsumeEols() returns (tag: bool, count: nat)
      requires bitpos <= |Received()|
      modifies this`bitpos
      ensures EolsRead(tag, count, bitpos) == ReadEols(scheme, Received(), old(bitpos), false, 0)
    {
      hide Received, ReadEol;
      ghost var s := Received();
      tag, count := false, 0;
      while true
        invariant bitpos <= |s| && count < 6
        invariant ReadEols(scheme, s, bitpos, tag, count) == ReadEols(scheme, s, old(bitpos), false, 0)
        decreases 6 - count
      {
        var found;
        found, tag := ConsumeEol(tag);
        if !found { return; }
        count := count + 1;
        if count >= 6 { return; }
      }
    }

    // -------------------------------------------------------------- lines

    ghost predicate Valid()
      reads this`row, this`goodRow, this`ref, this`refN, ref
    {
      && width >= 1
      && row.Length == goodRow.Length == Stride(width) && row != goodRow
      && ref.Length == width + 4 && refN <= ref.Length
      && forall i :: 0 <= i < refN ==> ref[i] <= width
    }

    method DecodeRow1D() returns (ok: bool)
      requires Valid() && bitpos <= |Received()|
      modifies this`bitpos, row
      ensures var r := Dec1D(Received(), old(bitpos), White(width), 0, false);
              bitpos == r.pos && ok == r.RowOk? && (ok ==> Pixels(row[..], width) == r.row)
    {
      hide Received, Pixels, Dec1D, T4Runs.ReadRun, SetRange;
      ghost var s := Received();
      Clear(row, width);
      var a, black := 0, false;
      while a < width
        invariant 0 <= a <= width && old(bitpos) <= bitpos <= |s|
        invariant Dec1D(s, bitpos, Pixels(row[..], width), a, black) == Dec1D(s, old(bitpos), White(width), 0, false)
        decreases |s| - bitpos
      {
        OneRun(s, bitpos, Pixels(row[..], width), a, black);
        var run := ReadRun(black);
        if run < 0 { return false; }
        if a + run > width { run := width - a; }
        if black { FillRange(row, width, a, a + run); }
        a := a + run;
        black := !black;
      }
      LineDone(s, bitpos, Pixels(row[..], width), black);
      ok := true;
    }

    /** b1 and b2, by a scan of the whole reference line. */
    method FindB(a0: int, color: bool) returns (b1: nat, b2: nat)
      requires Valid()
      ensures var i := FirstB(ref[..refN], a0, color, 0);
              b1 == Ref(ref[..refN], width, i) && b2 == Ref(ref[..refN], width, i + 1)
      ensures b1 <= width && b2 <= width
    {
      ghost var l := ref[..refN];
      var k := 0;
      while k < refN
        invariant k <= refN && FirstB(l, a0, color, k) == FirstB(l, a0, color, 0)
      {
        if ref[k] > a0 && (k % 2 == 0) == !color { break; }
        k := k + 1;
      }
      b1 := if k < refN then ref[k] else width;
      b2 := if k + 1 < refN then ref[k + 1] else width;
    }

    /** A two-dimensional mode: at most seven bits until one is complete. */
    method NextMode() returns (m: ReadMode)
      requires bitpos <= |Received()|
      modifies this`bitpos
      ensures m == ParseMode(Received(), old(bitpos), 0, 0) && bitpos == m.pos
    {
      hide Received, ModeOf;
      ghost var s := Received();
      var v: nat, n: nat := 0, 0;
      while n < 7
        invariant n <= 7 && bitpos <= |s|
        invariant ParseMode(s, bitpos, v, n) == ParseMode(s, old(bitpos), 0, 0)
        decreases 7 - n
      {
        var bit := GetBit();
        if bit < 0 { return NoMode(bitpos); }
        v := 2 * v + bit;
        n := n + 1;
        var mode := ModeOf(v, n);
        if mode != [] { return ReadMode(mode[0], bitpos); }
      }
      m := NoMode(bitpos);
    }

    method DecodeRow2D() returns (ok: bool)
      requires Valid() && bitpos <= |Received()|
      modifies this`bitpos, row
      ensures var r := Dec2D(Received(), old(bitpos), ref[..refN], White(width), -1, false);
              bitpos == r.pos && ok == r.RowOk? && (ok ==> Pixels(row[..], width) == r.row)
    {
      hide Received, Pixels, Dec2D, DecodeStep, FirstB, T4Runs.ReadRun, ParseMode, SetRange;
      ghost var s, l := Received(), ref[..refN];
      Clear(row, width);
      var a0: int, color := -1, false;
      while a0 < width
        invariant old(bitpos) <= bitpos <= |s| && -1 <= a0
        invariant Dec2D(s, bitpos, l, Pixels(row[..], width), a0, color) == Dec2D(s, old(bitpos), l, White(width), -1, false)
        decreases |s| - bitpos
      {
        OneStep(s, bitpos, l, Pixels(row[..], width), a0, color);
        ok, a0, color := DecodeMode(a0, color);
        if !ok { return; }
      }
      RowDone(s, bitpos, l, Pixels(row[..], width), a0, color);
      ok := true;
    }

    /** One mode of a two-dimensional line: its pixels set, the next position and colour. */
    method DecodeMode(a0: int, color: bool) returns (ok: bool, next: int, nextColor: bool)
      requires Valid() && bitpos <= |Received()| && -1 <= a0 < width
      modifies this`bitpos, row
      ensures var t := DecodeStep(Received(), old(bitpos), ref[..refN], old(Pixels(row[..], width)), a0, color);
              && bitpos == t.pos && ok == t.Next?
              && (ok ==> next == t.a0 && nextColor == t.color && Pixels(row[..], width) == t.row)
    {
      hide Received, Pixels, FirstB, Ref, T4Runs.ReadRun, ParseMode, SetRange;
      var b1, b2 := FindB(a0, color);
      var m := NextMode();
      ok, next, nextColor := false, a0, color;
      if m.NoMode? { return; }
      var start := if a0 < 0 then 0 else a0;
      match m.mode
      case Pass =>
        if color { FillRange(row, width, start, b2); }
        ok, next := true, b2;
      case Vertical(d) =>
        var a1 := b1 + d;
        if a1 < 0 { a1 := 0; }
        if a1 > width { a1 := width; }
        if color { FillRange(row, width, start, a1); }
        ok, next, nextColor := true, a1, !color;
      case Horizontal =>
        var r1 := ReadRun(color);
        var r2 := ReadRun(!color);
        if r1 < 0 || r2 < 0 { return; }
        var a1 := start + r1;
        if a1 > width { a1 := width; }
        var a2 := a1 + r2;
        if a2 > width { a2 := width; }
        if color { FillRange(row, width, start, a1); } else { FillRange(row, width, a1, a2); }
        ok, next := true, a2;
    }

    // -------------------------------------------------------------- the page

    /** The decoder has handed over the lines `lines`, those marked being concealed; `good`
        conceals the next one; `changes` is the reference. */
    ghost predicate Keeps(lines: seq<Row>, marks: seq<bool>, good: Row, changes: seq<nat>)
      reads this`row, this`goodRow, this`ref, this`refN, this`emitted, this`concealed, this`rows, this`badRows, goodRow, ref
    {
      && Valid()
      && rows == |emitted| && concealed == marks && |marks| == rows
      && badRows == Trues(marks)
      && Packed(emitted, width) && Lines(emitted, width) == lines
      && Pixels(goodRow[..], width) == good
      && ref[..refN] == changes
    }

    constructor (width: nat, scheme: Scheme)
      requires width >= 1
      ensures Keeps([], [], White(width), [width])
      ensures fresh(row) && fresh(goodRow) && fresh(ref)
      ensures this.width == width && this.scheme == scheme && !ended
    {
      this.width := width;
      this.scheme := scheme;
      data, bitpos, emitted, rows, badRows, ended, concealed := [], 0, [], 0, 0, false, [];
      row := new Byte[Stride(width)];
      goodRow := new Byte[Stride(width)](_ => 0);
      ref := new nat[width + 4];
      refN := 1;
      new;
      ref[0] := width;
      assert ref[..refN] == [width];
      BlankPixels(goodRow[..], width);
    }

    /** emit_row: the line goes to the handler and becomes the reference. */
    method EmitRow()
      requires Valid() && rows == |emitted| && Packed(emitted, width)
      modifies this`emitted, this`rows, this`refN, ref
      ensures Valid() && rows == |emitted| == |old(emitted)| + 1 && Packed(emitted, width)
      ensures Lines(emitted, width) == Lines(old(emitted), width) + [Pixels(row[..], width)]
      ensures ref[..refN] == Runs(Pixels(row[..], width), 0, false)
    {
      hide Runs, Pixels, Packed, Lines;
      LinesSnoc(emitted, row[..], width);
      emitted := emitted + [row[..]];
      rows := rows + 1;
      LineIsReference(Pixels(row[..], width));
      refN := RowRuns(ref, row[..], width);
      assert forall i :: 0 <= i < refN ==> ref[i] == ref[..refN][i];
    }

    /** A damaged line is replaced by the last good one and counted. */
    method Conceal(ghost p: Page)
      requires Keeps(p.rows, p.concealed, p.goodRow, p.ref)
      modifies this`emitted, this`rows, this`badRows, this`refN, this`concealed, ref, row
      ensures var q := Emit(p, p.goodRow, bitpos, true); Keeps(q.rows, q.concealed, q.goodRow, q.ref)
    {
      hide Runs, Pixels, Packed, Lines, Trues;
      ghost var g := goodRow[..];
      forall i | 0 <= i < row.Length { row[i] := goodRow[i]; }
      assert row[..] == g;
      TruesSnoc(concealed, true);
      EmitRow();
      assert goodRow[..] == g;
      concealed := concealed + [true];
      badRows := badRows + 1;
    }

    /** A good line is kept for concealment and handed over. */
    method Deliver(ghost p: Page)
      requires Keeps(p.rows, p.concealed, p.goodRow, p.ref)
      modifies this`emitted, this`rows, this`refN, this`concealed, ref, goodRow
      ensures var q := Emit(p, Pixels(row[..], width), bitpos, false); Keeps(q.rows, q.concealed, q.goodRow, q.ref)
      ensures rows == |p.rows| + 1
    {
      hide Runs, Pixels, Packed, Lines, Trues;
      forall i | 0 <= i < row.Length { goodRow[i] := row[i]; }
      assert row[..] == goodRow[..];
      TruesSnoc(concealed, false);
      EmitRow();
      concealed := concealed + [false];
    }

    /** Moves the cursor to the next EOL; without one the page has ended. */
    method FindEol()
      requires bitpos <= |Received()|
      modifies this`bitpos, this`ended
      ensures var y := Resync(scheme, Received(), old(bitpos));
              if y > |Received()| then ended else bitpos == y && ended == old(ended)
    {
      hide Received, ReadEol;
      ghost var s := Received();
      while true
        invariant bitpos <= |s| && ended == old(ended)
        invariant Resync(scheme, s, bitpos) == Resync(scheme, s, old(bitpos))
        decreases |s| - bitpos
      {
        var left := BitsLeft();
        if left < 12 { ended := true; return; }
        var save := bitpos;
        var found, _ := ConsumeEol(false);
        if found { bitpos := save; return; }
        bitpos := save + 1;
      }
    }

    /** T.4: one turn of the line loop; `more` if decoding goes on. */
    method NextRow(ghost p: Page) returns (more: bool)
      requires !scheme.Mmr? && !ended && p.status.Running? && bitpos == p.pos <= |Received()| && width >= 1
      requires Keeps(p.rows, p.concealed, p.goodRow, p.ref)
      modifies this`bitpos, this`ended, this`emitted, this`rows, this`badRows, this`refN, this`concealed, ref, row, goodRow
      ensures var q := RowTurn(scheme, width, Received(), p);
              && Keeps(q.rows, q.concealed, q.goodRow, q.ref)
              && more == q.status.Running? && ended == q.status.Ended? && (more ==> bitpos == q.pos)
    {
      hide Received, Keeps, Runs, Pixels, Dec1D, Dec2D, ReadEols, Resync;
      KeepsMeans(p);
      var tag1d, count := ConsumeEols();
      var left := BitsLeft();
      if count >= 6 || left < 8 { ended := true; return false; }
      var row1d := scheme.Mh? || tag1d || (rows == 0 && count == 0);
      var ok;
      if row1d { ok := DecodeRow1D(); } else { ok := DecodeRow2D(); }
      if !ok {
        Conceal(p);
        FindEol();
        more := !ended;
      } else {
        Deliver(p);
        more := rows <= MAX_ROWS;
      }
    }

    lemma KeepsMeans(p: Page)
      requires Keeps(p.rows, p.concealed, p.goodRow, p.ref)
      ensures Valid() && |p.rows| == rows && ref[..refN] == p.ref && |p.concealed| == rows && badRows == Trues(p.concealed)
    {
    }

    /** T.6: one turn of the line loop; a damaged line breaks the page off. */
    method NextRowMmr(ghost p: Page) returns (more: bool, broken: bool)
      requires scheme.Mmr? && !ended && p.status.Running? && bitpos == p.pos <= |Received()| && width >= 1
      requires Keeps(p.rows, p.concealed, p.goodRow, p.ref)
      modifies this`bitpos, this`ended, this`emitted, this`rows, this`refN, this`concealed, ref, row, goodRow
      ensures var q := RowTurnMmr(width, Received(), p);
              && Keeps(q.rows, q.concealed, q.goodRow, q.ref)
              && more == q.status.Running? && ended == q.status.Ended? && broken == q.status.Broken? && (more ==> bitpos == q.pos)
    {
      hide Received, Keeps, Runs, Pixels, Dec2D, ReadEol;
      KeepsMeans(p);
      broken := false;
      var left := BitsLeft();
      if left < 8 { ended := true; return false, false; }
      var found, _ := ConsumeEol(false);
      if found { ended := true; return false, false; }
      var ok := DecodeRow2D();
      if !ok { return false, true; }
      Deliver(p);
      more := rows <= MAX_ROWS;
    }

    /** nf_t4_dec_put: the whole page at once.  1: the page ended; 0: too many lines;
        -1: a damaged T.6 line. */
    method Put(bytes: seq<Byte>, ghost p: Page) returns (r: int)
      requires width >= 1 && !ended && p.pos == 0 && p.status.Running? && Keeps(p.rows, p.concealed, p.goodRow, p.ref)
      modifies this`data, this`bitpos, this`ended, this`emitted, this`rows, this`badRows, this`refN, this`concealed, ref, row, goodRow
      ensures var q := DecodePage(scheme, width, BytesBits(bytes), p);
              && Keeps(q.rows, q.concealed, q.goodRow, q.ref)
              && rows == |q.rows| && badRows == Trues(q.concealed)
              && r == match q.status case Ended => 1 case Broken => -1 case _ => 0
    {
      hide Keeps, Turn, BytesBits;
      data, bitpos := bytes, 0;
      ghost var s := Received();
      ghost var q := p;
      var more := true;
      while more
        invariant Received() == s && Keeps(q.rows, q.concealed, q.goodRow, q.ref)
        invariant more == q.status.Running? && ended == q.status.Ended? && !q.status.Broken? && (more ==> bitpos == q.pos <= |s|)
        invariant DecodePage(scheme, width, s, q) == DecodePage(scheme, width, s, p)
        decreases if more then 1 + |s| - bitpos else 0
      {
        TurnIs(scheme, width, s, q);
        if scheme.Mmr? {
          var broken;
          more, broken := NextRowMmr(q);
          q := Turn(scheme, width, s, q);
          if broken {
            KeepsMeans(q);
            return -1;
          }
        } else {
          more := NextRow(q);
          q := Turn(scheme, width, s, q);
        }
      }
      KeepsMeans(q);
      r := if ended then 1 else 0;
    }
  }
}
