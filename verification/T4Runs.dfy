/** Coding and decoding of one run length (nf_t4.c: put_1d_span, read_code, read_run). */
module T4Runs {
  import opened Arithmetic
  import opened BitIo
  import opened T4Codes

  /** Runs above this are read as this. */
  const RUN_CAP: nat := 0x10_0000

  /** A run's codes: 2560 make-ups while the rest is large, at most one smaller make-up,
      one terminating code. */
  function Run(black: bool, span: nat): Bits
    decreases span
  {
    if span >= 2560 + 64 then CodeBits(black, 103) + Run(black, span - 2560)
    else if span >= 64 then CodeBits(black, 63 + span / 64) + CodeBits(black, span % 64)
    else CodeBits(black, span)
  }

  /** A decoded run (-1: no code) and the cursor afterwards. */
  datatype Got = Got(run: int, pos: nat)

  function Cap(n: int): int {
    if n > RUN_CAP then RUN_CAP else n
  }

  /** First table row at or after `i` whose code is exactly `b`; TABLE_LEN if none. */
  function LookUp(black: bool, b: Bits, i: nat): (r: nat)
    requires i <= TABLE_LEN
    ensures i <= r <= TABLE_LEN
    ensures r < TABLE_LEN ==> CodeBits(black, r) == b
    decreases TABLE_LEN - i
  {
    if i == TABLE_LEN then TABLE_LEN
    else if CodeBits(black, i) == b then i
    else LookUp(black, b, i + 1)
  }

  lemma {:induction false} LookUpFinds(black: bool, b: Bits, i: nat, k: nat)
    requires i <= k < TABLE_LEN
    requires CodeBits(black, k) == b
    ensures LookUp(black, b, i) <= k
    decreases k - i
  {
    hide CodeBits;
    if i < k { LookUpFinds(black, b, i + 1, k); }
  }

  /** Extends the code by one bit until a table row matches, at most 14 bits. */
  function ReadCode(s: Bits, pos: nat, black: bool, n: nat): (g: Got)
    requires n <= 14 && pos + n <= |s|
    ensures pos + n <= g.pos <= |s|
    ensures g.run >= 0 ==> g.pos > pos + n
    ensures g.run < 0 ==> g.pos == |s| || g.pos == pos + 14
    ensures n < 14 && pos + n < |s| ==> pos + n < g.pos
    decreases 14 - n
  {
    if n == 14 || pos + n == |s| then Got(-1, pos + n)
    else
      var i := LookUp(black, s[pos..pos + n + 1], 0);
      if i < TABLE_LEN then Got(Entry(black, i).run, pos + n + 1)
      else ReadCode(s, pos, black, n + 1)
  }

  /** A code on the line is read as itself: no shorter piece of it is a code. */
  lemma {:induction false} ReadsCode(s: Bits, pos: nat, black: bool, i: nat, n: nat)
    requires i < TABLE_LEN
    requires At(s, pos, CodeBits(black, i))
    requires n < |CodeBits(black, i)|
    ensures |CodeBits(black, i)| <= LONGEST
    ensures ReadCode(s, pos, black, n) == Got(Entry(black, i).run, pos + |CodeBits(black, i)|)
    decreases 14 - n
  {
    hide CodeBits, Entry;
    var c := CodeBits(black, i);
    CodeLength(black, i);
    var piece := s[pos..pos + n + 1];
    assert piece == c[..n + 1];
    var j := LookUp(black, piece, 0);
    if j < TABLE_LEN {
      PrefixFree(black, j, i);
    }
    if n + 1 == |c| {
      assert piece == c;
      LookUpFinds(black, piece, 0, i);
    } else {
      ReadsCode(s, pos, black, i, n + 1);
    }
  }

  lemma CodeLength(black: bool, i: nat)
    requires i < TABLE_LEN
    ensures 1 <= |CodeBits(black, i)| <= LONGEST
    ensures Entry(black, i).run == if i < 64 then i else 64 * (i - 63)
    ensures Entry(black, i).length <= LONGEST && Entry(black, i).code < Pow(2, Entry(black, i).length)
  {
    RowsInTree(black, i, seq(LONGEST, _ => false));
    hide Entry, Slot;
    SizeIsPower(Entry(black, i).length);
  }

  /** Adds codes up until a terminating one. */
  function ReadRun(s: Bits, pos: nat, black: bool, total: int): (g: Got)
    requires pos <= |s|
    ensures pos <= g.pos <= |s|
    ensures pos < |s| ==> pos < g.pos
    ensures g.run >= 0 ==> g.pos > pos
    decreases |s| - pos
  {
    var c := ReadCode(s, pos, black, 0);
    if c.run < 0 then Got(-1, c.pos)
    else if c.run >= 64 then ReadRun(s, c.pos, black, Cap(total + c.run))
    else
      var t := Cap(total + c.run);
      if t < 0 then Got(-1, c.pos) else Got(t, c.pos)
  }

  lemma ReadsTerminating(s: Bits, pos: nat, black: bool, i: nat, total: nat)
    requires i < 64
    requires At(s, pos, CodeBits(black, i))
    ensures ReadRun(s, pos, black, total) == Got(Cap(total + i), pos + |CodeBits(black, i)|)
  {
    hide CodeBits, Entry, ReadCode;
    CodeLength(black, i);
    ReadsCode(s, pos, black, i, 0);
  }

  lemma ReadsMakeUp(s: Bits, pos: nat, black: bool, i: nat, total: nat)
    requires 64 <= i < TABLE_LEN
    requires At(s, pos, CodeBits(black, i))
    ensures ReadRun(s, pos, black, total)
         == ReadRun(s, pos + |CodeBits(black, i)|, black, Cap(total + 64 * (i - 63)))
  {
    hide CodeBits, Entry, ReadCode;
    CodeLength(black, i);
    ReadsCode(s, pos, black, i, 0);
  }

  /** Every run length is read back from its codes, saturated at the cap. */
  lemma {:induction false} RunRoundTrip(s: Bits, pos: nat, black: bool, span: nat, total: nat)
    requires At(s, pos, Run(black, span))
    ensures ReadRun(s, pos, black, total) == Got(Cap(total + span), pos + |Run(black, span)|)
    decreases span
  {
    hide CodeBits, ReadRun, At;
    if span >= 2560 + 64 {
      AtSplit(s, pos, CodeBits(black, 103), Run(black, span - 2560));
      ReadsMakeUp(s, pos, black, 103, total);
      hide Run;
      RunRoundTrip(s, pos + |CodeBits(black, 103)|, black, span - 2560, Cap(total + 2560));
    } else if span >= 64 {
      var i, j := 63 + span / 64, span % 64;
      assert span == 64 * (i - 63) + j;
      AtSplit(s, pos, CodeBits(black, i), CodeBits(black, j));
      ReadsMakeUp(s, pos, black, i, total);
      ReadsTerminating(s, pos + |CodeBits(black, i)|, black, j, Cap(total + 64 * (i - 63)));
    } else {
      ReadsTerminating(s, pos, black, span, total);
    }
  }
}
