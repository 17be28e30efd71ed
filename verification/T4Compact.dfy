/** What the coder promises of its output (nf_t4.c): two-dimensional code is as short as the
    reference allows, every K-th line is one-dimensional, and FILL brings lines to their
    minimum length. */
module T4Compact {
  import opened Arithmetic
  import opened BitIo
  import opened T4Rows
  import opened T4Page
  import opened T4PageProofs
  import opened T4Resync

  // ---------------------------------------------------------------- lines near their reference

  /** How far element `i` lies right of its counterpart. */
  function Shift(l: seq<nat>, m: seq<nat>, i: nat): int
    requires i < |l| == |m|
  {
    var x: int, y: int := l[i], m[i];
    x - y
  }

  /** Element `i` lies within three pixels of its counterpart, which is the first of its colour
      right of the element before and not followed by another left of it. */
  ghost predicate FollowsAt(l: seq<nat>, m: seq<nat>, i: nat)
    requires i < |l| == |m|
  {
    && -3 <= Shift(l, m, i) <= 3 && (i >= 1 ==> l[i - 1] < m[i])
    && (i >= 2 ==> m[i - 2] <= l[i - 1]) && (i + 1 < |l| ==> l[i] <= m[i + 1])
  }

  /** A line whose changing elements follow those of the reference. */
  ghost predicate Follows(l: seq<nat>, m: seq<nat>) {
    |m| == |l| && forall i: nat :: i < |l| ==> FollowsAt(l, m, i)
  }

  /** Bits for an element `d` pixels from its counterpart. */
  function Cost(d: int): nat {
    if d == 0 then 1 else if -1 <= d <= 1 then 3 else if -2 <= d <= 2 then 6 else 7
  }

  function CostFrom(l: seq<nat>, m: seq<nat>, i: nat): nat
    requires |l| == |m|
    decreases |l| - i
  {
    if i >= |l| then 0 else Cost(Shift(l, m, i)) + CostFrom(l, m, i + 1)
  }

  /** Where coding stands before element `i`. */
  function Before(l: seq<nat>, i: nat): int
    requires i <= |l|
  {
    if i == 0 then -1 else l[i - 1]
  }

  lemma EarlierNot(l: seq<nat>, m: seq<nat>, i: nat, j: nat)
    requires Increasing(m) && Follows(l, m) && j < i < |l|
    ensures m[j] > Before(l, i) ==> (j % 2 == 0) == (i % 2 == 1)
  {
    assert FollowsAt(l, m, i);
    if j == i - 1 {
      OddEven(j);
    } else {
      assert j == i - 2 || m[j] < m[i - 2];
    }
  }

  lemma OddEven(j: nat)
    ensures (j % 2 == 0) == ((j + 1) % 2 == 1)
  {
  }

  /** Coding looks at the counterpart. */
  lemma LooksAt(l: seq<nat>, m: seq<nat>, i: nat, color: bool)
    requires Increasing(m) && Follows(l, m) && i < |l| && color == (i % 2 == 1)
    ensures FirstB(m, Before(l, i), color, 0) == i
  {
    var a0 := Before(l, i);
    forall j: nat | j < i ensures !(m[j] > a0 && (j % 2 == 0) == !color) { EarlierNot(l, m, i, j); }
    assert m[i] > a0 by { assert FollowsAt(l, m, i); }
    hide *;
    FirstIs(m, a0, color, 0, i);
  }

  lemma {:induction false} FirstIs(m: seq<nat>, a0: int, color: bool, k: nat, i: nat)
    requires k <= i < |m| && m[i] > a0 && (i % 2 == 0) == !color
    requires forall j: nat :: k <= j < i ==> !(m[j] > a0 && (j % 2 == 0) == !color)
    ensures FirstB(m, a0, color, k) == i
    decreases i - k
  {
    if k < i { FirstIs(m, a0, color, k + 1, i); }
  }

  /** One step of coding goes to the element. */
  lemma StepCost(row: Row, m: seq<nat>, a0: int, color: bool, k: nat, a1: nat, d: int)
    requires -1 <= a0 < |row| && FirstB(m, a0, color, 0) == k < |m| && a1 == NextChange(row, Start(a0), color)
    requires d == a1 - m[k] && -3 <= d <= 3 && (if k + 1 < |m| then a1 <= m[k + 1] else a1 <= |row|)
    ensures EncodeStep(m, row, a0, color) == Step(ModeBits(Vertical(d)), a1, !color)
  {
    hide ModeBits, NextChange, FirstB;
  }

  lemma CostIs(d: int)
    requires -3 <= d <= 3
    ensures |ModeBits(Vertical(d))| == Cost(d)
  {
    hide ModeBits;
    ModeBitsSpelled(Vertical(d));
  }

  lemma ElementCost(row: Row, l: seq<nat>, m: seq<nat>, i: nat, color: bool)
    requires IsRuns(l, row) && Increasing(m) && Follows(l, m) && i < |l| && -1 <= Before(l, i) < |row|
    requires color == (i % 2 == 1) && l[i] <= |row|
    ensures var t := EncodeStep(m, row, Before(l, i), color);
            |t.bits| == Cost(Shift(l, m, i)) && t.a0 == l[i] && t.color == !color
  {
    hide ModeBits, NextChange, FirstB, EncodeStep, Increasing, Cost;
    LooksAt(l, m, i, color);
    assert FollowsAt(l, m, i);
    CostIs(Shift(l, m, i));
    assert l[i] == NextChange(row, Start(Before(l, i)), color) by {
      if i > 0 {
        OddEven(i - 1);
        assert l[i - 1 + 1] == NextChange(row, l[i - 1], (i - 1) % 2 == 0);
      }
    }
    StepCost(row, m, Before(l, i), color, i, l[i], Shift(l, m, i));
  }

  lemma StandsAt(row: Row, l: seq<nat>, i: nat, color: bool)
    requires IsRuns(l, row) && i < |l| && row != [] && color == (i % 2 == 1)
    ensures Position(row, Before(l, i), color)
  {
    if i > 0 {
      OddEven(i - 1);
      assert l[i - 1] < |row| && row[l[i - 1]] == ((i - 1) % 2 == 0);
    }
  }

  lemma {:induction false} NearFrom(row: Row, l: seq<nat>, m: seq<nat>, i: nat, color: bool)
    requires IsRuns(l, row) && Increasing(m) && Follows(l, m) && row != [] && i < |l| && color == (i % 2 == 1)
    requires forall j :: 0 <= j < |l| ==> l[j] <= |row|
    ensures Position(row, Before(l, i), color) && |l| == |m|
    ensures |Enc2D(m, row, Before(l, i), color)| == CostFrom(l, m, i)
    decreases |l| - i
  {
    hide *;
    StandsAt(row, l, i, color);
    StepFirst2D(m, row, Before(l, i), color);
    PositionWithin(row, Before(l, i), color);
    ElementCost(row, l, m, i, color);
    CostStep(l, m, i);
    OddEven(i);
    if i + 1 < |l| {
      NearFrom(row, l, m, i + 1, !color);
      BeforeNext(l, i);
    } else {
      LastElement(row, l, m, i);
      Coded(m, row, !color);
    }
  }

  lemma PositionWithin(row: Row, a0: int, color: bool)
    requires Position(row, a0, color)
    ensures -1 <= a0 < |row|
  {
  }

  lemma BeforeNext(l: seq<nat>, i: nat)
    requires i < |l|
    ensures Before(l, i + 1) == l[i]
  {
  }

  lemma CostStep(l: seq<nat>, m: seq<nat>, i: nat)
    requires Follows(l, m) && i < |l|
    ensures |l| == |m| && CostFrom(l, m, i) == Cost(Shift(l, m, i)) + CostFrom(l, m, i + 1)
  {
  }

  lemma LastElement(row: Row, l: seq<nat>, m: seq<nat>, i: nat)
    requires IsRuns(l, row) && Follows(l, m) && i + 1 == |l|
    ensures |l| == |m| && l[i] == |row| && CostFrom(l, m, i + 1) == 0
  {
  }

  lemma Coded(m: seq<nat>, row: Row, color: bool)
    requires Increasing(m)
    ensures Enc2D(m, row, |row|, color) == []
  {
  }

  /** A line whose changing elements lie near those of its reference is coded in one, three,
      six or seven bits an element: never as runs, never in pass mode. */
  lemma NearLine(ref: Row, row: Row)
    requires |ref| == |row| >= 1 && Follows(Runs(row, 0, false), Runs(ref, 0, false))
    ensures Increasing(Runs(ref, 0, false))
    ensures |Enc2D(Runs(ref, 0, false), row, -1, false)| == CostFrom(Runs(row, 0, false), Runs(ref, 0, false), 0)
  {
    hide Enc2D, CostFrom, Follows, Increasing, IsRuns;
    LineIsReference(ref);
    LineIsReference(row);
    NearFrom(row, Runs(row, 0, false), Runs(ref, 0, false), 0, false);
  }

  lemma {:induction false} AllAlike(l: seq<nat>, i: nat)
    requires i <= |l|
    ensures CostFrom(l, l, i) == |l| - i
    decreases |l| - i
  {
    if i < |l| { AllAlike(l, i + 1); }
  }

  /** A line like the one before costs one bit for each changing element. */
  lemma RepeatedLine(row: Row)
    requires row != []
    ensures var l := Runs(row, 0, false); Increasing(l) && |Enc2D(l, row, -1, false)| == |l|
  {
    hide Enc2D, CostFrom;
    var l := Runs(row, 0, false);
    LineIsReference(row);
    forall i: nat | i < |l| ensures FollowsAt(l, l, i) {}
    NearLine(row, row);
    AllAlike(l, 0);
  }

  // ---------------------------------------------------------------- the K factor

  function Period(k: int): (max: nat)
    ensures max >= 1
  {
    if k > 0 then k else 2
  }

  /** The coder before line `n` of a period. */
  ghost predicate Counted(k: int, c: Coder, n: nat) {
    n < Period(k) && c.is2d == (n != 0) && c.toNext1d == Period(k) - (if n == 0 then 1 else n)
  }

  lemma CountStep(k: int, c: Coder, row: Row, n: nat)
    requires Increasing(c.ref) && Counted(k, c, n)
    ensures Counted(k, NextCoder(Mr, k, c, row), if n + 1 < Period(k) then n + 1 else 0)
  {
    hide RowBody, Runs;
  }

  lemma {:induction false} EveryKth(k: int, width: nat, c: Coder, rows: seq<Row>, n: nat)
    requires ValidCoder(c, width) && AllWidth(rows, width) && Counted(k, c, n)
    ensures CoderAfter(Mr, k, c, width, rows).is2d == ((n + |rows|) % Period(k) != 0)
    decreases |rows|
  {
    hide *;
    var max := Period(k);
    CountedMeans(k, c, n);
    if rows == [] {
      NoLines(Mr, k, 0, c, width);
      ModSmall(n, max);
    } else {
      FirstOfLines(Mr, k, 0, c, width, rows);
      CountStep(k, c, rows[0], n);
      var d := NextCoder(Mr, k, c, rows[0]);
      if n + 1 < max {
        EveryKth(k, width, d, rows[1..], n + 1);
      } else {
        EveryKth(k, width, d, rows[1..], 0);
        ModWrap(|rows[1..]|, max);
      }
    }
  }

  lemma CountedMeans(k: int, c: Coder, n: nat)
    requires Counted(k, c, n)
    ensures n < Period(k) && c.is2d == (n != 0)
  {
  }

  lemma ModSmall(n: nat, m: nat)
    requires n < m
    ensures n % m == n
  {
  }

  lemma ModWrap(x: nat, m: nat)
    requires m >= 1
    ensures (m + x) % m == x % m
  {
    DivModUnique(x / m + 1, m, x % m);
    assert m + x == (x / m + 1) * m + x % m;
  }

  /** Lines whose number is a multiple of K, or of two where none is given, are coded
      one-dimensionally, the others two-dimensionally. */
  lemma KthLines(k: int, width: nat, rows: seq<Row>)
    requires AllWidth(rows, width)
    ensures ValidCoder(StartCoder(Mr, width, k), width)
    ensures CoderAfter(Mr, k, StartCoder(Mr, width, k), width, rows).is2d == (|rows| % (if k > 0 then k else 2) != 0)
  {
    hide CoderAfter;
    StartCoderValid(Mr, width, k);
    EveryKth(k, width, StartCoder(Mr, width, k), rows, 0);
  }

  // ---------------------------------------------------------------- minimum line length

  lemma {:induction false} PageSplits(scheme: Scheme, k: int, minRowBits: int, c: Coder, width: nat, pre: seq<Row>, rest: seq<Row>)
    requires ValidCoder(c, width) && AllWidth(pre, width) && AllWidth(rest, width)
    ensures AllWidth(pre + rest, width)
    ensures PageBits(scheme, k, minRowBits, c, width, pre + rest)
         == LinesBits(scheme, k, minRowBits, c, width, pre) + PageBits(scheme, k, minRowBits, CoderAfter(scheme, k, c, width, pre), width, rest)
    decreases |pre|
  {
    hide RowBits, NextCoder, LinesBits, CoderAfter, ValidCoder, PageBits;
    if pre == [] {
      NoLines(scheme, k, minRowBits, c, width);
      assert pre + rest == rest;
    } else {
      var all := pre + rest;
      assert AllWidth(all, width);
      assert all[0] == pre[0] && all[1..] == pre[1..] + rest;
      FirstOfLines(scheme, k, minRowBits, c, width, pre);
      PageFirstLine(scheme, k, minRowBits, c, width, all);
      var d := NextCoder(scheme, k, c, pre[0]);
      PageSplits(scheme, k, minRowBits, d, width, pre[1..], rest);
      Assoc(RowBits(scheme, minRowBits, c, pre[0]), LinesBits(scheme, k, minRowBits, d, width, pre[1..]),
            PageBits(scheme, k, minRowBits, CoderAfter(scheme, k, c, width, pre), width, rest));
    }
  }

  /** The FILL and EOL at the start of the rest of a page. */
  lemma StartsFilled(scheme: Scheme, k: int, minRowBits: int, c: Coder, width: nat, rows: seq<Row>) returns (tag: bool, tail: Bits)
    requires !scheme.Mmr? && ValidCoder(c, width) && AllWidth(rows, width)
    ensures PageBits(scheme, k, minRowBits, c, width, rows) == Zeros(FillLength(minRowBits, c.rowBits)) + Eol(scheme, tag) + tail
  {
    if rows == [] {
      EndsWithEols(scheme, k, minRowBits, c, width);
      tag, tail := false, Eols(scheme, 5);
    } else {
      FirstLineEol(scheme, k, minRowBits, c, width, rows);
      tag := c.is2d;
      tail := RowBody(scheme, c, rows[0]) + PageBits(scheme, k, minRowBits, NextCoder(scheme, k, c, rows[0]), width, rows[1..]);
    }
  }

  lemma NextLength(scheme: Scheme, k: int, c: Coder, row: Row)
    requires Increasing(c.ref)
    ensures NextCoder(scheme, k, c, row).rowBits == |RowBody(scheme, c, row)|
  {
    hide RowBody, Runs;
  }

  /** Between the code of a line and the next EOL stand just the zeros that bring it to the
      minimum length; it is reached exactly if the code is that long or has more than 13 bits. */
  lemma MinimumLength(scheme: Scheme, k: int, minRowBits: int, width: nat, pre: seq<Row>, row: Row, post: seq<Row>)
      returns (c: Coder, fill: nat, tag: bool, tail: Bits)
    requires !scheme.Mmr? && AllWidth(pre, width) && |row| == width && AllWidth(post, width)
    ensures ValidCoder(StartCoder(scheme, width, k), width) && c == CoderAfter(scheme, k, StartCoder(scheme, width, k), width, pre)
    ensures ValidCoder(c, width) && AllWidth(pre + ([row] + post), width)
    ensures var body := RowBody(scheme, c, row);
            && CodedPage(scheme, k, minRowBits, width, pre + ([row] + post))
                 == LinesBits(scheme, k, minRowBits, StartCoder(scheme, width, k), width, pre)
                      + (FilledEol(scheme, minRowBits, c.is2d, c.rowBits) + body + (Zeros(fill) + Eol(scheme, tag) + tail))
            && (|body| + fill >= minRowBits <==> |body| >= minRowBits || |body| > 13)
            && (fill > 0 ==> |body| + fill == minRowBits)
  {
    hide RowBody, NextCoder, LinesBits, CoderAfter, PageBits, Eol, Runs;
    StartCoderValid(scheme, width, k);
    c := CoderAfter(scheme, k, StartCoder(scheme, width, k), width, pre);
    var rest := [row] + post;
    assert rest[0] == row && rest[1..] == post;
    PageSplits(scheme, k, minRowBits, StartCoder(scheme, width, k), width, pre, rest);
    PageFirstLine(scheme, k, minRowBits, c, width, rest);
    var d := NextCoder(scheme, k, c, row);
    NextLength(scheme, k, c, row);
    tag, tail := StartsFilled(scheme, k, minRowBits, d, width, post);
    fill := FillLength(minRowBits, d.rowBits);
  }
}
