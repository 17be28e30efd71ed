/** Packed scan lines: eight pixels a byte, most significant bit first, one is black
    (nf_t4.c: px_black, set_black, set_range). */
module T4Pixels {
  import opened Arithmetic
  import opened BitIo
  import opened T4Rows

  predicate PxBlack(r: seq<Byte>, i: nat)
    requires i / 8 < |r|
  {
    (r[i / 8] / Pow(2, 7 - i % 8)) % 2 == 1
  }

  /** The first `w` pixels of a packed line. */
  function Pixels(r: seq<Byte>, w: nat): (row: Row)
    requires |r| == (w + 7) / 8
    ensures |row| == w
  {
    seq(w, i requires 0 <= i < w => PxBlack(r, i))
  }

  function Stride(w: nat): nat {
    (w + 7) / 8
  }

  // ---------------------------------------------------------------- setting one bit

  /** set_black on the byte that holds pixel i. */
  function SetBit(b: Byte, i: nat): (r: Byte)
  {
    SmallPowers();
    OrBitBound(b, 7 - i % 8, 8);
    BitOr(b, Pow(2, 7 - i % 8))
  }

  lemma SetBitSets(r: seq<Byte>, w: nat, i: nat)
    requires |r| == Stride(w) && i < w
    ensures i / 8 < |r|
    ensures Pixels(r[i / 8 := SetBit(r[i / 8], i)], w) == Pixels(r, w)[i := true]
  {
    hide Pow;
    var q := r[i / 8 := SetBit(r[i / 8], i)];
    forall j | 0 <= j < w
      ensures PxBlack(q, j) == if j == i then true else PxBlack(r, j)
    {
      if j / 8 == i / 8 {
        OrBit(r[i / 8], 7 - i % 8, 7 - j % 8);
        assert j == 8 * (j / 8) + j % 8 && i == 8 * (i / 8) + i % 8;
      }
    }
  }

  lemma BlankPixels(r: seq<Byte>, w: nat)
    requires |r| == Stride(w)
    requires forall i :: 0 <= i < |r| ==> r[i] == 0
    ensures Pixels(r, w) == White(w)
  {
    forall j | 0 <= j < w
      ensures !PxBlack(r, j)
    {
      ZeroDiv(Pow(2, 7 - j % 8));
    }
  }

  lemma ZeroDiv(p: nat)
    requires p > 0
    ensures 0 / p == 0
  {
  }

  /** memset to white. */
  method Clear(r: array<Byte>, w: nat)
    requires r.Length == Stride(w)
    modifies r
    ensures Pixels(r[..], w) == White(w)
  {
    for i := 0 to r.Length
      invariant forall j :: 0 <= j < i ==> r[j] == 0
    {
      r[i] := 0;
    }
    BlankPixels(r[..], w);
  }

  /** set_range: pixels a..b turned black, nothing else changed. */
  method FillRange(r: array<Byte>, w: nat, a: int, b: int)
    requires r.Length == Stride(w) && 0 <= a && b <= w
    modifies r
    ensures Pixels(r[..], w) == SetRange(old(Pixels(r[..], w)), a, b)
  {
    hide Pixels, SetBit;
    var i := a;
    while i < b
      invariant a <= i && (i <= b || i == a)
      invariant Pixels(r[..], w) == SetRange(old(Pixels(r[..], w)), a, i)
    {
      SetBitSets(r[..], w, i);
      ghost var was := r[..];
      r[i / 8] := SetBit(r[i / 8], i);
      assert r[..] == was[i / 8 := SetBit(was[i / 8], i)];
      i := i + 1;
    }
  }

  ghost predicate Packed(lines: seq<seq<Byte>>, w: nat) {
    forall i :: 0 <= i < |lines| ==> |lines[i]| == Stride(w)
  }

  /** The pixels of the lines handed over. */
  ghost function Lines(lines: seq<seq<Byte>>, w: nat): (rows: seq<Row>)
    requires Packed(lines, w)
    ensures |rows| == |lines|
  {
    seq(|lines|, i requires 0 <= i < |lines| => Pixels(lines[i], w))
  }

  lemma LinesSnoc(lines: seq<seq<Byte>>, line: seq<Byte>, w: nat)
    requires Packed(lines, w) && |line| == Stride(w)
    ensures Packed(lines + [line], w)
    ensures Lines(lines + [line], w) == Lines(lines, w) + [Pixels(line, w)]
  {
    hide Pixels;
  }

  // ---------------------------------------------------------------- changing elements

  lemma RunsAt(row: Row, i: nat, color: bool)
    requires i <= |row|
    ensures Runs(row, i, color) ==
            if i == |row| then [|row|]
            else if row[i] != color then [i] + Runs(row, i + 1, row[i])
            else Runs(row, i + 1, color)
  {
  }

  /** row_runs: lists the changing elements of a packed line. */
  method RowRuns(list: array<nat>, row: seq<Byte>, width: nat) returns (n: nat)
    requires list.Length > width && |row| == Stride(width)
    modifies list
    ensures 1 <= n <= width + 1 && list[..n] == Runs(Pixels(row, width), 0, false)
    ensures list[n - 1] == width
  {
    hide Runs, PxBlack;
    ghost var px := Pixels(row, width);
    var color := false;
    n := 0;
    for i := 0 to width
      invariant n <= i
      invariant list[..n] + Runs(px, i, color) == Runs(px, 0, false)
    {
      var b := PxBlack(row, i);
      RunsAt(px, i, color);
      if b != color {
        Assoc(list[..n], [i], Runs(px, i + 1, b));
        list[n] := i;
        assert list[..n + 1] == list[..n] + [i];
        n := n + 1;
        color := b;
      }
    }
    RunsAt(px, width, color);
    list[n] := width;
    n := n + 1;
  }
}
