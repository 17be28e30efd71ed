/** The V.34 shell mapper (nf_v34.c): table set-up, the greedy mapping of an index to four
    ring pairs, and the inverse. */
module V34ShellMapper {
  import opened Arithmetic
  import opened V34ShellCounting

  type RingPair = (int, int)

  /** The largest ring count whose tables fit: beyond it the table loops would read past
      the 2-tuple table. */
  const MAX_RINGS: nat := 32
  const TWO32: nat := 0x1_0000_0000

  /** The conversion to the 32-bit return type. */
  function ToUInt32(r: nat): nat {
    r % TWO32
  }

  /** The eight ring indices in transmission order. */
  function Flat(rings: seq<RingPair>): seq<int>
    requires |rings| == 4
  {
    [rings[0].0, rings[0].1, rings[1].0, rings[1].1, rings[2].0, rings[2].1, rings[3].0, rings[3].1]
  }

  ghost predicate ValidRings(m: nat, rings: seq<RingPair>) {
    |rings| == 4 &&
    forall i :: 0 <= i < 4 ==> 0 <= rings[i].0 < m && 0 <= rings[i].1 < m
  }

  /** The ring indices as a level-3 tuple. */
  ghost function Tuple(m: nat, rings: seq<RingPair>): (x: seq<nat>)
    requires ValidRings(m, rings)
    ensures IsTuple(3, m, x) && x == Flat(rings)
  {
    [rings[0].0, rings[0].1, rings[1].0, rings[1].1, rings[2].0, rings[2].1, rings[3].0, rings[3].1]
  }

  // ---------------------------------------------------------------- ranks written out

  /** A pair of sum c: rank and position are each other's inverse in the code's two cases. */
  lemma PairRank(m: nat, x: nat, y: nat)
    requires x < m && y < m
    ensures IsTuple(1, m, [x, y]) && Sum([x, y]) == x + y
    ensures Rank(1, m, [x, y]) == if x + y < m then x else m - 1 - y
    ensures Rank(1, m, [x, y]) < Count(1, m, x + y)
  {
    SingleSum(x);
    SingleSum(y);
    assert [x] + [y] == [x, y];
    RankOfJoin(0, m, [x], [y]);
    PairPart(m, x + y, x);
    RankBound(1, m, [x, y]);
  }

  function PairRankOf(m: nat, p: RingPair): int {
    if p.0 + p.1 < m then p.0 else m - 1 - p.1
  }

  function PairSum(p: RingPair): int {
    p.0 + p.1
  }

  ghost predicate ValidPair(m: nat, p: RingPair) {
    0 <= p.0 < m && 0 <= p.1 < m
  }

  /** The rank of two pairs among the quadruples of the same sum, in the code's arithmetic. */
  function HalfRank(m: nat, p: RingPair, q: RingPair): int
    requires PairSum(p) >= 0
  {
    PairRankOf(m, q) * Count(1, m, PairSum(p)) + PairRankOf(m, p) + Part(1, m, PairSum(p) + PairSum(q), PairSum(p))
  }

  /** The index of four pairs, in the code's arithmetic. */
  function WrittenIndex(m: nat, rings: seq<RingPair>): int
    requires |rings| == 4 && forall i :: 0 <= i < 4 ==> PairSum(rings[i]) >= 0
  {
    var b := PairSum(rings[0]) + PairSum(rings[1]);
    var a := b + (PairSum(rings[2]) + PairSum(rings[3]));
    HalfRank(m, rings[2], rings[3]) * Count(2, m, b) + HalfRank(m, rings[0], rings[1])
      + Part(2, m, a, b) + Below(3, m, a)
  }

  lemma HalfRankIsRank(m: nat, p: RingPair, q: RingPair)
    requires ValidPair(m, p) && ValidPair(m, q)
    ensures var x: seq<nat> := [p.0, p.1] + [q.0, q.1];
            IsTuple(2, m, x) && Sum(x) == PairSum(p) + PairSum(q) && Rank(2, m, x) == HalfRank(m, p, q)
  {
    PairRank(m, p.0, p.1);
    PairRank(m, q.0, q.1);
    hide Count, Part, Sum, Rank;
    RankOfJoin(1, m, [p.0, p.1], [q.0, q.1]);
  }

  /** The code's arithmetic computes the index. */
  lemma IndexWrittenOut(m: nat, rings: seq<RingPair>)
    requires ValidRings(m, rings)
    ensures WrittenIndex(m, rings) == Index(3, m, Tuple(m, rings))
  {
    hide Count, Part, Sum, Rank, Below, HalfRank;
    var l: seq<nat> := [rings[0].0, rings[0].1] + [rings[1].0, rings[1].1];
    var r: seq<nat> := [rings[2].0, rings[2].1] + [rings[3].0, rings[3].1];
    HalfRankIsRank(m, rings[0], rings[1]);
    HalfRankIsRank(m, rings[2], rings[3]);
    RankOfJoin(2, m, l, r);
    assert Tuple(m, rings) == l + r;
  }

  lemma PairSums(m: nat, rings: seq<RingPair>)
    requires ValidRings(m, rings)
    ensures forall i :: 0 <= i < 4 ==> PairSum(rings[i]) >= 0
  {
  }

  /** So rings whose written-out index is `r0` are the tuple at `r0`. */
  lemma WrittenIndexDecides(m: nat, rings: seq<RingPair>)
    requires ValidRings(m, rings)
    ensures 0 <= WrittenIndex(m, rings) < Pow(m, 8)
    ensures Flat(rings) == TupleAt(3, m, WrittenIndex(m, rings))
  {
    assert Len(3) == 8;
    hide Count, Part, Sum, Rank, Below, Index, TupleAt, Pow, WrittenIndex;
    IndexWrittenOut(m, rings);
    TupleAtIndex(3, m, Tuple(m, rings));
  }

  // ---------------------------------------------------------------- the round trip

  /** Mapping is onto: every index below M^8 is the index of the rings it maps to. */
  lemma IndexRoundTrip(m: nat, r: nat)
    requires 1 <= m
    requires r < Pow(m, 8)
    ensures IsTuple(3, m, TupleAt(3, m, r)) && Index(3, m, TupleAt(3, m, r)) == r
  {
    IndexOfTupleAt(3, m, r);
  }

  /** Unmapping, truncated to 32 bits, can be mapped back to the same rings exactly when
      the index survived the truncation. */
  lemma RingsRoundTrip(m: nat, x: seq<nat>)
    requires 1 <= m
    requires IsTuple(3, m, x)
    ensures ToUInt32(Index(3, m, x)) < Pow(m, 8)
    ensures TupleAt(3, m, ToUInt32(Index(3, m, x))) == x <==> Index(3, m, x) < TWO32
  {
    assert Len(3) == 8;
    hide Count, Part, Sum, Rank, Below, Index, TupleAt, Pow, ToUInt32;
    IndexRange(3, m, x);
    TupleAtIndex(3, m, x);
    Truncation(Index(3, m, x));
    TruncatedIndex(m, x, Index(3, m, x), ToUInt32(Index(3, m, x)));
  }

  lemma Truncation(r: nat)
    ensures ToUInt32(r) <= r && (ToUInt32(r) == r <==> r < TWO32)
  {
  }

  lemma TruncatedIndex(m: nat, x: seq<nat>, r: nat, t: nat)
    requires 1 <= m
    requires |x| == Len(3) && r == Index(3, m, x) && r < Pow(m, Len(3)) && x == TupleAt(3, m, r)
    requires t <= r
    ensures TupleAt(3, m, t) == x <==> t == r
  {
    hide Count, Part, Sum, Rank, Below, Index, TupleAt, Pow;
    IndexOfTupleAt(3, m, t);
  }

  /** Up to 16 rings every 8-tuple's index fits 32 bits, so the bijection is total. */
  lemma NoTruncationUpTo16(m: nat, x: seq<nat>)
    requires 1 <= m <= 16
    requires IsTuple(3, m, x)
    ensures Index(3, m, x) < TWO32
  {
    IndexRange(3, m, x);
    PowMonotone(m, 16, 8);
    assert Pow(16, 8) == TWO32;
  }

  /** Unmapped and mapped back, the rings are the same. */
  ghost predicate ComesBack(m: nat, x: seq<nat>)
    requires 1 <= m && IsTuple(3, m, x)
  {
    RingsRoundTrip(m, x);
    TupleAt(3, m, ToUInt32(Index(3, m, x))) == x
  }

  /** The first tuple past 32 bits: legal rings from seventeen on, taken for index 0. */
  lemma FirstWrapped(m: nat)
    requires m >= 17
    ensures TWO32 < Pow(m, 8)
    ensures var x := TupleAt(3, m, TWO32); IsTuple(3, m, x) && Index(3, m, x) == TWO32 && ToUInt32(Index(3, m, x)) == 0 && !ComesBack(m, x)
  {
    assert Pow(17, 8) > TWO32;
    hide Count, Part, Sum, Rank, Below, Index, TupleAt, Pow;
    PowMonotone(17, m, 8);
    IndexRoundTrip(m, TWO32);
    RingsRoundTrip(m, TupleAt(3, m, TWO32));
  }

  /** All rings come back exactly up to M = 16: with seventeen a legal 8-tuple is lost. */
  lemma AllComeBack(m: nat)
    requires 1 <= m
    ensures (forall x :: IsTuple(3, m, x) ==> ComesBack(m, x)) <==> m <= 16
  {
    hide Count, Part, Sum, Rank, Below, Index, TupleAt, Pow;
    if m <= 16 {
      forall x | IsTuple(3, m, x) ensures ComesBack(m, x) {
        RingsRoundTrip(m, x);
        NoTruncationUpTo16(m, x);
      }
    } else {
      FirstWrapped(m);
    }
  }

  // ---------------------------------------------------------------- the code

  /** z8 is flat beyond the largest ring sum. */
  lemma PastTheTable(m: nat, p: nat)
    requires 1 <= m <= MAX_RINGS
    requires p > 512
    ensures Below(3, m, p) == Below(3, m, 512)
  {
    assert Len(3) == 8;
    hide Count, Part, Below, Len;
    BelowSaturates(3, m, p);
    BelowSaturates(3, m, 512);
  }

  class ShellMapper {
    /** Ring count the tables were built for; 0 before the first call. */
    var cachedM: nat
    const g2: array<int>
    const g4: array<int>
    const g8: array<int>
    const z8: array<int>

    ghost predicate Shape() {
      g2.Length == 128 && g4.Length == 256 && g8.Length == 512 && z8.Length == 513 &&
      g2 != g4 && g2 != g8 && g2 != z8 && g4 != g8 && g4 != z8 && g8 != z8
    }

    ghost predicate Tabulated(t: array<int>, h: nat, m: nat, n: nat)
      requires n <= t.Length
      reads t
    {
      forall i :: 0 <= i < n ==> t[i] == Count(h, m, i)
    }

    ghost predicate Valid()
      reads this, g2, g4, g8, z8
    {
      Shape() && cachedM <= MAX_RINGS &&
      (cachedM > 0 ==>
         && Tabulated(g2, 1, cachedM, 128) && Tabulated(g4, 2, cachedM, 256) && Tabulated(g8, 3, cachedM, 512)
         && forall i :: 0 <= i <= 512 ==> z8[i] == Below(3, cachedM, i))
    }

    constructor ()
      ensures Valid() && fresh(g2) && fresh(g4) && fresh(g8) && fresh(z8)
    {
      cachedM := 0;
      g2 := new int[128];
      g4 := new int[256];
      g8 := new int[512];
      z8 := new int[513];
    }

    /** Builds g2, g4, g8 and z8 bottom-up unless they are already there for `m`. */
    method GetTables(m: nat)
      requires Valid()
      requires 1 <= m <= MAX_RINGS
      modifies this`cachedM, g2, g4, g8, z8
      ensures Valid() && cachedM == m
    {
      if cachedM == m {
        return;
      }
      hide Count, Part, Below;
      cachedM := 0;
      FillG2(m);
      assert Len(2) == 4 && Len(3) == 8;
      FillConvolution(g2, g4, 1, m, 4 * (m - 1));
      FillConvolution(g4, g8, 2, m, 8 * (m - 1));
      FillZ8(m);
      cachedM := m;
    }

    /** Running sums of the 8-tuple table. */
    method FillZ8(m: nat)
      requires Shape() && Tabulated(g8, 3, m, 512)
      modifies z8
      ensures forall i :: 0 <= i <= 512 ==> z8[i] == Below(3, m, i)
    {
      hide Count, Part, Below;
      z8[0] := 0;
      BelowStart(3, m);
      for p := 1 to 513
        invariant Tabulated(g8, 3, m, 512)
        invariant forall i :: 0 <= i < p ==> z8[i] == Below(3, m, i)
      {
        BelowStep(3, m, p - 1);
        z8[p] := z8[p - 1] + g8[p - 1];
      }
    }

    method FillG2(m: nat)
      requires Shape() && 1 <= m <= MAX_RINGS
      modifies g2
      ensures Tabulated(g2, 1, m, 128)
    {
      var n2 := 2 * (m - 1);
      var p := 0;
      while p <= n2 && p < 128
        invariant 0 <= p <= n2 + 1
        invariant Tabulated(g2, 1, m, p)
      {
        PairCountClosedForm(m, p);
        var d := p - m + 1;
        g2[p] := m - (if d < 0 then -d else d);
        p := p + 1;
      }
      p := n2 + 1;
      while p < 128
        invariant n2 + 1 <= p <= 128
        invariant Tabulated(g2, 1, m, p)
      {
        PairCountClosedForm(m, p);
        g2[p] := 0;
        p := p + 1;
      }
    }

    /** Self-convolution of the level-`h` table into the next level's table. */
    method FillConvolution(src: array<int>, dst: array<int>, ghost h: nat, ghost m: nat, top: nat)
      requires 1 <= m <= MAX_RINGS && src != dst
      requires top == MaxSum(h + 1, m) && top < src.Length
      requires Tabulated(src, h, m, src.Length)
      modifies dst
      ensures Tabulated(dst, h + 1, m, dst.Length)
    {
      hide Count, Part, MaxSum;
      for p := 0 to dst.Length
        invariant Tabulated(src, h, m, src.Length)
        invariant Tabulated(dst, h + 1, m, p)
      {
        if p <= top {
          dst[p] := ConvolutionTerm(src, h, m, p);
        } else {
          CountZero(h + 1, m, p);
          dst[p] := 0;
        }
      }
    }

    /** One entry of a convolution: the sum over k <= p of src[k] * src[p - k]. */
    static method ConvolutionTerm(src: array<int>, ghost h: nat, ghost m: nat, p: nat) returns (s: int)
      requires p < src.Length
      requires forall i :: 0 <= i < src.Length ==> src[i] == Count(h, m, i)
      ensures s == Count(h + 1, m, p)
    {
      s := 0;
      for k := 0 to p + 1
        invariant s == Part(h, m, p, k)
      {
        PartStep(h, m, p, k);
        s := s + src[k] * src[p - k];
      }
    }

    function G2(p: int, m: nat): (g: int)
      requires Valid() && 1 <= m == cachedM
      reads this, g2, g4, g8, z8
      ensures g == Count(1, m, p)
    {
      if p < 0 || p > 2 * (m - 1) || p >= 128 then PairCountClosedForm(m, p); 0
      else g2[p]
    }

    function G4(p: int, m: nat): (g: int)
      requires Valid() && 1 <= m == cachedM
      reads this, g2, g4, g8, z8
      ensures g == Count(2, m, p)
    {
      if p < 0 || p > 4 * (m - 1) || p >= 256 then (if p >= 0 then CountZero(2, m, p); 0 else 0)
      else g4[p]
    }

    function Z8(p: int): (z: int)
      requires Valid() && 1 <= cachedM
      reads this, g2, g4, g8, z8
      ensures 0 <= p ==> z == Below(3, cachedM, p)
      ensures p < 0 ==> z == 0
    {
      if p < 0 then 0
      else if p > 512 then
        PastTheTable(cachedM, p);
        z8[512]
      else z8[p]
    }

    /** Sum over p < k of g2(p) * g2(n - p). */
    method PrefixSum2(m: nat, n: int, k: nat) returns (s: int)
      requires Valid() && 1 <= m == cachedM
      ensures s == Part(1, m, n, k)
    {
      s := 0;
      for p := 0 to k
        invariant s == Part(1, m, n, p)
      {
        PartStep(1, m, n, p);
        s := s + G2(p, m) * G2(n - p, m);
      }
    }

    /** Sum over p < k of g4(p) * g4(n - p). */
    method PrefixSum4(m: nat, n: int, k: nat) returns (s: int)
      requires Valid() && 1 <= m == cachedM
      ensures s == Part(2, m, n, k)
    {
      s := 0;
      for p := 0 to k
        invariant s == Part(2, m, n, p)
      {
        PartStep(2, m, n, p);
        s := s + G4(p, m) * G4(n - p, m);
      }
    }

    /** The greedy search for the sum of a half's left pair: the largest c <= n whose
        prefix sum does not exceed `r`; `rest` is what is left of `r`. */
    method SplitPairSum(m: nat, n: nat, r: int) returns (c: int, rest: int)
      requires Valid() && 1 <= m == cachedM
      requires 0 <= r < Count(2, m, n)
      ensures 0 <= c <= n
      ensures r == Part(1, m, n, c) + rest
      ensures 0 <= rest < Count(1, m, c) * Count(1, m, n - c)
    {
      c, rest := 0, r;
      while c + 1 <= n
        invariant 0 <= c <= n
        invariant rest == r - Part(1, m, n, c) >= 0
        decreases n - c
      {
        var ssum := PrefixSum2(m, n, c + 1);
        var cand := r - ssum;
        if cand >= 0 {
          c, rest := c + 1, cand;
        } else {
          break;
        }
      }
      PartStep(1, m, n, c);
      CountIsPart(1, m, n);
    }

    /** The greedy search for the left half's sum. */
    method SplitQuadSum(m: nat, n: nat, r: int) returns (b: int, rest: int)
      requires Valid() && 1 <= m == cachedM
      requires 0 <= r < Count(3, m, n)
      ensures 0 <= b <= n
      ensures r == Part(2, m, n, b) + rest
      ensures 0 <= rest < Count(2, m, b) * Count(2, m, n - b)
    {
      b, rest := 0, r;
      while b + 1 <= n
        invariant 0 <= b <= n
        invariant rest == r - Part(2, m, n, b) >= 0
        decreases n - b
      {
        var ssum := PrefixSum4(m, n, b + 1);
        var cand := r - ssum;
        if cand >= 0 {
          b, rest := b + 1, cand;
        } else {
          break;
        }
      }
      PartStep(2, m, n, b);
      CountIsPart(2, m, n);
    }

    /** The greedy search for the ring sum of the whole frame. */
    method FindTotal(m: nat, r0: nat) returns (a: int)
      requires Valid() && 1 <= m == cachedM
      requires r0 < Pow(m, 8)
      ensures 0 <= a
      ensures Below(3, m, a) <= r0 < Below(3, m, a) + Count(3, m, a)
    {
      assert Len(3) == 8;
      TotalIsPower(3, m);
      a := 0;
      while a < 8 * (m - 1) && Z8(a + 1) <= r0
        invariant 0 <= a <= 8 * (m - 1)
        invariant Below(3, m, a) <= r0
      {
        a := a + 1;
      }
      BelowStep(3, m, a);
    }

    /** Splits a rank into the rank of the left part (remainder) and of the right part
        (quotient); the divisor is never zero because the rank fits the product. */
    static method SplitRank(r: int, left: int, ghost right: int) returns (lo: int, hi: int)
      requires 0 <= left && 0 <= right
      requires 0 <= r < left * right
      ensures 0 <= lo < left && 0 <= hi < right && r == hi * left + lo
    {
      DivBound(r, left, right);
      lo := r % left;
      DivModUnique(r / left, left, 0);
      hi := (r - lo) / left;
    }

    /** Places the pair of sum `c` and rank `e`. */
    static method PlacePair(m: nat, c: nat, e: int) returns (p: RingPair)
      requires 1 <= m
      requires 0 <= e < Count(1, m, c)
      ensures ValidPair(m, p) && PairSum(p) == c
      ensures PairRankOf(m, p) == e
    {
      PairCountClosedForm(m, c);
      if c < m {
        p := (e, c - e);
      } else {
        var second := m - 1 - e;
        p := (c - second, second);
      }
    }

    /** One half of the frame: the two pairs of sum `n` and rank `r`. */
    method MapHalf(m: nat, n: nat, r: int) returns (p: RingPair, q: RingPair)
      requires Valid() && 1 <= m == cachedM
      requires 0 <= r < Count(2, m, n)
      ensures ValidPair(m, p) && ValidPair(m, q)
      ensures PairSum(p) + PairSum(q) == n
      ensures r == HalfRank(m, p, q)
    {
      hide Count, Part;
      var c, rest := SplitPairSum(m, n, r);
      var e, f := SplitRank(rest, G2(c, m), Count(1, m, n - c));
      p := PlacePair(m, c, e);
      q := PlacePair(m, n - c, f);
    }

    /** The greedy mapping, once the tables are there. */
    method MapIndex(m: nat, r0: nat) returns (rings: seq<RingPair>)
      requires Valid() && 1 <= m == cachedM
      requires r0 < Pow(m, 8)
      ensures ValidRings(m, rings)
      ensures Flat(rings) == TupleAt(3, m, r0)
    {
      hide Valid, Count, Part, Below, TupleAt, Pow, PairSum, HalfRank;
      var a := FindTotal(m, r0);
      var base := r0 - Z8(a);
      var b, r1 := SplitQuadSum(m, a, base);
      var r2, r3 := SplitRank(r1, G4(b, m), Count(2, m, a - b));
      var p0, p1 := MapHalf(m, b, r2);
      var p2, p3 := MapHalf(m, a - b, r3);
      rings := [p0, p1, p2, p3];
      PairSums(m, rings);
      assert r0 == WrittenIndex(m, rings);
      WrittenIndexDecides(m, rings);
    }

    /** nf_v34_shell_map: the tuple at index `r0`. */
    method Map(m: nat, r0: nat) returns (rings: seq<RingPair>)
      requires Valid()
      requires 1 <= m <= MAX_RINGS
      requires r0 < Pow(m, 8)
      modifies this`cachedM, g2, g4, g8, z8
      ensures Valid() && cachedM == m
      ensures ValidRings(m, rings)
      ensures Flat(rings) == TupleAt(3, m, r0)
    {
      GetTables(m);
      rings := MapIndex(m, r0);
    }

    /** The rings' index, once the tables are there. */
    method UnmapRings(m: nat, rings: seq<RingPair>) returns (r0: nat)
      requires Valid() && 1 <= m == cachedM
      requires ValidRings(m, rings)
      ensures r0 == ToUInt32(Index(3, m, Tuple(m, rings)))
    {
      hide Count, Part, Below, Valid;
      var c := rings[0].0 + rings[0].1;
      var e := if c < m then rings[0].0 else m - 1 - rings[0].1;
      var bc := rings[1].0 + rings[1].1;
      var f := if bc < m then rings[1].0 else m - 1 - rings[1].1;
      var d := rings[2].0 + rings[2].1;
      var g := if d < m then rings[2].0 else m - 1 - rings[2].1;
      var abd := rings[3].0 + rings[3].1;
      var h := if abd < m then rings[3].0 else m - 1 - rings[3].1;
      var b := bc + c;
      var a := abd + b + d;

      var r4 := f * G2(c, m) + e;
      var r5 := h * G2(d, m) + g;
      var ssum := PrefixSum2(m, b, c);
      var r2 := r4 + ssum;
      assert r2 == HalfRank(m, rings[0], rings[1]);
      ssum := PrefixSum2(m, a - b, d);
      var r3 := r5 + ssum;
      assert r3 == HalfRank(m, rings[2], rings[3]);
      hide HalfRank;
      var r1 := r3 * G4(b, m) + r2;
      ssum := PrefixSum4(m, a, b);
      assert b == PairSum(rings[0]) + PairSum(rings[1]) && a == b + (PairSum(rings[2]) + PairSum(rings[3]));
      var full := r1 + Z8(a) + ssum;
      assert full == WrittenIndex(m, rings);
      IndexWrittenOut(m, rings);
      r0 := ToUInt32(full);
    }

    /** nf_v34_shell_unmap: the tuple's index, returned modulo 2^32. */
    method Unmap(m: nat, rings: seq<RingPair>) returns (r0: nat)
      requires Valid()
      requires 1 <= m <= MAX_RINGS
      requires ValidRings(m, rings)
      modifies this`cachedM, g2, g4, g8, z8
      ensures Valid() && cachedM == m
      ensures r0 == ToUInt32(Index(3, m, Tuple(m, rings)))
    {
      GetTables(m);
      r0 := UnmapRings(m, rings);
    }
  }
}
