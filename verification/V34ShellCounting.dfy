/** The combinatorics behind the V.34 shell mapper (ITU-T V.34, clause 9.4).

    A frame's eight ring indices are ranked by splitting them into halves, quarters and
    single rings.  `Count(h, m, s)` is the number of tuples of 2^h rings, each below `m`,
    that add up to `s`; the recommendation's g2, g4 and g8 are levels 1, 2 and 3.  Nothing
    below is specific to eight rings: ranking, unranking and the counting theorems hold at
    every level. */
module V34ShellCounting {

  import opened Arithmetic

  function Len(h: nat): nat {
    if h == 0 then 1 else 2 * Len(h - 1)
  }

  function Sum(x: seq<nat>): nat {
    if |x| == 0 then 0 else Sum(x[..|x| - 1]) + x[|x| - 1]
  }

  /** A tuple of 2^h rings below `m`. */
  ghost predicate IsTuple(h: nat, m: nat, x: seq<nat>) {
    |x| == Len(h) && forall i :: 0 <= i < |x| ==> x[i] < m
  }

  /** Number of level-`h` tuples with ring sum `s`. */
  function Count(h: nat, m: nat, s: int): nat
    decreases h, 0
  {
    if s < 0 then 0
    else if h == 0 then (if s < m then 1 else 0)
    else Part(h - 1, m, s, s + 1)
  }

  /** Sum over p < k of Count(p) * Count(n - p): the tuples of sum `n` whose left half has
      a sum below `k`. */
  function Part(h: nat, m: nat, n: int, k: nat): nat
    decreases h, k + 1
  {
    if k == 0 then 0
    else Part(h, m, n, k - 1) + Count(h, m, k - 1) * Count(h, m, n - (k - 1))
  }

  /** Number of level-`h` tuples with ring sum below `k` (z8 at level 3). */
  function Below(h: nat, m: nat, k: nat): nat {
    if k == 0 then 0 else Below(h, m, k - 1) + Count(h, m, k - 1)
  }

  /** The largest ring sum at level `h`. */
  function MaxSum(h: nat, m: nat): nat
    requires m >= 1
  {
    Len(h) * (m - 1)
  }

  // ---------------------------------------------------------------- one unfolding at a time

  lemma PartStep(h: nat, m: nat, n: int, k: nat)
    ensures Part(h, m, n, k + 1) == Part(h, m, n, k) + Count(h, m, k) * Count(h, m, n - k)
  {
  }

  lemma CountIsPart(h: nat, m: nat, n: nat)
    ensures Count(h + 1, m, n) == Part(h, m, n, n + 1)
  {
  }

  lemma BelowStart(h: nat, m: nat)
    ensures Below(h, m, 0) == 0
  {
  }

  lemma BelowStep(h: nat, m: nat, k: nat)
    ensures Below(h, m, k + 1) == Below(h, m, k) + Count(h, m, k)
  {
  }

  // ---------------------------------------------------------------- monotonicity, support

  lemma {:induction false} PartMonotone(h: nat, m: nat, n: int, j: nat, k: nat)
    requires j <= k
    ensures Part(h, m, n, j) <= Part(h, m, n, k)
    decreases k - j
  {
    if j < k {
      PartMonotone(h, m, n, j, k - 1);
    }
  }

  lemma {:induction false} BelowMonotone(h: nat, m: nat, j: nat, k: nat)
    requires j <= k
    ensures Below(h, m, j) <= Below(h, m, k)
    decreases k - j
  {
    if j < k {
      BelowMonotone(h, m, j, k - 1);
    }
  }

  lemma {:induction false} PartZero(h: nat, m: nat, n: int, k: nat)
    requires m >= 1
    requires n > 2 * MaxSum(h, m)
    ensures Part(h, m, n, k) == 0
    decreases h, k + 1
  {
    if k > 0 {
      PartZero(h, m, n, k - 1);
      if k - 1 > MaxSum(h, m) {
        CountZero(h, m, k - 1);
      } else {
        CountZero(h, m, n - (k - 1));
      }
    }
  }

  /** No tuple has a sum above 2^h (m - 1). */
  lemma {:induction false} CountZero(h: nat, m: nat, s: int)
    requires m >= 1
    requires s > MaxSum(h, m)
    ensures Count(h, m, s) == 0
    decreases h, 0
  {
    if h > 0 {
      assert MaxSum(h, m) == 2 * MaxSum(h - 1, m);
      PartZero(h - 1, m, s, s + 1);
    }
  }

  /** Level 1 in closed form: m - |s - m + 1| on 0..2(m-1), the formula the code tabulates. */
  lemma PairCountClosedForm(m: nat, s: int)
    requires m >= 1
    ensures Count(1, m, s) == if 0 <= s <= 2 * (m - 1) then (if s < m then s + 1 else 2 * m - 1 - s) else 0
  {
    if s >= 0 {
      PairPart(m, s, s + 1);
    }
  }

  /** How many left rings below `k` pair up to sum `s`. */
  lemma {:induction false} PairPart(m: nat, s: nat, k: nat)
    requires m >= 1
    requires k <= s + 1
    ensures Part(0, m, s, k) ==
            var lo := if s < m then 0 else s - m + 1;
            var hi := if k < m then k else m;
            if lo < hi then hi - lo else 0
  {
    if k > 0 {
      PairPart(m, s, k - 1);
      assert Count(0, m, k - 1) == if k - 1 < m then 1 else 0;
      assert Count(0, m, s - (k - 1)) == if s - (k - 1) < m then 1 else 0;
    }
  }

  // ---------------------------------------------------------------- totals

  /** Sum over p < k of Count(p) * Below(n - p). */
  function Weighted(h: nat, m: nat, n: nat, k: nat): nat
    requires k <= n
  {
    if k == 0 then 0
    else Weighted(h, m, n, k - 1) + Count(h, m, k - 1) * Below(h, m, n - (k - 1))
  }

  lemma {:induction false} WeightedStep(h: nat, m: nat, n: nat, k: nat)
    requires k <= n
    ensures Weighted(h, m, n + 1, k) == Weighted(h, m, n, k) + Part(h, m, n, k)
  {
    if k > 0 {
      WeightedStep(h, m, n, k - 1);
      var c, p := Count(h, m, k - 1), n - (k - 1);
      assert Below(h, m, p + 1) == Below(h, m, p) + Count(h, m, p);
      assert c * Below(h, m, p + 1) == c * Below(h, m, p) + c * Count(h, m, p);
    }
  }

  /** Exchanging the order of summation. */
  lemma {:induction false} BelowIsWeighted(h: nat, m: nat, n: nat)
    ensures Below(h + 1, m, n) == Weighted(h, m, n, n)
  {
    if n > 0 {
      BelowIsWeighted(h, m, n - 1);
      WeightedStep(h, m, n - 1, n - 1);
      assert Count(h + 1, m, n - 1) == Part(h, m, n - 1, n);
      assert Below(h, m, 1) == Below(h, m, 0) + Count(h, m, 0);
      assert Below(h, m, 1) == Count(h, m, 0);
    }
  }

  lemma {:induction false} BelowSaturates(h: nat, m: nat, k: nat)
    requires m >= 1
    requires k >= MaxSum(h, m) + 1
    ensures Below(h, m, k) == Below(h, m, MaxSum(h, m) + 1)
  {
    if k > MaxSum(h, m) + 1 {
      BelowSaturates(h, m, k - 1);
      CountZero(h, m, k - 1);
    }
  }

  lemma {:induction false} WeightedTotal(h: nat, m: nat, n: nat, k: nat)
    requires m >= 1
    requires n == 2 * MaxSum(h, m) + 1
    requires k <= n
    ensures Weighted(h, m, n, k) == Below(h, m, k) * Below(h, m, MaxSum(h, m) + 1)
  {
    if k > 0 {
      WeightedTotal(h, m, n, k - 1);
      var t := Below(h, m, MaxSum(h, m) + 1);
      if k - 1 <= MaxSum(h, m) {
        BelowSaturates(h, m, n - (k - 1));
      } else {
        CountZero(h, m, k - 1);
      }
      assert Weighted(h, m, n, k) == Weighted(h, m, n, k - 1) + Count(h, m, k - 1) * t;
      assert (Below(h, m, k - 1) + Count(h, m, k - 1)) * t
          == Below(h, m, k - 1) * t + Count(h, m, k - 1) * t;
    }
  }

  lemma {:induction false} BelowRing(m: nat, k: nat)
    requires k <= m
    ensures Below(0, m, k) == k
  {
    if k > 0 { BelowRing(m, k - 1); }
  }

  /** All tuples counted: z8(8(m-1)+1) = m^8 at level 3. */
  lemma {:induction false} TotalIsPower(h: nat, m: nat)
    requires m >= 1
    ensures Below(h, m, MaxSum(h, m) + 1) == Pow(m, Len(h))
  {
    if h == 0 {
      assert MaxSum(0, m) + 1 == m;
      BelowRing(m, m);
      assert Pow(m, 1) == m * Pow(m, 0);
    } else {
      var n := MaxSum(h, m) + 1;
      assert n == 2 * MaxSum(h - 1, m) + 1;
      BelowIsWeighted(h - 1, m, n);
      WeightedTotal(h - 1, m, n, n);
      BelowSaturates(h - 1, m, n);
      TotalIsPower(h - 1, m);
      PowAdd(m, Len(h - 1), Len(h - 1));
    }
  }

  // ---------------------------------------------------------------- ranking

  /** Position of `x` among the level-`h` tuples with the same sum: the left half's sum
      decides first, then the right half's rank, then the left half's. */
  function Rank(h: nat, m: nat, x: seq<nat>): nat
    requires |x| == Len(h)
    decreases h
  {
    if h == 0 then 0
    else
      var l, r := x[..Len(h - 1)], x[Len(h - 1)..];
      Part(h - 1, m, Sum(x), Sum(l)) + Rank(h - 1, m, r) * Count(h - 1, m, Sum(l)) + Rank(h - 1, m, l)
  }

  lemma SingleSum(x: nat)
    ensures Sum([x]) == x
  {
    assert [x][..0] == [];
  }

  lemma {:induction false} SumSplit(x: seq<nat>, k: nat)
    requires k <= |x|
    ensures Sum(x) == Sum(x[..k]) + Sum(x[k..])
    decreases |x|
  {
    if k == |x| {
      assert x[..k] == x && x[k..] == [];
    } else {
      var y := x[..|x| - 1];
      SumSplit(y, k);
      assert y[..k] == x[..k];
      assert x[k..][..|x| - k - 1] == y[k..];
    }
  }

  lemma {:induction false} SumBound(h: nat, m: nat, x: seq<nat>)
    requires m >= 1
    requires IsTuple(h, m, x)
    ensures Sum(x) <= MaxSum(h, m)
    decreases h
  {
    if h == 0 {
      assert x[..0] == [];
    } else {
      var k := Len(h - 1);
      assert MaxSum(h, m) == 2 * MaxSum(h - 1, m);
      hide Sum, MaxSum;
      SumSplit(x, k);
      SumBound(h - 1, m, x[..k]);
      SumBound(h - 1, m, x[k..]);
    }
  }

  /** Splitting a tuple into halves, and joining halves into a tuple. */
  lemma HalvesOfTuple(h: nat, m: nat, x: seq<nat>)
    requires h >= 1
    requires IsTuple(h, m, x)
    ensures var l, r := x[..Len(h - 1)], x[Len(h - 1)..];
            IsTuple(h - 1, m, l) && IsTuple(h - 1, m, r) && x == l + r && Sum(x) == Sum(l) + Sum(r)
  {
    SumSplit(x, Len(h - 1));
  }

  lemma RankOfJoin(h: nat, m: nat, l: seq<nat>, r: seq<nat>)
    requires IsTuple(h, m, l) && IsTuple(h, m, r)
    ensures IsTuple(h + 1, m, l + r)
    ensures Sum(l + r) == Sum(l) + Sum(r)
    ensures Rank(h + 1, m, l + r) == Part(h, m, Sum(l) + Sum(r), Sum(l)) + Rank(h, m, r) * Count(h, m, Sum(l)) + Rank(h, m, l)
  {
    var x := l + r;
    assert x[..Len(h)] == l && x[Len(h)..] == r;
    SumSplit(x, Len(h));
  }

  /** A joined tuple's rank lies in its left sum's bracket. */
  lemma JoinInBracket(h: nat, m: nat, l: seq<nat>, r: seq<nat>)
    requires IsTuple(h, m, l) && IsTuple(h, m, r)
    requires Rank(h, m, l) < Count(h, m, Sum(l))
    requires Rank(h, m, r) < Count(h, m, Sum(r))
    ensures var n, a := Sum(l) + Sum(r), Sum(l);
            Part(h, m, n, a) <= Rank(h + 1, m, l + r) < Part(h, m, n, a + 1)
  {
    hide Part, Count, Sum, Rank;
    RankOfJoin(h, m, l, r);
    var n, a := Sum(l) + Sum(r), Sum(l);
    PartStep(h, m, n, a);
    SlotBounds(Part(h, m, n, a), Count(h, m, a), Rank(h, m, l), Count(h, m, Sum(r)), Rank(h, m, r), Rank(h + 1, m, l + r));
  }

  /** Ranks fit below the count, so every tuple of a given sum has its own number range. */
  lemma {:induction false} RankBound(h: nat, m: nat, x: seq<nat>)
    requires IsTuple(h, m, x)
    ensures Rank(h, m, x) < Count(h, m, Sum(x))
    decreases h
  {
    if h == 0 {
      assert x[..0] == [];
      assert Sum(x) == x[0];
    } else {
      hide Count, Part, Rank, Sum;
      var k := h - 1;
      var l, r := x[..Len(k)], x[Len(k)..];
      HalvesOfTuple(h, m, x);
      RankBound(k, m, l);
      RankBound(k, m, r);
      JoinBelowCount(k, m, l, r);
      assert x == l + r;
    }
  }

  lemma JoinBelowCount(h: nat, m: nat, l: seq<nat>, r: seq<nat>)
    requires IsTuple(h, m, l) && IsTuple(h, m, r)
    requires Rank(h, m, l) < Count(h, m, Sum(l))
    requires Rank(h, m, r) < Count(h, m, Sum(r))
    ensures |l + r| == Len(h + 1) && Rank(h + 1, m, l + r) < Count(h + 1, m, Sum(l + r))
  {
    hide Count, Part, Rank, Sum;
    RankOfJoin(h, m, l, r);
    JoinInBracket(h, m, l, r);
    var n, a := Sum(l) + Sum(r), Sum(l);
    CountIsPart(h, m, n);
    PartMonotone(h, m, n, a + 1, n + 1);
  }

  /** The left-half sum is determined by the rank: brackets of a non-decreasing prefix sum
      do not overlap. */
  lemma BracketUnique(h: nat, m: nat, n: int, a: nat, b: nat, r: nat)
    requires Part(h, m, n, a) <= r < Part(h, m, n, a + 1)
    requires Part(h, m, n, b) <= r < Part(h, m, n, b + 1)
    ensures a == b
  {
    if a < b {
      PartMonotone(h, m, n, a + 1, b);
    } else if b < a {
      PartMonotone(h, m, n, b + 1, a);
    }
  }

  lemma SumBracketUnique(h: nat, m: nat, a: nat, b: nat, r: nat)
    requires Below(h, m, a) <= r < Below(h, m, a + 1)
    requires Below(h, m, b) <= r < Below(h, m, b + 1)
    ensures a == b
  {
    if a < b {
      BelowMonotone(h, m, a + 1, b);
    } else if b < a {
      BelowMonotone(h, m, b + 1, a);
    }
  }

  /** Two tuples with the same sum and rank are the same tuple. */
  lemma {:induction false} RankInjective(h: nat, m: nat, x: seq<nat>, y: seq<nat>)
    requires IsTuple(h, m, x) && IsTuple(h, m, y)
    requires Sum(x) == Sum(y)
    requires Rank(h, m, x) == Rank(h, m, y)
    ensures x == y
    decreases h, 0
  {
    hide Part, Count, Sum, Rank;
    if h == 0 {
      SingleSum(x[0]);
      SingleSum(y[0]);
      assert x == [x[0]] && y == [y[0]];
    } else {
      HalvesOfTuple(h, m, x);
      HalvesOfTuple(h, m, y);
      var k := h - 1;
      var l, r, l', r' := x[..Len(k)], x[Len(k)..], y[..Len(k)], y[Len(k)..];
      assert x == l + r && y == l' + r';
      RankInjectiveStep(k, m, l, r, l', r');
    }
  }

  lemma {:induction false} RankInjectiveStep(h: nat, m: nat, l: seq<nat>, r: seq<nat>, l': seq<nat>, r': seq<nat>)
    requires IsTuple(h, m, l) && IsTuple(h, m, r) && IsTuple(h, m, l') && IsTuple(h, m, r')
    requires Sum(l + r) == Sum(l' + r')
    requires |l + r| == |l' + r'| == Len(h + 1) && Rank(h + 1, m, l + r) == Rank(h + 1, m, l' + r')
    ensures l == l' && r == r'
    decreases h, 1
  {
    hide Part, Count, Sum, Rank;
    RankOfJoin(h, m, l, r);
    RankOfJoin(h, m, l', r');
    JoinInjective(h, m, l, r, l', r');
    RankInjective(h, m, l, l');
    RankInjective(h, m, r, r');
  }

  /** Equal ranks of equal-sum tuples force equal sums and ranks of the halves. */
  lemma JoinInjective(h: nat, m: nat, l: seq<nat>, r: seq<nat>, l': seq<nat>, r': seq<nat>)
    requires IsTuple(h, m, l) && IsTuple(h, m, r) && IsTuple(h, m, l') && IsTuple(h, m, r')
    requires Sum(l) + Sum(r) == Sum(l') + Sum(r')
    requires Rank(h + 1, m, l + r) == Rank(h + 1, m, l' + r')
    ensures Sum(l) == Sum(l') && Sum(r) == Sum(r')
    ensures Rank(h, m, l) == Rank(h, m, l') && Rank(h, m, r) == Rank(h, m, r')
  {
    hide Part, Count, Sum, Rank;
    RankBound(h, m, l);
    RankBound(h, m, r);
    RankBound(h, m, l');
    RankBound(h, m, r');
    JoinInBracket(h, m, l, r);
    JoinInBracket(h, m, l', r');
    BracketUnique(h, m, Sum(l) + Sum(r), Sum(l), Sum(l'), Rank(h + 1, m, l + r));
    RankOfJoin(h, m, l, r);
    RankOfJoin(h, m, l', r');
    QuotientUnique(Rank(h, m, r), Rank(h, m, l), Rank(h, m, r'), Rank(h, m, l'), Count(h, m, Sum(l)));
  }

  // ---------------------------------------------------------------- unranking

  /** The left-half sum whose bracket contains `r`. */
  function Bracket(h: nat, m: nat, n: nat, r: nat, k: nat): (a: nat)
    requires r < Part(h, m, n, k)
    ensures a < k
    ensures Part(h, m, n, a) <= r < Part(h, m, n, a + 1)
    decreases k
  {
    if r < Part(h, m, n, k - 1) then Bracket(h, m, n, r, k - 1) else k - 1
  }

  /** Inverse of Rank: the level-`h` tuple of sum `n` and rank `r`. */
  function Unrank(h: nat, m: nat, n: nat, r: nat): (x: seq<nat>)
    requires m >= 1
    requires r < Count(h, m, n)
    ensures |x| == Len(h)
    decreases h
  {
    if h == 0 then [n]
    else
      var a := Bracket(h - 1, m, n, r, n + 1);
      var d := r - Part(h - 1, m, n, a);
      DivBound(d, Count(h - 1, m, a), Count(h - 1, m, n - a));
      Unrank(h - 1, m, a, d % Count(h - 1, m, a)) + Unrank(h - 1, m, n - a, d / Count(h - 1, m, a))
  }

  lemma UnrankStep(h: nat, m: nat, n: nat, r: nat) returns (a: nat, p: nat, q: nat)
    requires m >= 1
    requires r < Count(h + 1, m, n)
    ensures a <= n && p < Count(h, m, a) && q < Count(h, m, n - a)
    ensures r == Part(h, m, n, a) + q * Count(h, m, a) + p
    ensures Unrank(h + 1, m, n, r) == Unrank(h, m, a, p) + Unrank(h, m, n - a, q)
  {
    a := Bracket(h, m, n, r, n + 1);
    PartStep(h, m, n, a);
    DivBound(r - Part(h, m, n, a), Count(h, m, a), Count(h, m, n - a));
    p := (r - Part(h, m, n, a)) % Count(h, m, a);
    q := (r - Part(h, m, n, a)) / Count(h, m, a);
  }

  /** Unranking yields a tuple of the right sum whose rank is the given one. */
  lemma {:induction false} RankUnrank(h: nat, m: nat, n: nat, r: nat)
    requires m >= 1
    requires r < Count(h, m, n)
    ensures IsTuple(h, m, Unrank(h, m, n, r))
    ensures Sum(Unrank(h, m, n, r)) == n
    ensures Rank(h, m, Unrank(h, m, n, r)) == r
    decreases h
  {
    if h == 0 {
      SingleSum(n);
    } else {
      hide Part, Count, Sum, Rank, Bracket, Unrank;
      var a, p, q := UnrankStep(h - 1, m, n, r);
      RankUnrank(h - 1, m, a, p);
      RankUnrank(h - 1, m, n - a, q);
      RankOfJoin(h - 1, m, Unrank(h - 1, m, a, p), Unrank(h - 1, m, n - a, q));
    }
  }

  // ---------------------------------------------------------------- the whole index range

  /** Position of `x` among all level-`h` tuples: ring sum first, then rank. */
  function Index(h: nat, m: nat, x: seq<nat>): nat
    requires |x| == Len(h)
  {
    Below(h, m, Sum(x)) + Rank(h, m, x)
  }

  /** The ring sum below `k` whose index range contains `r`. */
  function SumBracket(h: nat, m: nat, r: nat, k: nat): (a: nat)
    requires r < Below(h, m, k)
    ensures a < k
    ensures Below(h, m, a) <= r < Below(h, m, a + 1)
    decreases k
  {
    if r < Below(h, m, k - 1) then SumBracket(h, m, r, k - 1) else k - 1
  }

  /** The tuple with index `r`. */
  function TupleAt(h: nat, m: nat, r: nat): (x: seq<nat>)
    requires m >= 1
    requires r < Pow(m, Len(h))
    ensures |x| == Len(h)
  {
    TotalIsPower(h, m);
    var a := SumBracket(h, m, r, MaxSum(h, m) + 1);
    Unrank(h, m, a, r - Below(h, m, a))
  }

  /** Every tuple's index lies in its ring sum's range, below m^(2^h). */
  lemma IndexRange(h: nat, m: nat, x: seq<nat>)
    requires m >= 1
    requires IsTuple(h, m, x)
    ensures Below(h, m, Sum(x)) <= Index(h, m, x) < Below(h, m, Sum(x) + 1)
    ensures Index(h, m, x) < Pow(m, Len(h))
  {
    RankBound(h, m, x);
    SumBound(h, m, x);
    BelowMonotone(h, m, Sum(x) + 1, MaxSum(h, m) + 1);
    TotalIsPower(h, m);
  }

  /** Every index below m^(2^h) belongs to a tuple ... */
  lemma IndexOfTupleAt(h: nat, m: nat, r: nat)
    requires m >= 1
    requires r < Pow(m, Len(h))
    ensures IsTuple(h, m, TupleAt(h, m, r))
    ensures Index(h, m, TupleAt(h, m, r)) == r
  {
    TotalIsPower(h, m);
    var a := SumBracket(h, m, r, MaxSum(h, m) + 1);
    BelowStep(h, m, a);
    hide Count, Part, Rank, Sum, Below, Unrank, Pow, MaxSum, SumBracket;
    RankUnrank(h, m, a, r - Below(h, m, a));
    assert TupleAt(h, m, r) == Unrank(h, m, a, r - Below(h, m, a));
  }

  /** ... and to only one. */
  lemma IndexInjective(h: nat, m: nat, x: seq<nat>, y: seq<nat>)
    requires m >= 1
    requires IsTuple(h, m, x) && IsTuple(h, m, y)
    requires Index(h, m, x) == Index(h, m, y)
    ensures x == y
  {
    IndexRange(h, m, x);
    IndexRange(h, m, y);
    SumBracketUnique(h, m, Sum(x), Sum(y), Index(h, m, x));
    RankInjective(h, m, x, y);
  }

  lemma TupleAtIndex(h: nat, m: nat, x: seq<nat>)
    requires m >= 1
    requires IsTuple(h, m, x)
    ensures Index(h, m, x) < Pow(m, Len(h))
    ensures TupleAt(h, m, Index(h, m, x)) == x
  {
    IndexRange(h, m, x);
    IndexOfTupleAt(h, m, Index(h, m, x));
    IndexInjective(h, m, x, TupleAt(h, m, Index(h, m, x)));
  }

  /** Small indices go to small ring sums: a larger index never gets a smaller total, so
      the inner (low-energy) rings are used first. */
  lemma LargerIndexNoSmallerSum(h: nat, m: nat, x: seq<nat>, y: seq<nat>)
    requires m >= 1
    requires IsTuple(h, m, x) && IsTuple(h, m, y)
    requires Index(h, m, x) <= Index(h, m, y)
    ensures Sum(x) <= Sum(y)
  {
    IndexRange(h, m, x);
    IndexRange(h, m, y);
    if Sum(y) < Sum(x) {
      BelowMonotone(h, m, Sum(y) + 1, Sum(x));
    }
  }

  // ---------------------------------------------------------------- cardinality

  /** All concatenations of a left and a right half. */
  function Joins(ls: set<seq<nat>>, rs: set<seq<nat>>): set<seq<nat>> {
    set l, r | l in ls && r in rs :: l + r
  }

  /** The level-`h` tuples of sum `s`, as a set built from halves. */
  function Tuples(h: nat, m: nat, s: int): set<seq<nat>>
    decreases h, 0
  {
    if s < 0 then {}
    else if h == 0 then (if s < m then {[s]} else {})
    else TuplesPart(h - 1, m, s, s + 1)
  }

  function TuplesPart(h: nat, m: nat, n: int, k: nat): set<seq<nat>>
    decreases h, k + 1
  {
    if k == 0 then {}
    else TuplesPart(h, m, n, k - 1) + Joins(Tuples(h, m, k - 1), Tuples(h, m, n - (k - 1)))
  }

  lemma {:induction false} TuplesPartMember(h: nat, m: nat, n: int, k: nat, x: seq<nat>)
    ensures x in TuplesPart(h, m, n, k) <==>
            IsTuple(h + 1, m, x) && Sum(x) == n && Sum(x[..Len(h)]) < k
    decreases h, 2, k
  {
    if k > 0 {
      TuplesPartMember(h, m, n, k - 1, x);
      TuplesPartStep(h, m, n, k);
      hide TuplesPart;
      JoinedTuples(h, m, n, k - 1, x);
    }
  }

  /** The tuples of sum `n` whose left half adds up to `a`. */
  lemma {:induction false} JoinedTuples(h: nat, m: nat, n: int, a: nat, x: seq<nat>)
    ensures x in Joins(Tuples(h, m, a), Tuples(h, m, n - a)) <==>
            IsTuple(h + 1, m, x) && Sum(x) == n && Sum(x[..Len(h)]) == a
    decreases h, 1
  {
    hide Tuples, Sum;
    var ls, rs := Tuples(h, m, a), Tuples(h, m, n - a);
    if |x| == 2 * Len(h) {
      var l, r := x[..Len(h)], x[Len(h)..];
      assert x == l + r;
      SumSplit(x, Len(h));
      TuplesMember(h, m, a, l);
      TuplesMember(h, m, n - a, r);
    }
    if x in Joins(ls, rs) {
      var l, r :| l in ls && r in rs && x == l + r;
      TuplesMember(h, m, a, l);
      TuplesMember(h, m, n - a, r);
    }
  }

  /** Membership: exactly the level-`h` tuples below `m` that add up to `s`. */
  lemma {:induction false} TuplesMember(h: nat, m: nat, s: int, x: seq<nat>)
    ensures x in Tuples(h, m, s) <==> IsTuple(h, m, x) && Sum(x) == s
    decreases h, 0
  {
    if s >= 0 {
      if h == 0 {
        if |x| == 1 {
          assert x[..0] == [];
          assert x == [x[0]];
        }
      } else {
        TuplesPartMember(h - 1, m, s, s + 1, x);
        if |x| == Len(h) { SumSplit(x, Len(h - 1)); }
      }
    }
  }

  /** The left half of a concatenation can be read back off it. */
  lemma JoinsSplit(ls: set<seq<nat>>, rs: set<seq<nat>>, k: nat, x: seq<nat>)
    requires forall l :: l in ls ==> |l| == k
    requires x in Joins(ls, rs)
    ensures |x| >= k && x[..k] in ls && x[k..] in rs
  {
    var l, r :| l in ls && r in rs && x == l + r;
    assert x[..k] == l && x[k..] == r;
  }

  lemma JoinsDisjoint(ls: set<seq<nat>>, ls': set<seq<nat>>, rs: set<seq<nat>>, k: nat)
    requires forall l :: l in ls + ls' ==> |l| == k
    requires ls !! ls'
    ensures Joins(ls, rs) !! Joins(ls', rs)
  {
    forall x | x in Joins(ls, rs)
      ensures x !in Joins(ls', rs)
    {
      JoinsSplit(ls, rs, k, x);
      if x in Joins(ls', rs) { JoinsSplit(ls', rs, k, x); }
    }
  }

  lemma {:induction false} JoinsSize(ls: set<seq<nat>>, rs: set<seq<nat>>, k: nat)
    requires forall l :: l in ls ==> |l| == k
    ensures |Joins(ls, rs)| == |ls| * |rs|
    decreases |ls|
  {
    if ls == {} {
      assert Joins(ls, rs) == {};
    } else {
      var l :| l in ls;
      var rest := ls - {l};
      JoinsSize(rest, rs, k);
      JoinsUnion(rest, {l}, rs);
      assert ls == rest + {l};
      JoinsDisjoint(rest, {l}, rs, k);
      PrefixedSize(l, rs);
      hide Joins;
      DisjointSize(Joins(rest, rs), Joins({l}, rs));
      assert |Joins(ls, rs)| == |rest| * |rs| + |rs|;
      assert (|rest| + 1) * |rs| == |rest| * |rs| + |rs|;
      assert |ls| == |rest| + 1;
    }
  }

  lemma JoinsUnion(ls: set<seq<nat>>, ls': set<seq<nat>>, rs: set<seq<nat>>)
    ensures Joins(ls + ls', rs) == Joins(ls, rs) + Joins(ls', rs)
  {
  }

  lemma PrefixedSplit(l: seq<nat>, rs: set<seq<nat>>, x: seq<nat>)
    ensures x in Joins({l}, rs) ==> |x| >= |l| && x[|l|..] in rs
  {
    if x in Joins({l}, rs) { JoinsSplit({l}, rs, |l|, x); }
  }

  lemma {:induction false} PrefixedSize(l: seq<nat>, rs: set<seq<nat>>)
    ensures |Joins({l}, rs)| == |rs|
    decreases |rs|
  {
    if rs == {} {
      assert Joins({l}, rs) == {};
    } else {
      var r :| r in rs;
      var rest := rs - {r};
      PrefixedSize(l, rest);
      assert Joins({l}, rs) == Joins({l}, rest) + {l + r};
      assert (l + r)[|l|..] == r;
      PrefixedSplit(l, rest, l + r);
    }
  }

  lemma {:induction false} TuplesPartSize(h: nat, m: nat, n: int, k: nat)
    ensures |TuplesPart(h, m, n, k)| == Part(h, m, n, k)
    decreases h, k + 1
  {
    hide *;
    if k == 0 {
      EmptyPart(h, m, n);
    } else {
      TuplesPartSize(h, m, n, k - 1);
      CountIsCardinality(h, m, k - 1);
      CountIsCardinality(h, m, n - (k - 1));
      TuplesPartDisjoint(h, m, n, k);
      TuplesPartStep(h, m, n, k);
      PartStep(h, m, n, k - 1);
      JoinedSize(h, m, n, k - 1);
      DisjointSize(TuplesPart(h, m, n, k - 1), Joins(Tuples(h, m, k - 1), Tuples(h, m, n - (k - 1))));
    }
  }

  lemma EmptyPart(h: nat, m: nat, n: int)
    ensures |TuplesPart(h, m, n, 0)| == Part(h, m, n, 0) == 0
  {
  }

  lemma JoinedSize(h: nat, m: nat, n: int, a: nat)
    requires |Tuples(h, m, a)| == Count(h, m, a) && |Tuples(h, m, n - a)| == Count(h, m, n - a)
    ensures |Joins(Tuples(h, m, a), Tuples(h, m, n - a))| == Count(h, m, a) * Count(h, m, n - a)
  {
    hide *;
    TuplesLength(h, m, a);
    JoinsSize(Tuples(h, m, a), Tuples(h, m, n - a), Len(h));
    SameProduct(|Tuples(h, m, a)|, |Tuples(h, m, n - a)|, Count(h, m, a), Count(h, m, n - a));
  }

  lemma SameProduct(a: nat, b: nat, c: nat, d: nat)
    requires a == c && b == d
    ensures a * b == c * d
  {
  }

  lemma TuplesPartStep(h: nat, m: nat, n: int, k: nat)
    requires k > 0
    ensures TuplesPart(h, m, n, k)
         == TuplesPart(h, m, n, k - 1) + Joins(Tuples(h, m, k - 1), Tuples(h, m, n - (k - 1)))
  {
  }

  lemma TuplesLength(h: nat, m: nat, s: int)
    ensures forall x :: x in Tuples(h, m, s) ==> |x| == Len(h)
  {
    forall x | x in Tuples(h, m, s)
      ensures |x| == Len(h)
    {
      TuplesMember(h, m, s, x);
    }
  }

  lemma TuplesPartDisjoint(h: nat, m: nat, n: int, k: nat)
    requires k > 0
    ensures TuplesPart(h, m, n, k - 1) !! Joins(Tuples(h, m, k - 1), Tuples(h, m, n - (k - 1)))
  {
    var ls, rs := Tuples(h, m, k - 1), Tuples(h, m, n - (k - 1));
    forall l | l in ls
      ensures |l| == Len(h) && Sum(l) == k - 1
    {
      TuplesMember(h, m, k - 1, l);
    }
    forall x | x in TuplesPart(h, m, n, k - 1)
      ensures x !in Joins(ls, rs)
    {
      TuplesPartMember(h, m, n, k - 1, x);
      if x in Joins(ls, rs) { JoinsSplit(ls, rs, Len(h), x); }
    }
  }

  lemma DisjointSize<T>(a: set<T>, b: set<T>)
    requires a !! b
    ensures |a + b| == |a| + |b|
  {
  }

  lemma TuplesAreParts(h: nat, m: nat, s: nat)
    requires h > 0
    ensures Tuples(h, m, s) == TuplesPart(h - 1, m, s, s + 1)
    ensures Count(h, m, s) == Part(h - 1, m, s, s + 1)
  {
  }

  /** The tables are true counts: Count is the number of tuples below `m` of sum `s`. */
  lemma {:induction false} CountIsCardinality(h: nat, m: nat, s: int)
    ensures |Tuples(h, m, s)| == Count(h, m, s)
    decreases h, 0
  {
    if s >= 0 && h > 0 {
      TuplesAreParts(h, m, s);
      hide *;
      TuplesPartSize(h - 1, m, s, s + 1);
    }
  }
}
