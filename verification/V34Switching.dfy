/** The V.34 mapping-frame switching pattern and bit split (ITU-T V.34, clauses 8.2 and 9.2;
    nf_v34.c): which of a data frame's P mapping frames carry b bits and which b - 1. */
module V34Switching {
  import opened Arithmetic
  import opened BitIo

  /** The counter after `k` mapping frames: r is added per frame, P taken off on overflow. */
  function Counter(p: nat, r: nat, k: nat): nat {
    if k == 0 then 0
    else
      var c := Counter(p, r, k - 1) + r;
      if c < p then c else c - p
  }

  /** Mapping frame `k` is a high one: the counter overflows in it. */
  predicate IsHigh(p: nat, r: nat, k: nat) {
    Counter(p, r, k) + r >= p
  }

  /** High frames among the first `k`. */
  function Highs(p: nat, r: nat, k: nat): nat {
    if k == 0 then 0 else Highs(p, r, k - 1) + (if IsHigh(p, r, k - 1) then 1 else 0)
  }

  lemma {:induction false} HighsAndCounter(p: nat, r: nat, k: nat)
    requires 1 <= p && r <= p
    ensures k * r == Highs(p, r, k) * p + Counter(p, r, k)
    ensures Counter(p, r, k) < p
  {
    if k > 0 {
      HighsAndCounter(p, r, k - 1);
      assert k * r == (k - 1) * r + r;
      var h := Highs(p, r, k - 1);
      assert (h + 1) * p == h * p + p;
    }
  }

  /** The counter spreads the high frames evenly: exactly floor(k r / P) among the first k. */
  lemma HighsAreEven(p: nat, r: nat, k: nat)
    requires 1 <= p && r <= p
    ensures Highs(p, r, k) == k * r / p
  {
    HighsAndCounter(p, r, k);
    DivModUnique(Highs(p, r, k), p, Counter(p, r, k));
  }

  /** A data frame has exactly r high frames and leaves the counter as it was. */
  lemma FrameIsWhole(p: nat, r: nat)
    requires 1 <= p && r <= p
    ensures Highs(p, r, p) == r && Counter(p, r, p) == 0
  {
    HighsAndCounter(p, r, p);
    assert p * r == r * p + 0;
    QuotientUnique(Highs(p, r, p), Counter(p, r, p), r, 0, p);
  }

  lemma {:induction false} Periodic(p: nat, r: nat, k: nat)
    requires 1 <= p && r <= p
    ensures Counter(p, r, p + k) == Counter(p, r, k)
    ensures IsHigh(p, r, p + k) == IsHigh(p, r, k)
  {
    if k == 0 { FrameIsWhole(p, r); } else { Periodic(p, r, k - 1); }
  }

  /** Bits of the first `k` mapping frames. */
  function BitsIn(p: nat, r: nat, b: nat, k: nat): int {
    if k == 0 then 0 else BitsIn(p, r, b, k - 1) + (if IsHigh(p, r, k - 1) then b else b - 1)
  }

  lemma {:induction false} BitsAndHighs(p: nat, r: nat, b: nat, k: nat)
    ensures BitsIn(p, r, b, k) == k * (b - 1) + Highs(p, r, k)
  {
    if k > 0 {
      BitsAndHighs(p, r, b, k - 1);
      assert k * (b - 1) == (k - 1) * (b - 1) + (b - 1);
    }
  }

  /** The bits per high frame and the number of high frames for N bits a data frame. */
  method Split(n: nat, p: nat) returns (b: nat, r: nat)
    requires 1 <= n && 1 <= p
    ensures 1 <= r <= p && 1 <= b
    ensures BitsIn(p, r, b, p) == n
  {
    b := (n + p - 1) / p;
    assert b * p <= n + p - 1 < b * p + p by { DivBounds(n + p - 1, p); }
    assert (b - 1) * p == b * p - p;
    assert 0 * p == 0 && b >= 1;
    r := n - (b - 1) * p;
    BitsAndHighs(p, r, b, p);
    FrameIsWhole(p, r);
    assert p * (b - 1) == (b - 1) * p;
  }

  lemma DivBounds(n: nat, p: nat)
    requires p >= 1
    ensures n / p * p <= n < n / p * p + p
  {
    assert n == (n / p) * p + n % p;
  }

  /** Bit `i` of a word. */
  predicate Bit(w: nat, i: nat) {
    w / Pow(2, i) % 2 == 1
  }

  /** The pattern word: the first mapping frame's bit is the highest of P. */
  method Pattern(p: nat, r: nat) returns (swp: nat)
    requires 1 <= p <= 16 && r <= p
    ensures swp < Pow(2, p)
    ensures forall k :: 0 <= k < p ==> Bit(swp, p - 1 - k) == IsHigh(p, r, k)
  {
    hide Pow;
    var cnt := 0;
    swp := 0;
    NoBits();
    for k := 0 to p
      invariant cnt == Counter(p, r, k)
      invariant swp < Pow(2, p)
      invariant forall i :: 0 <= i < p ==> Bit(swp, i) == (p - 1 - i < k && IsHigh(p, r, p - 1 - i))
    {
      cnt := cnt + r;
      ghost var was := swp;
      if cnt >= p {
        OrBitBound(swp, p - 1 - k, p);
        swp := BitOr(swp, Pow(2, p - 1 - k));
        cnt := cnt - p;
      }
      forall i | 0 <= i < p
        ensures Bit(swp, i) == (p - 1 - i < k + 1 && IsHigh(p, r, p - 1 - i))
      {
        SetsBit(was, p - 1 - k, i);
      }
    }
  }

  lemma NoBits()
    ensures forall i: nat :: !Bit(0, i)
    ensures forall i: nat :: 0 < Pow(2, i)
  {
    forall i: nat ensures !Bit(0, i) { assert Pow(2, i) > 0; }
  }

  lemma SetsBit(w: nat, k: nat, i: nat)
    ensures Bit(BitOr(w, Pow(2, k)), i) == (i == k || Bit(w, i))
  {
    OrBit(w, k, i);
  }

  /** b1_bits: the bits of one data frame, read off the pattern word. */
  method FrameBits(swp: nat, p: nat, b: nat, ghost r: nat) returns (n: int)
    requires 1 <= p && r <= p && 1 <= b
    requires forall k :: 0 <= k < p ==> Bit(swp, p - 1 - k) == IsHigh(p, r, k)
    ensures n == p * (b - 1) + r
  {
    n := 0;
    for i := 0 to p
      invariant n == BitsIn(p, r, b, i)
    {
      var high := Bit(swp, p - 1 - i);
      n := n + if high then b else b - 1;
    }
    BitsAndHighs(p, r, b, p);
    FrameIsWhole(p, r);
  }

  /** Shell bits K and uncoded bits q of a mapping frame of b bits. */
  method ShellSplit(b: nat) returns (k: nat, q: nat)
    ensures b <= 12 ==> k == 0 && q == 0
    ensures b > 12 ==> b == 12 + 8 * q + k && 1 <= k <= 31 && (q > 0 ==> k >= 24)
  {
    q := 0;
    if b <= 12 { return 0, 0; }
    while b - 12 - 8 * q >= 32
      invariant 12 + 8 * q < b && (q > 0 ==> b - 12 - 8 * q >= 24)
    {
      q := q + 1;
    }
    k := b - 12 - 8 * q;
  }
}
