/** Bit streams packed least-significant bit first. */
module BitIo {
  import opened Arithmetic

  type Bits = seq<bool>
  type Byte = b: nat | b < 256

  // ---------------------------------------------------------------- pieces of a stream

  lemma Assoc<T>(a: seq<T>, b: seq<T>, c: seq<T>)
    ensures (a + b) + c == a + (b + c)
  {
  }

  /** `b` occurs in `s` at `pos`. */
  predicate At(s: Bits, pos: nat, b: Bits) {
    pos + |b| <= |s| && s[pos..pos + |b|] == b
  }

  lemma AtWithin(s: Bits, pos: nat, b: Bits)
    requires At(s, pos, b)
    ensures pos + |b| <= |s|
  {
  }

  lemma AtSplit(s: Bits, pos: nat, a: Bits, b: Bits)
    ensures At(s, pos, a + b) <==> At(s, pos, a) && At(s, pos + |a|, b)
  {
    if At(s, pos, a + b) {
      assert s[pos..pos + |a|] == s[pos..pos + |a + b|][..|a|];
      assert s[pos + |a|..pos + |a| + |b|] == s[pos..pos + |a + b|][|a|..];
    }
    if At(s, pos, a) && At(s, pos + |a|, b) {
      assert s[pos..pos + |a + b|] == s[pos..pos + |a|] + s[pos + |a|..pos + |a| + |b|];
    }
  }

  lemma AtEach(s: Bits, pos: nat, b: Bits)
    requires At(s, pos, b)
    ensures pos + |b| <= |s|
    ensures forall k :: 0 <= k < |b| ==> s[pos + k] == b[k]
  {
    forall k | 0 <= k < |b|
      ensures s[pos + k] == b[k]
    {
      assert s[pos + k] == s[pos..pos + |b|][k];
    }
  }

  // ---------------------------------------------------------------- numbers

  function Exor(a: bool, b: bool): bool {
    a != b
  }

  function Num(b: bool): (n: nat) {
    if b then 1 else 0
  }

  /** The `n` low bits of `v`, least significant first. */
  function LsbBits(v: nat, n: nat): (b: Bits)
    ensures |b| == n
    decreases n
  {
    if n == 0 then [] else [v % 2 == 1] + LsbBits(v / 2, n - 1)
  }

  /** The number a bit string stands for, first bit least significant. */
  function Value(b: Bits): nat {
    if b == [] then 0 else (if b[0] then 1 else 0) + 2 * Value(b[1..])
  }

  /** Bitwise or. */
  function BitOr(a: nat, b: nat): nat {
    if a == 0 then b
    else if b == 0 then a
    else (if a % 2 == 1 || b % 2 == 1 then 1 else 0) + 2 * BitOr(a / 2, b / 2)
  }

  function Shl(v: nat, n: nat): nat {
    v * Pow(2, n)
  }

  lemma ShlIs(v: nat, n: nat)
    ensures Shl(v, n) == v * Pow(2, n)
  {
  }

  lemma PowStep(n: nat)
    requires n > 0
    ensures Pow(2, n) == 2 * Pow(2, n - 1)
  {
  }

  lemma {:induction false} PowUp(n: nat, k: nat)
    requires n <= k
    ensures Pow(2, n) <= Pow(2, k)
    decreases k
  {
    if n < k { PowStep(k); PowUp(n, k - 1); }
  }

  lemma SmallPowers()
    ensures Pow(2, 0) == 1 && Pow(2, 1) == 2 && Pow(2, 2) == 4 && Pow(2, 3) == 8 && Pow(2, 4) == 16
    ensures Pow(2, 5) == 32 && Pow(2, 6) == 64 && Pow(2, 7) == 128 && Pow(2, 8) == 256 && Pow(2, 9) == 512
    ensures Pow(2, 10) == 1024 && Pow(2, 11) == 2048 && Pow(2, 12) == 4096
  {
    assert Pow(2, 0) == 1;
    hide Pow;
    PowStep(1); PowStep(2); PowStep(3); PowStep(4); PowStep(5); PowStep(6);
    PowStep(7); PowStep(8); PowStep(9); PowStep(10); PowStep(11); PowStep(12);
  }

  /** Or-ing a power of two sets that bit and no other. */
  lemma {:induction false} OrBit(a: nat, k: nat, j: nat)
    ensures (BitOr(a, Pow(2, k)) / Pow(2, j)) % 2 == if j == k then 1 else (a / Pow(2, j)) % 2
    decreases j
  {
    var p := Pow(2, k);
    assert Pow(2, 0) == 1;
    hide BitOr, Pow;
    if k > 0 { PowStep(k); }
    PowPositive(k);
    OrBitLow(a, p);
    OrZero(a / 2);
    var h := BitOr(a, p) / 2;
    if j > 0 {
      PowStep(j);
      DivDiv(BitOr(a, p), Pow(2, j - 1));
      DivDiv(a, Pow(2, j - 1));
      if k == 0 {
        assert h == a / 2;
      } else {
        assert h == BitOr(a / 2, Pow(2, k - 1));
        OrBit(a / 2, k - 1, j - 1);
      }
    }
  }

  lemma OrBitLow(a: nat, p: nat)
    requires p > 0
    ensures BitOr(a, p) % 2 == if a % 2 == 1 || p % 2 == 1 then 1 else 0
    ensures BitOr(a, p) / 2 == BitOr(a / 2, p / 2)
  {
    assert BitOr(0, p / 2) == p / 2;
    OrZero(a / 2);
  }

  lemma OrZero(a: nat)
    ensures BitOr(a, 0) == a
  {
  }

  lemma {:induction false} OrBitBound(a: nat, k: nat, n: nat)
    requires a < Pow(2, n) && k < n
    ensures BitOr(a, Pow(2, k)) < Pow(2, n)
    decreases n
  {
    var p := Pow(2, k);
    OrBitLow(a, p);
    PowStep(n);
    if k == 0 {
      assert p == 1;
      OrZero(a / 2);
    } else {
      PowStep(k);
      OrBitBound(a / 2, k - 1, n - 1);
    }
  }

  /** Or-ing a shifted value over free low bits is addition. */
  lemma {:induction false} OrShifted(a: nat, v: nat, n: nat)
    requires a < Pow(2, n)
    ensures BitOr(a, v * Pow(2, n)) == a + v * Pow(2, n)
  {
    if n == 0 {
      assert Pow(2, 0) == 1;
    } else {
      PowStep(n);
      var p := Pow(2, n - 1);
      assert v * (2 * p) == 2 * (v * p);
      var w := v * p;
      assert (2 * w) % 2 == 0 && (2 * w) / 2 == w;
      OrShifted(a / 2, v, n - 1);
    }
  }

  lemma LsbBitsCons(v: nat, n: nat)
    requires n > 0
    ensures LsbBits(v, n) == [v % 2 == 1] + LsbBits(v / 2, n - 1)
  {
  }

  /** Reading the low bits of `a + v * 2^n` for a < 2^n: first a's bits, then v's. */
  lemma {:induction false} LsbBitsShifted(a: nat, v: nat, n: nat, k: nat)
    requires a < Pow(2, n)
    ensures LsbBits(a + v * Pow(2, n), n + k) == LsbBits(a, n) + LsbBits(v, k)
    decreases n
  {
    if n == 0 {
      assert v * Pow(2, 0) == v;
    } else {
      PowStep(n);
      var p := Pow(2, n - 1);
      assert v * (2 * p) == 2 * (v * p);
      var w := v * p;
      assert (a + 2 * w) % 2 == a % 2 && (a + 2 * w) / 2 == a / 2 + w;
      LsbBitsShifted(a / 2, v, n - 1, k);
      hide LsbBits;
      LsbBitsCons(a, n);
      LsbBitsCons(a + 2 * w, n + k);
    }
  }

  /** Only the low bits are read. */
  lemma LsbBitsSplit(v: nat, n: nat, k: nat)
    ensures LsbBits(v, n + k) == LsbBits(v % Pow(2, n), n) + LsbBits(v / Pow(2, n), k)
  {
    hide *;
    PowPositive(n);
    var p := Pow(2, n);
    DivParts(v, p);
    LsbBitsShifted(v % p, v / p, n, k);
  }

  lemma DivParts(v: nat, p: nat)
    requires p > 0
    ensures v == v % p + (v / p) * p && v % p < p && v / p >= 0
  {
  }

  lemma {:induction false} LsbBitsZero(n: nat)
    ensures LsbBits(0, n) == seq(n, _ => false)
  {
    if n > 0 { LsbBitsZero(n - 1); }
  }

  /** Bit k of a value. */
  lemma {:induction false} LsbBitAt(v: nat, n: nat, k: nat)
    requires k < n
    ensures LsbBits(v, n)[k] == ((v / Pow(2, k)) % 2 == 1)
    decreases n
  {
    if k == 0 {
      assert Pow(2, 0) == 1;
    } else {
      LsbBitAt(v / 2, n - 1, k - 1);
      PowStep(k);
      DivDiv(v, Pow(2, k - 1));
    }
  }

  lemma DivDiv(v: nat, p: nat)
    requires p >= 1
    ensures (v / 2) / p == v / (2 * p)
  {
    var q, r := v / (2 * p), v % (2 * p);
    assert v == q * (2 * p) + r;
    assert q * (2 * p) == 2 * (q * p);
    assert v / 2 == q * p + r / 2;
    DivModUnique(q, p, r / 2);
  }

  lemma {:induction false} ValueBound(b: Bits)
    ensures Value(b) < Pow(2, |b|)
  {
    if b != [] { ValueBound(b[1..]); PowStep(|b|); }
  }

  lemma {:induction false} ValueSnoc(b: Bits, x: bool)
    ensures Value(b + [x]) == Value(b) + (if x then Pow(2, |b|) else 0)
  {
    if b == [] {
      assert Pow(2, 0) == 1;
    } else {
      ValueSnoc(b[1..], x);
      assert (b + [x])[1..] == b[1..] + [x];
      PowStep(|b|);
    }
  }

  /** Reading a value's bits and valuing them are inverse. */
  lemma {:induction false} BitsOfValue(b: Bits)
    ensures LsbBits(Value(b), |b|) == b
  {
    if b != [] {
      BitsOfValue(b[1..]);
      assert b == [b[0]] + b[1..];
    }
  }

  lemma {:induction false} ValueOfBits(v: nat, n: nat)
    requires v < Pow(2, n)
    ensures Value(LsbBits(v, n)) == v
    decreases n
  {
    if n == 0 {
      assert Pow(2, 0) == 1;
    } else {
      PowStep(n);
      ValueOfBits(v / 2, n - 1);
      assert LsbBits(v, n)[1..] == LsbBits(v / 2, n - 1);
    }
  }

  lemma ValueOfLowBits(v: nat, n: nat)
    ensures Value(LsbBits(v, n)) == v % Pow(2, n)
  {
    hide LsbBits, Value, Pow;
    LsbBitsSplit(v, n, 0);
    assert LsbBits(v / Pow(2, n), 0) == [];
    assert LsbBits(v % Pow(2, n), n) + [] == LsbBits(v % Pow(2, n), n);
    ValueOfBits(v % Pow(2, n), n);
  }

  // ---------------------------------------------------------------- bytes

  function ByteBits(b: Byte): (r: Bits)
    ensures |r| == 8
  {
    LsbBits(b, 8)
  }

  /** All bits of a byte string. */
  function BytesBits(bytes: seq<Byte>): (b: Bits)
    ensures |b| == 8 * |bytes|
  {
    if bytes == [] then [] else BytesBits(bytes[..|bytes| - 1]) + ByteBits(bytes[|bytes| - 1])
  }

  lemma BytesBitsNil()
    ensures BytesBits([]) == []
  {
  }

  lemma BytesBitsSnoc(bytes: seq<Byte>, b: Byte)
    ensures BytesBits(bytes + [b]) == BytesBits(bytes) + ByteBits(b)
  {
    hide ByteBits;
    assert (bytes + [b])[..|bytes|] == bytes;
  }

  lemma {:induction false} BytesBitsAppend(a: seq<Byte>, b: seq<Byte>)
    ensures BytesBits(a + b) == BytesBits(a) + BytesBits(b)
  {
    hide *;
    if b == [] {
      BytesBitsNil();
      assert a + b == a;
    } else {
      var c, x := b[..|b| - 1], b[|b| - 1];
      BytesBitsAppend(a, c);
      BytesBitsSnoc(a + c, x);
      BytesBitsSnoc(c, x);
      assert b == c + [x];
      assert a + b == (a + c) + [x];
    }
  }

  /** Bit i of a byte string sits in byte i / 8 at position i % 8. */
  lemma {:induction false} BytesBitAt(bytes: seq<Byte>, i: nat)
    requires i < 8 * |bytes|
    ensures BytesBits(bytes)[i] == ((bytes[i / 8] / Pow(2, i % 8)) % 2 == 1)
    decreases |bytes|
  {
    hide ByteBits, Pow;
    var n := |bytes| - 1;
    if i >= 8 * n {
      ByteBitAt(bytes[n], i - 8 * n);
      assert i / 8 == n && i % 8 == i - 8 * n;
    } else {
      BytesBitAt(bytes[..n], i);
    }
  }

  lemma ByteBitAt(b: Byte, k: nat)
    requires k < 8
    ensures ByteBits(b)[k] == ((b / Pow(2, k)) % 2 == 1)
  {
    hide LsbBits, Pow;
    LsbBitAt(b, 8, k);
  }

  /** The octet of eight bits, the lowest first. */
  function OctetOf(b: Bits): (r: Byte)
    requires |b| == 8
  {
    ValueBound(b);
    SmallPowers();
    Value(b)
  }

  lemma OctetBack(b: Bits)
    requires |b| == 8
    ensures ByteBits(OctetOf(b)) == b
  {
    hide LsbBits, Value;
    ValueBound(b);
    SmallPowers();
    BitsOfValue(b);
  }

  lemma ByteInjective(a: Byte, b: Byte)
    requires ByteBits(a) == ByteBits(b)
    ensures a == b
  {
    SmallPowers();
    ValueOfBits(a, 8);
    ValueOfBits(b, 8);
    hide LsbBits;
  }
}
