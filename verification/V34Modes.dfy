/** The operating points of V.34 (ITU-T V.34, Tables 7, 8 and 10; nf_v34.c: the rate tables
    and nf_v34_modeparams_check): every row is consistent and gives frames that can be laid
    out, with minimum and with expanded shaping. */
module V34Modes {
  import opened Arithmetic
  import opened BitIo
  import opened V34ShellMapper
  import opened V34Switching
  import opened V34Frame

  /** A row: rate, auxiliary channel, bits of a high frame, pattern, K, q, rings minimum and
      expanded. */
  datatype Row = Row(rate: nat, aux: bool, b: nat, swp: nat, k: nat, q: nat, mMin: nat, mExp: nat)

  const RATES: nat := 6
  const FIVE8: nat := 390625

  /** J and P of each symbol rate. */
  function Framing(sr: nat): (nat, nat)
    requires sr < RATES
  {
    match sr case 0 => (7, 12) case 1 => (8, 12) case 2 => (7, 14) case 3 => (7, 15) case 4 => (7, 16) case _ => (8, 15)
  }

  // ---------------------------------------------------------------- the pattern word

  /** The pattern of `k` mapping frames, the first one's bit the highest, high frames spread
      evenly. */
  function Word(p: nat, r: nat, k: nat): nat
    requires p >= 1
  {
    if k == 0 then 0 else 2 * Word(p, r, k - 1) + Num(k * r / p > (k - 1) * r / p)
  }

  lemma {:induction false} WordBits(p: nat, r: nat, k: nat, f: nat)
    requires 1 <= p && r <= p && f < k
    ensures Bit(Word(p, r, k), k - 1 - f) == IsHigh(p, r, f)
  {
    hide IsHigh;
    var w := Word(p, r, k - 1);
    if f == k - 1 {
      HighStep(p, r, k);
      assert Pow(2, 0) == 1;
    } else {
      WordBits(p, r, k - 1, f);
      BitAbove(w, Num(k * r / p > (k - 1) * r / p), k - 2 - f);
    }
  }

  lemma HighStep(p: nat, r: nat, k: nat)
    requires 1 <= p && r <= p && k >= 1
    ensures IsHigh(p, r, k - 1) == (k * r / p > (k - 1) * r / p)
  {
    hide IsHigh;
    HighsAreEven(p, r, k);
    HighsAreEven(p, r, k - 1);
  }

  lemma BitAbove(w: nat, d: nat, i: nat)
    requires d <= 1
    ensures Bit(2 * w + d, i + 1) == Bit(w, i)
  {
    PowStep(i + 1);
    DivDiv(2 * w + d, Pow(2, i));
    assert (2 * w + d) / 2 == w;
  }

  lemma {:induction false} WordBound(p: nat, r: nat, k: nat)
    requires p >= 1
    ensures Word(p, r, k) < Pow(2, k)
  {
    if k > 0 { WordBound(p, r, k - 1); PowStep(k); }
  }

  /** Words of `n` bits with the same bits are the same. */
  lemma SameBits(a: nat, b: nat, n: nat)
    requires a < Pow(2, n) && b < Pow(2, n) && forall i :: 0 <= i < n ==> Bit(a, i) == Bit(b, i)
    ensures a == b
  {
    hide LsbBits, Value;
    forall i | 0 <= i < n ensures LsbBits(a, n)[i] == LsbBits(b, n)[i] {
      LsbBitAt(a, n, i);
      LsbBitAt(b, n, i);
      assert Bit(a, i) == Bit(b, i);
    }
    assert LsbBits(a, n) == LsbBits(b, n);
    ValueOfBits(a, n);
    ValueOfBits(b, n);
  }

  // ---------------------------------------------------------------- a row

  /** M is 2^(K/8) rounded up. */
  predicate LeastRings(k: nat, m: nat) {
    m >= 1 && Pow(m - 1, 8) < Pow(2, k) <= Pow(m, 8)
  }

  /** M is 1.25 * 2^(K/8) rounded to the nearest, but no less than the minimum. */
  predicate ExpandedRings(k: nat, least: nat, m: nat) {
    if m == least then FIVE8 * Pow(2, k) < Pow(4 * m + 2, 8)
    else m > least && Pow(4 * m - 2, 8) <= FIVE8 * Pow(2, k) < Pow(4 * m + 2, 8)
  }

  /** N: bits of a data frame, 0.28 R / J. */
  function BitsOf(j: nat, rate: nat): nat {
    if j == 7 then rate * 28 / 700 else rate * 28 / 800
  }

  predicate ShellOf(b: nat, k: nat, q: nat) {
    if b <= 12 then k == 0 && q == 0 else b == 12 + 8 * q + k && 1 <= k <= 31 && (q > 0 ==> k >= 24)
  }

  /** Bits, pattern: the rate gives N whole, b and the counter's word. */
  predicate GoodBits(j: nat, p: nat, row: Row)
    requires (j == 7 || j == 8) && p >= 1
  {
    var n := BitsOf(j, row.rate);
    && row.rate * 28 == 100 * j * n
    && row.b == (n + p - 1) / p
    && (var r := n - (row.b - 1) * p;
        1 <= r <= p && row.swp == Word(p, r, p))
  }

  predicate GoodRings(k: nat, q: nat, mMin: nat, mExp: nat) {
    LeastRings(k, mMin) && ExpandedRings(k, mMin, mExp) && Pow(2, q) * (4 * mExp) <= 1664
  }

  /** What the consistency check looks at. */
  predicate Consistent(j: nat, p: nat, row: Row)
    requires (j == 7 || j == 8) && p >= 1
  {
    GoodBits(j, p, row) && ShellOf(row.b, row.k, row.q) && GoodRings(row.k, row.q, row.mMin, row.mExp)
  }

  /** And what frames need beside that. */
  predicate Usable(j: nat, p: nat, row: Row)
    requires (j == 7 || j == 8) && p >= 1
  {
    Consistent(j, p, row) && BitsOf(j, row.rate) >= 8 * p && row.mMin <= row.mExp <= MAX_RINGS
  }

  function ModeOf(p: nat, row: Row, expanded: bool): Mode {
    Mode(if expanded then row.mExp else row.mMin, row.q, row.k, row.b, p, row.swp)
  }

  /** A usable row gives frames that can be laid out, with both shapings. */
  lemma RowGivesMode(j: nat, p: nat, row: Row, expanded: bool)
    requires (j == 7 || j == 8) && p >= 1 && Usable(j, p, row)
    ensures ModeOk(ModeOf(p, row, expanded))
  {
    hide Bit, IsHigh, Word, Pow, ModeOk;
    var n := BitsOf(j, row.rate);
    var r := n - (row.b - 1) * p;
    var md := ModeOf(p, row, expanded);
    forall f | 0 <= f < p ensures Bit(md.swp, p - 1 - f) == IsHigh(p, r, f) { WordBits(p, r, p, f); }
    PowMonotone(row.mMin, row.mExp, 8);
    AtLeastOneBit(n, p, row.b);
    RateGivesMode(md, n, r);
  }

  lemma AtLeastOneBit(n: nat, p: nat, b: nat)
    requires p >= 1 && n >= p && b == (n + p - 1) / p
    ensures b >= 1
  {
    DivBounds(n + p - 1, p);
    assert 0 * p == 0;
  }

  // ---------------------------------------------------------------- the tables

  /** Powers of two up to 31. */
  lemma Twos()
    ensures Pow(2, 0) == 1 && Pow(2, 1) == 2 && Pow(2, 2) == 4 && Pow(2, 3) == 8 && Pow(2, 4) == 16 && Pow(2, 5) == 32 && Pow(2, 6) == 64 && Pow(2, 7) == 128
    ensures Pow(2, 8) == 256 && Pow(2, 9) == 512 && Pow(2, 10) == 1024 && Pow(2, 11) == 2048 && Pow(2, 12) == 4096 && Pow(2, 13) == 8192 && Pow(2, 14) == 16384 && Pow(2, 15) == 32768
    ensures Pow(2, 16) == 65536 && Pow(2, 17) == 131072 && Pow(2, 18) == 262144 && Pow(2, 19) == 524288 && Pow(2, 20) == 1048576 && Pow(2, 21) == 2097152 && Pow(2, 22) == 4194304 && Pow(2, 23) == 8388608
    ensures Pow(2, 24) == 16777216 && Pow(2, 25) == 33554432 && Pow(2, 26) == 67108864 && Pow(2, 27) == 134217728 && Pow(2, 28) == 268435456 && Pow(2, 29) == 536870912 && Pow(2, 30) == 1073741824 && Pow(2, 31) == 2147483648
  {
    hide Pow;
    SmallPowers();
    PowStep(13); PowStep(14); PowStep(15); PowStep(16); PowStep(17);
    PowStep(18); PowStep(19); PowStep(20); PowStep(21); PowStep(22);
    PowStep(23); PowStep(24); PowStep(25); PowStep(26); PowStep(27);
    PowStep(28); PowStep(29); PowStep(30); PowStep(31);
  }

  /** Eighth powers of the ring numbers looked at. */
  lemma SmallEighths()
    ensures Pow(0, 8) == 0 && Pow(1, 8) == 1 && Pow(2, 8) == 256 && Pow(3, 8) == 6561
    ensures Pow(4, 8) == 65536 && Pow(5, 8) == 390625 && Pow(6, 8) == 1679616 && Pow(7, 8) == 5764801
    ensures Pow(8, 8) == 16777216 && Pow(9, 8) == 43046721 && Pow(10, 8) == 100000000 && Pow(11, 8) == 214358881
    ensures Pow(12, 8) == 429981696 && Pow(13, 8) == 815730721 && Pow(14, 8) == 1475789056 && Pow(15, 8) == 2562890625
  {
  }

  /** Eighth powers of the ring numbers looked at. */
  lemma LargeEighths()
    ensures Pow(18, 8) == 11019960576 && Pow(22, 8) == 54875873536 && Pow(26, 8) == 208827064576 && Pow(30, 8) == 656100000000
    ensures Pow(34, 8) == 1785793904896 && Pow(38, 8) == 4347792138496 && Pow(42, 8) == 9682651996416 && Pow(46, 8) == 20047612231936
    ensures Pow(50, 8) == 39062500000000 && Pow(54, 8) == 72301961339136 && Pow(58, 8) == 128063081718016 && Pow(62, 8) == 218340105584896
    ensures Pow(66, 8) == 360040606269696 && Pow(70, 8) == 576480100000000 && Pow(74, 8) == 899194740203776
  {
  }

  lemma Word12Of12()
    ensures Word(12, 12, 12) == 0xFFF
  {
    assert Word(12, 12, 1) == 1; assert Word(12, 12, 2) == 3; assert Word(12, 12, 3) == 7;
    assert Word(12, 12, 4) == 15; assert Word(12, 12, 5) == 31; assert Word(12, 12, 6) == 63;
    assert Word(12, 12, 7) == 127; assert Word(12, 12, 8) == 255; assert Word(12, 12, 9) == 511;
    assert Word(12, 12, 10) == 1023; assert Word(12, 12, 11) == 2047;
  }

  lemma Word8Of12()
    ensures Word(12, 8, 12) == 0x6DB
  {
    assert Word(12, 8, 1) == 0; assert Word(12, 8, 2) == 1; assert Word(12, 8, 3) == 3;
    assert Word(12, 8, 4) == 6; assert Word(12, 8, 5) == 13; assert Word(12, 8, 6) == 27;
    assert Word(12, 8, 7) == 54; assert Word(12, 8, 8) == 109; assert Word(12, 8, 9) == 219;
    assert Word(12, 8, 10) == 438; assert Word(12, 8, 11) == 877;
  }

  lemma Word7Of12()
    ensures Word(12, 7, 12) == 0x56B
  {
    assert Word(12, 7, 1) == 0; assert Word(12, 7, 2) == 1; assert Word(12, 7, 3) == 2;
    assert Word(12, 7, 4) == 5; assert Word(12, 7, 5) == 10; assert Word(12, 7, 6) == 21;
    assert Word(12, 7, 7) == 43; assert Word(12, 7, 8) == 86; assert Word(12, 7, 9) == 173;
    assert Word(12, 7, 10) == 346; assert Word(12, 7, 11) == 693;
  }

  lemma Word10Of14()
    ensures Word(14, 10, 14) == 0x1BB7
  {
    assert Word(14, 10, 1) == 0; assert Word(14, 10, 2) == 1; assert Word(14, 10, 3) == 3;
    assert Word(14, 10, 4) == 6; assert Word(14, 10, 5) == 13; assert Word(14, 10, 6) == 27;
    assert Word(14, 10, 7) == 55; assert Word(14, 10, 8) == 110; assert Word(14, 10, 9) == 221;
    assert Word(14, 10, 10) == 443; assert Word(14, 10, 11) == 886; assert Word(14, 10, 12) == 1773;
    assert Word(14, 10, 13) == 3547;
  }

  lemma Word4Of14()
    ensures Word(14, 4, 14) == 0x0489
  {
    assert Word(14, 4, 1) == 0; assert Word(14, 4, 2) == 0; assert Word(14, 4, 3) == 0;
    assert Word(14, 4, 4) == 1; assert Word(14, 4, 5) == 2; assert Word(14, 4, 6) == 4;
    assert Word(14, 4, 7) == 9; assert Word(14, 4, 8) == 18; assert Word(14, 4, 9) == 36;
    assert Word(14, 4, 10) == 72; assert Word(14, 4, 11) == 145; assert Word(14, 4, 12) == 290;
    assert Word(14, 4, 13) == 580;
  }

  lemma Word8Of14()
    ensures Word(14, 8, 14) == 0x15AB
  {
    assert Word(14, 8, 1) == 0; assert Word(14, 8, 2) == 1; assert Word(14, 8, 3) == 2;
    assert Word(14, 8, 4) == 5; assert Word(14, 8, 5) == 10; assert Word(14, 8, 6) == 21;
    assert Word(14, 8, 7) == 43; assert Word(14, 8, 8) == 86; assert Word(14, 8, 9) == 173;
    assert Word(14, 8, 10) == 346; assert Word(14, 8, 11) == 693; assert Word(14, 8, 12) == 1386;
    assert Word(14, 8, 13) == 2773;
  }

  lemma Word2Of14()
    ensures Word(14, 2, 14) == 0x0081
  {
    assert Word(14, 2, 1) == 0; assert Word(14, 2, 2) == 0; assert Word(14, 2, 3) == 0;
    assert Word(14, 2, 4) == 0; assert Word(14, 2, 5) == 0; assert Word(14, 2, 6) == 0;
    assert Word(14, 2, 7) == 1; assert Word(14, 2, 8) == 2; assert Word(14, 2, 9) == 4;
    assert Word(14, 2, 10) == 8; assert Word(14, 2, 11) == 16; assert Word(14, 2, 12) == 32;
    assert Word(14, 2, 13) == 64;
  }

  lemma Word6Of14()
    ensures Word(14, 6, 14) == 0x0A95
  {
    assert Word(14, 6, 1) == 0; assert Word(14, 6, 2) == 0; assert Word(14, 6, 3) == 1;
    assert Word(14, 6, 4) == 2; assert Word(14, 6, 5) == 5; assert Word(14, 6, 6) == 10;
    assert Word(14, 6, 7) == 21; assert Word(14, 6, 8) == 42; assert Word(14, 6, 9) == 84;
    assert Word(14, 6, 10) == 169; assert Word(14, 6, 11) == 338; assert Word(14, 6, 12) == 677;
    assert Word(14, 6, 13) == 1354;
  }

  lemma Word14Of14()
    ensures Word(14, 14, 14) == 0x3FFF
  {
    assert Word(14, 14, 1) == 1; assert Word(14, 14, 2) == 3; assert Word(14, 14, 3) == 7;
    assert Word(14, 14, 4) == 15; assert Word(14, 14, 5) == 31; assert Word(14, 14, 6) == 63;
    assert Word(14, 14, 7) == 127; assert Word(14, 14, 8) == 255; assert Word(14, 14, 9) == 511;
    assert Word(14, 14, 10) == 1023; assert Word(14, 14, 11) == 2047; assert Word(14, 14, 12) == 4095;
    assert Word(14, 14, 13) == 8191;
  }

  lemma Word12Of14()
    ensures Word(14, 12, 14) == 0x1FBF
  {
    assert Word(14, 12, 1) == 0; assert Word(14, 12, 2) == 1; assert Word(14, 12, 3) == 3;
    assert Word(14, 12, 4) == 7; assert Word(14, 12, 5) == 15; assert Word(14, 12, 6) == 31;
    assert Word(14, 12, 7) == 63; assert Word(14, 12, 8) == 126; assert Word(14, 12, 9) == 253;
    assert Word(14, 12, 10) == 507; assert Word(14, 12, 11) == 1015; assert Word(14, 12, 12) == 2031;
    assert Word(14, 12, 13) == 4063;
  }

  lemma Word12Of15()
    ensures Word(15, 12, 15) == 0x3DEF
  {
    assert Word(15, 12, 1) == 0; assert Word(15, 12, 2) == 1; assert Word(15, 12, 3) == 3;
    assert Word(15, 12, 4) == 7; assert Word(15, 12, 5) == 15; assert Word(15, 12, 6) == 30;
    assert Word(15, 12, 7) == 61; assert Word(15, 12, 8) == 123; assert Word(15, 12, 9) == 247;
    assert Word(15, 12, 10) == 495; assert Word(15, 12, 11) == 990; assert Word(15, 12, 12) == 1981;
    assert Word(15, 12, 13) == 3963; assert Word(15, 12, 14) == 7927;
  }

  lemma Word5Of15()
    ensures Word(15, 5, 15) == 0x1249
  {
    assert Word(15, 5, 1) == 0; assert Word(15, 5, 2) == 0; assert Word(15, 5, 3) == 1;
    assert Word(15, 5, 4) == 2; assert Word(15, 5, 5) == 4; assert Word(15, 5, 6) == 9;
    assert Word(15, 5, 7) == 18; assert Word(15, 5, 8) == 36; assert Word(15, 5, 9) == 73;
    assert Word(15, 5, 10) == 146; assert Word(15, 5, 11) == 292; assert Word(15, 5, 12) == 585;
    assert Word(15, 5, 13) == 1170; assert Word(15, 5, 14) == 2340;
  }

  lemma Word3Of15()
    ensures Word(15, 3, 15) == 0x0421
  {
    assert Word(15, 3, 1) == 0; assert Word(15, 3, 2) == 0; assert Word(15, 3, 3) == 0;
    assert Word(15, 3, 4) == 0; assert Word(15, 3, 5) == 1; assert Word(15, 3, 6) == 2;
    assert Word(15, 3, 7) == 4; assert Word(15, 3, 8) == 8; assert Word(15, 3, 9) == 16;
    assert Word(15, 3, 10) == 33; assert Word(15, 3, 11) == 66; assert Word(15, 3, 12) == 132;
    assert Word(15, 3, 13) == 264; assert Word(15, 3, 14) == 528;
  }

  lemma Word11Of15()
    ensures Word(15, 11, 15) == 0x3777
  {
    assert Word(15, 11, 1) == 0; assert Word(15, 11, 2) == 1; assert Word(15, 11, 3) == 3;
    assert Word(15, 11, 4) == 6; assert Word(15, 11, 5) == 13; assert Word(15, 11, 6) == 27;
    assert Word(15, 11, 7) == 55; assert Word(15, 11, 8) == 110; assert Word(15, 11, 9) == 221;
    assert Word(15, 11, 10) == 443; assert Word(15, 11, 11) == 887; assert Word(15, 11, 12) == 1774;
    assert Word(15, 11, 13) == 3549; assert Word(15, 11, 14) == 7099;
  }

  lemma Word9Of15()
    ensures Word(15, 9, 15) == 0x2D6B
  {
    assert Word(15, 9, 1) == 0; assert Word(15, 9, 2) == 1; assert Word(15, 9, 3) == 2;
    assert Word(15, 9, 4) == 5; assert Word(15, 9, 5) == 11; assert Word(15, 9, 6) == 22;
    assert Word(15, 9, 7) == 45; assert Word(15, 9, 8) == 90; assert Word(15, 9, 9) == 181;
    assert Word(15, 9, 10) == 363; assert Word(15, 9, 11) == 726; assert Word(15, 9, 12) == 1453;
    assert Word(15, 9, 13) == 2906; assert Word(15, 9, 14) == 5813;
  }

  lemma Word2Of15()
    ensures Word(15, 2, 15) == 0x0081
  {
    assert Word(15, 2, 1) == 0; assert Word(15, 2, 2) == 0; assert Word(15, 2, 3) == 0;
    assert Word(15, 2, 4) == 0; assert Word(15, 2, 5) == 0; assert Word(15, 2, 6) == 0;
    assert Word(15, 2, 7) == 0; assert Word(15, 2, 8) == 1; assert Word(15, 2, 9) == 2;
    assert Word(15, 2, 10) == 4; assert Word(15, 2, 11) == 8; assert Word(15, 2, 12) == 16;
    assert Word(15, 2, 13) == 32; assert Word(15, 2, 14) == 64;
  }

  lemma Word15Of15()
    ensures Word(15, 15, 15) == 0x7FFF
  {
    assert Word(15, 15, 1) == 1; assert Word(15, 15, 2) == 3; assert Word(15, 15, 3) == 7;
    assert Word(15, 15, 4) == 15; assert Word(15, 15, 5) == 31; assert Word(15, 15, 6) == 63;
    assert Word(15, 15, 7) == 127; assert Word(15, 15, 8) == 255; assert Word(15, 15, 9) == 511;
    assert Word(15, 15, 10) == 1023; assert Word(15, 15, 11) == 2047; assert Word(15, 15, 12) == 4095;
    assert Word(15, 15, 13) == 8191; assert Word(15, 15, 14) == 16383;
  }

  lemma Word8Of15()
    ensures Word(15, 8, 15) == 0x2AAB
  {
    assert Word(15, 8, 1) == 0; assert Word(15, 8, 2) == 1; assert Word(15, 8, 3) == 2;
    assert Word(15, 8, 4) == 5; assert Word(15, 8, 5) == 10; assert Word(15, 8, 6) == 21;
    assert Word(15, 8, 7) == 42; assert Word(15, 8, 8) == 85; assert Word(15, 8, 9) == 170;
    assert Word(15, 8, 10) == 341; assert Word(15, 8, 11) == 682; assert Word(15, 8, 12) == 1365;
    assert Word(15, 8, 13) == 2730; assert Word(15, 8, 14) == 5461;
  }

  lemma Word6Of15()
    ensures Word(15, 6, 15) == 0x14A5
  {
    assert Word(15, 6, 1) == 0; assert Word(15, 6, 2) == 0; assert Word(15, 6, 3) == 1;
    assert Word(15, 6, 4) == 2; assert Word(15, 6, 5) == 5; assert Word(15, 6, 6) == 10;
    assert Word(15, 6, 7) == 20; assert Word(15, 6, 8) == 41; assert Word(15, 6, 9) == 82;
    assert Word(15, 6, 10) == 165; assert Word(15, 6, 11) == 330; assert Word(15, 6, 12) == 660;
    assert Word(15, 6, 13) == 1321; assert Word(15, 6, 14) == 2642;
  }

  lemma Word14Of15()
    ensures Word(15, 14, 15) == 0x3FFF
  {
    assert Word(15, 14, 1) == 0; assert Word(15, 14, 2) == 1; assert Word(15, 14, 3) == 3;
    assert Word(15, 14, 4) == 7; assert Word(15, 14, 5) == 15; assert Word(15, 14, 6) == 31;
    assert Word(15, 14, 7) == 63; assert Word(15, 14, 8) == 127; assert Word(15, 14, 9) == 255;
    assert Word(15, 14, 10) == 511; assert Word(15, 14, 11) == 1023; assert Word(15, 14, 12) == 2047;
    assert Word(15, 14, 13) == 4095; assert Word(15, 14, 14) == 8191;
  }

  lemma Word16Of16()
    ensures Word(16, 16, 16) == 0xFFFF
  {
    assert Word(16, 16, 1) == 1; assert Word(16, 16, 2) == 3; assert Word(16, 16, 3) == 7;
    assert Word(16, 16, 4) == 15; assert Word(16, 16, 5) == 31; assert Word(16, 16, 6) == 63;
    assert Word(16, 16, 7) == 127; assert Word(16, 16, 8) == 255; assert Word(16, 16, 9) == 511;
    assert Word(16, 16, 10) == 1023; assert Word(16, 16, 11) == 2047; assert Word(16, 16, 12) == 4095;
    assert Word(16, 16, 13) == 8191; assert Word(16, 16, 14) == 16383; assert Word(16, 16, 15) == 32767;
  }

  lemma Word8Of16()
    ensures Word(16, 8, 16) == 0x5555
  {
    assert Word(16, 8, 1) == 0; assert Word(16, 8, 2) == 1; assert Word(16, 8, 3) == 2;
    assert Word(16, 8, 4) == 5; assert Word(16, 8, 5) == 10; assert Word(16, 8, 6) == 21;
    assert Word(16, 8, 7) == 42; assert Word(16, 8, 8) == 85; assert Word(16, 8, 9) == 170;
    assert Word(16, 8, 10) == 341; assert Word(16, 8, 11) == 682; assert Word(16, 8, 12) == 1365;
    assert Word(16, 8, 13) == 2730; assert Word(16, 8, 14) == 5461; assert Word(16, 8, 15) == 10922;
  }

  lemma Word10Of15()
    ensures Word(15, 10, 15) == 0x36DB
  {
    assert Word(15, 10, 1) == 0; assert Word(15, 10, 2) == 1; assert Word(15, 10, 3) == 3;
    assert Word(15, 10, 4) == 6; assert Word(15, 10, 5) == 13; assert Word(15, 10, 6) == 27;
    assert Word(15, 10, 7) == 54; assert Word(15, 10, 8) == 109; assert Word(15, 10, 9) == 219;
    assert Word(15, 10, 10) == 438; assert Word(15, 10, 11) == 877; assert Word(15, 10, 12) == 1755;
    assert Word(15, 10, 13) == 3510; assert Word(15, 10, 14) == 7021;
  }

  lemma Word4Of15()
    ensures Word(15, 4, 15) == 0x0889
  {
    assert Word(15, 4, 1) == 0; assert Word(15, 4, 2) == 0; assert Word(15, 4, 3) == 0;
    assert Word(15, 4, 4) == 1; assert Word(15, 4, 5) == 2; assert Word(15, 4, 6) == 4;
    assert Word(15, 4, 7) == 8; assert Word(15, 4, 8) == 17; assert Word(15, 4, 9) == 34;
    assert Word(15, 4, 10) == 68; assert Word(15, 4, 11) == 136; assert Word(15, 4, 12) == 273;
    assert Word(15, 4, 13) == 546; assert Word(15, 4, 14) == 1092;
  }

  lemma Word13Of15()
    ensures Word(15, 13, 15) == 0x3F7F
  {
    assert Word(15, 13, 1) == 0; assert Word(15, 13, 2) == 1; assert Word(15, 13, 3) == 3;
    assert Word(15, 13, 4) == 7; assert Word(15, 13, 5) == 15; assert Word(15, 13, 6) == 31;
    assert Word(15, 13, 7) == 63; assert Word(15, 13, 8) == 126; assert Word(15, 13, 9) == 253;
    assert Word(15, 13, 10) == 507; assert Word(15, 13, 11) == 1015; assert Word(15, 13, 12) == 2031;
    assert Word(15, 13, 13) == 4063; assert Word(15, 13, 14) == 8127;
  }

  lemma Word7Of15()
    ensures Word(15, 7, 15) == 0x1555
  {
    assert Word(15, 7, 1) == 0; assert Word(15, 7, 2) == 0; assert Word(15, 7, 3) == 1;
    assert Word(15, 7, 4) == 2; assert Word(15, 7, 5) == 5; assert Word(15, 7, 6) == 10;
    assert Word(15, 7, 7) == 21; assert Word(15, 7, 8) == 42; assert Word(15, 7, 9) == 85;
    assert Word(15, 7, 10) == 170; assert Word(15, 7, 11) == 341; assert Word(15, 7, 12) == 682;
    assert Word(15, 7, 13) == 1365; assert Word(15, 7, 14) == 2730;
  }

  lemma Word1Of15()
    ensures Word(15, 1, 15) == 0x0001
  {
    assert Word(15, 1, 1) == 0; assert Word(15, 1, 2) == 0; assert Word(15, 1, 3) == 0;
    assert Word(15, 1, 4) == 0; assert Word(15, 1, 5) == 0; assert Word(15, 1, 6) == 0;
    assert Word(15, 1, 7) == 0; assert Word(15, 1, 8) == 0; assert Word(15, 1, 9) == 0;
    assert Word(15, 1, 10) == 0; assert Word(15, 1, 11) == 0; assert Word(15, 1, 12) == 0;
    assert Word(15, 1, 13) == 0; assert Word(15, 1, 14) == 0;
  }

  function Rates2400(): (t: seq<Row>)
    ensures |t| == 18
  {
    [Row(2400, false, 8, 0xFFF, 0, 0, 1, 1),
     Row(2600, true, 9, 0x6DB, 0, 0, 1, 1),
     Row(4800, false, 16, 0xFFF, 4, 0, 2, 2),
     Row(5000, true, 17, 0x6DB, 5, 0, 2, 2),
     Row(7200, false, 24, 0xFFF, 12, 0, 3, 4),
     Row(7400, true, 25, 0x6DB, 13, 0, 4, 4),
     Row(9600, false, 32, 0xFFF, 20, 0, 6, 7),
     Row(9800, true, 33, 0x6DB, 21, 0, 7, 8),
     Row(12000, false, 40, 0xFFF, 28, 0, 12, 14),
     Row(12200, true, 41, 0x6DB, 29, 0, 13, 15),
     Row(14400, false, 48, 0xFFF, 28, 1, 12, 14),
     Row(14600, true, 49, 0x6DB, 29, 1, 13, 15),
     Row(16800, false, 56, 0xFFF, 28, 2, 12, 14),
     Row(17000, true, 57, 0x6DB, 29, 2, 13, 15),
     Row(19200, false, 64, 0xFFF, 28, 3, 12, 14),
     Row(19400, true, 65, 0x6DB, 29, 3, 13, 15),
     Row(21600, false, 72, 0xFFF, 28, 4, 12, 14),
     Row(21800, true, 73, 0x6DB, 29, 4, 13, 15)]
  }

  function Rates2743(): (t: seq<Row>)
    ensures |t| == 20
  {
    [Row(4800, false, 14, 0xFFF, 2, 0, 2, 2),
     Row(5000, true, 15, 0x56B, 3, 0, 2, 2),
     Row(7200, false, 21, 0xFFF, 9, 0, 3, 3),
     Row(7400, true, 22, 0x56B, 10, 0, 3, 3),
     Row(9600, false, 28, 0xFFF, 16, 0, 4, 5),
     Row(9800, true, 29, 0x56B, 17, 0, 5, 5),
     Row(12000, false, 35, 0xFFF, 23, 0, 8, 9),
     Row(12200, true, 36, 0x56B, 24, 0, 8, 10),
     Row(14400, false, 42, 0xFFF, 30, 0, 14, 17),
     Row(14600, true, 43, 0x56B, 31, 0, 15, 18),
     Row(16800, false, 49, 0xFFF, 29, 1, 13, 15),
     Row(17000, true, 50, 0x56B, 30, 1, 14, 17),
     Row(19200, false, 56, 0xFFF, 28, 2, 12, 14),
     Row(19400, true, 57, 0x56B, 29, 2, 13, 15),
     Row(21600, false, 63, 0xFFF, 27, 3, 11, 13),
     Row(21800, true, 64, 0x56B, 28, 3, 12, 14),
     Row(24000, false, 70, 0xFFF, 26, 4, 10, 12),
     Row(24200, true, 71, 0x56B, 27, 4, 11, 13),
     Row(26400, false, 77, 0xFFF, 25, 5, 9, 11),
     Row(26600, true, 78, 0x56B, 26, 5, 10, 12)]
  }

  function Rates2800(): (t: seq<Row>)
    ensures |t| == 20
  {
    [Row(4800, false, 14, 0x1BB7, 2, 0, 2, 2),
     Row(5000, true, 15, 0x0489, 3, 0, 2, 2),
     Row(7200, false, 21, 0x15AB, 9, 0, 3, 3),
     Row(7400, true, 22, 0x0081, 10, 0, 3, 3),
     Row(9600, false, 28, 0x0A95, 16, 0, 4, 5),
     Row(9800, true, 28, 0x3FFF, 16, 0, 4, 5),
     Row(12000, false, 35, 0x0489, 23, 0, 8, 9),
     Row(12200, true, 35, 0x1FBF, 23, 0, 8, 9),
     Row(14400, false, 42, 0x0081, 30, 0, 14, 17),
     Row(14600, true, 42, 0x1BB7, 30, 0, 14, 17),
     Row(16800, false, 48, 0x3FFF, 28, 1, 12, 14),
     Row(17000, true, 49, 0x15AB, 29, 1, 13, 15),
     Row(19200, false, 55, 0x1FBF, 27, 2, 11, 13),
     Row(19400, true, 56, 0x0A95, 28, 2, 12, 14),
     Row(21600, false, 62, 0x1BB7, 26, 3, 10, 12),
     Row(21800, true, 63, 0x0489, 27, 3, 11, 13),
     Row(24000, false, 69, 0x15AB, 25, 4, 9, 11),
     Row(24200, true, 70, 0x0081, 26, 4, 10, 12),
     Row(26400, false, 76, 0x0A95, 24, 5, 8, 10),
     Row(26600, true, 76, 0x3FFF, 24, 5, 8, 10)]
  }

  function Rates3000(): (t: seq<Row>)
    ensures |t| == 22
  {
    [Row(4800, false, 13, 0x3DEF, 1, 0, 2, 2),
     Row(5000, true, 14, 0x1249, 2, 0, 2, 2),
     Row(7200, false, 20, 0x0421, 8, 0, 2, 3),
     Row(7400, true, 20, 0x3777, 8, 0, 2, 3),
     Row(9600, false, 26, 0x2D6B, 14, 0, 4, 4),
     Row(9800, true, 27, 0x0081, 15, 0, 4, 5),
     Row(12000, false, 32, 0x7FFF, 20, 0, 6, 7),
     Row(12200, true, 33, 0x2AAB, 21, 0, 7, 8),
     Row(14400, false, 39, 0x14A5, 27, 0, 11, 13),
     Row(14600, true, 39, 0x3FFF, 27, 0, 11, 13),
     Row(16800, false, 45, 0x3DEF, 25, 1, 9, 11),
     Row(17000, true, 46, 0x1249, 26, 1, 10, 12),
     Row(19200, false, 52, 0x0421, 24, 2, 8, 10),
     Row(19400, true, 52, 0x3777, 24, 2, 8, 10),
     Row(21600, false, 58, 0x2D6B, 30, 2, 14, 17),
     Row(21800, true, 59, 0x0081, 31, 2, 15, 18),
     Row(24000, false, 64, 0x7FFF, 28, 3, 12, 14),
     Row(24200, true, 65, 0x2AAB, 29, 3, 13, 15),
     Row(26400, false, 71, 0x14A5, 27, 4, 11, 13),
     Row(26600, true, 71, 0x3FFF, 27, 4, 11, 13),
     Row(28800, false, 77, 0x3DEF, 25, 5, 9, 11),
     Row(29000, true, 78, 0x1249, 26, 5, 10, 12)]
  }

  function Rates3200(): (t: seq<Row>)
    ensures |t| == 24
  {
    [Row(4800, false, 12, 0xFFFF, 0, 0, 1, 1),
     Row(5000, true, 13, 0x5555, 1, 0, 2, 2),
     Row(7200, false, 18, 0xFFFF, 6, 0, 2, 2),
     Row(7400, true, 19, 0x5555, 7, 0, 2, 2),
     Row(9600, false, 24, 0xFFFF, 12, 0, 3, 4),
     Row(9800, true, 25, 0x5555, 13, 0, 4, 4),
     Row(12000, false, 30, 0xFFFF, 18, 0, 5, 6),
     Row(12200, true, 31, 0x5555, 19, 0, 6, 6),
     Row(14400, false, 36, 0xFFFF, 24, 0, 8, 10),
     Row(14600, true, 37, 0x5555, 25, 0, 9, 11),
     Row(16800, false, 42, 0xFFFF, 30, 0, 14, 17),
     Row(17000, true, 43, 0x5555, 31, 0, 15, 18),
     Row(19200, false, 48, 0xFFFF, 28, 1, 12, 14),
     Row(19400, true, 49, 0x5555, 29, 1, 13, 15),
     Row(21600, false, 54, 0xFFFF, 26, 2, 10, 12),
     Row(21800, true, 55, 0x5555, 27, 2, 11, 13),
     Row(24000, false, 60, 0xFFFF, 24, 3, 8, 10),
     Row(24200, true, 61, 0x5555, 25, 3, 9, 11),
     Row(26400, false, 66, 0xFFFF, 30, 3, 14, 17),
     Row(26600, true, 67, 0x5555, 31, 3, 15, 18),
     Row(28800, false, 72, 0xFFFF, 28, 4, 12, 14),
     Row(29000, true, 73, 0x5555, 29, 4, 13, 15),
     Row(31200, false, 78, 0xFFFF, 26, 5, 10, 12),
     Row(31400, true, 79, 0x5555, 27, 5, 11, 13)]
  }

  function Rates3429(): (t: seq<Row>)
    ensures |t| == 26
  {
    [Row(4800, false, 12, 0x0421, 0, 0, 1, 1),
     Row(5000, true, 12, 0x36DB, 0, 0, 1, 1),
     Row(7200, false, 17, 0x3DEF, 5, 0, 2, 2),
     Row(7400, true, 18, 0x0889, 6, 0, 2, 2),
     Row(9600, false, 23, 0x14A5, 11, 0, 3, 3),
     Row(9800, true, 23, 0x3F7F, 11, 0, 3, 3),
     Row(12000, false, 28, 0x7FFF, 16, 0, 4, 5),
     Row(12200, true, 29, 0x1555, 17, 0, 5, 5),
     Row(14400, false, 34, 0x2D6B, 22, 0, 7, 8),
     Row(14600, true, 35, 0x0001, 23, 0, 8, 9),
     Row(16800, false, 40, 0x0421, 28, 0, 12, 14),
     Row(17000, true, 40, 0x36DB, 28, 0, 12, 14),
     Row(19200, false, 45, 0x3DEF, 25, 1, 9, 11),
     Row(19400, true, 46, 0x0889, 26, 1, 10, 12),
     Row(21600, false, 51, 0x14A5, 31, 1, 15, 18),
     Row(21800, true, 51, 0x3F7F, 31, 1, 15, 18),
     Row(24000, false, 56, 0x7FFF, 28, 2, 12, 14),
     Row(24200, true, 57, 0x1555, 29, 2, 13, 15),
     Row(26400, false, 62, 0x2D6B, 26, 3, 10, 12),
     Row(26600, true, 63, 0x0001, 27, 3, 11, 13),
     Row(28800, false, 68, 0x0421, 24, 4, 8, 10),
     Row(29000, true, 68, 0x36DB, 24, 4, 8, 10),
     Row(31200, false, 73, 0x3DEF, 29, 4, 13, 15),
     Row(31400, true, 74, 0x0889, 30, 4, 14, 17),
     Row(33600, false, 79, 0x14A5, 27, 5, 11, 13),
     Row(33800, true, 79, 0x3F7F, 27, 5, 11, 13)]
  }

  lemma Fits2400_0()
    ensures forall i :: 0 <= i < 3 ==> Usable(7, 12, Rates2400()[i])
  {
    hide Word, Pow;
    Twos();
    SmallEighths();
    LargeEighths();
    Word12Of12(); Word8Of12();
    var t := Rates2400();
    assert Usable(7, 12, t[0]); assert Usable(7, 12, t[1]); assert Usable(7, 12, t[2]);
  }

  lemma Fits2400_3()
    ensures forall i :: 3 <= i < 6 ==> Usable(7, 12, Rates2400()[i])
  {
    hide Word, Pow;
    Twos();
    SmallEighths();
    LargeEighths();
    Word8Of12(); Word12Of12();
    var t := Rates2400();
    assert Usable(7, 12, t[3]); assert Usable(7, 12, t[4]); assert Usable(7, 12, t[5]);
  }

  lemma Fits2400_6()
    ensures forall i :: 6 <= i < 9 ==> Usable(7, 12, Rates2400()[i])
  {
    hide Word, Pow;
    Twos();
    SmallEighths();
    LargeEighths();
    Word12Of12(); Word8Of12();
    var t := Rates2400();
    assert Usable(7, 12, t[6]); assert Usable(7, 12, t[7]); assert Usable(7, 12, t[8]);
  }

  lemma Fits2400_9()
    ensures forall i :: 9 <= i < 12 ==> Usable(7, 12, Rates2400()[i])
  {
    hide Word, Pow;
    Twos();
    SmallEighths();
    LargeEighths();
    Word8Of12(); Word12Of12();
    var t := Rates2400();
    assert Usable(7, 12, t[9]); assert Usable(7, 12, t[10]); assert Usable(7, 12, t[11]);
  }

  lemma Fits2400_12()
    ensures forall i :: 12 <= i < 15 ==> Usable(7, 12, Rates2400()[i])
  {
    hide Word, Pow;
    Twos();
    SmallEighths();
    LargeEighths();
    Word12Of12(); Word8Of12();
    var t := Rates2400();
    assert Usable(7, 12, t[12]); assert Usable(7, 12, t[13]); assert Usable(7, 12, t[14]);
  }

  lemma Fits2400_15()
    ensures forall i :: 15 <= i < 18 ==> Usable(7, 12, Rates2400()[i])
  {
    hide Word, Pow;
    Twos();
    SmallEighths();
    LargeEighths();
    Word8Of12(); Word12Of12();
    var t := Rates2400();
    assert Usable(7, 12, t[15]); assert Usable(7, 12, t[16]); assert Usable(7, 12, t[17]);
  }

  lemma Fits2743_0()
    ensures forall i :: 0 <= i < 3 ==> Usable(8, 12, Rates2743()[i])
  {
    hide Word, Pow;
    Twos();
    SmallEighths();
    LargeEighths();
    Word12Of12(); Word7Of12();
    var t := Rates2743();
    assert Usable(8, 12, t[0]); assert Usable(8, 12, t[1]); assert Usable(8, 12, t[2]);
  }

  lemma Fits2743_3()
    ensures forall i :: 3 <= i < 6 ==> Usable(8, 12, Rates2743()[i])
  {
    hide Word, Pow;
    Twos();
    SmallEighths();
    LargeEighths();
    Word7Of12(); Word12Of12();
    var t := Rates2743();
    assert Usable(8, 12, t[3]); assert Usable(8, 12, t[4]); assert Usable(8, 12, t[5]);
  }

  lemma Fits2743_6()
    ensures forall i :: 6 <= i < 9 ==> Usable(8, 12, Rates2743()[i])
  {
    hide Word, Pow;
    Twos();
    SmallEighths();
    LargeEighths();
    Word12Of12(); Word7Of12();
    var t := Rates2743();
    assert Usable(8, 12, t[6]); assert Usable(8, 12, t[7]); assert Usable(8, 12, t[8]);
  }

  lemma Fits2743_9()
    ensures forall i :: 9 <= i < 12 ==> Usable(8, 12, Rates2743()[i])
  {
    hide Word, Pow;
    Twos();
    SmallEighths();
    LargeEighths();
    Word7Of12(); Word12Of12();
    var t := Rates2743();
    assert Usable(8, 12, t[9]); assert Usable(8, 12, t[10]); assert Usable(8, 12, t[11]);
  }

  lemma Fits2743_12()
    ensures forall i :: 12 <= i < 15 ==> Usable(8, 12, Rates2743()[i])
  {
    hide Word, Pow;
    Twos();
    SmallEighths();
    LargeEighths();
    Word12Of12(); Word7Of12();
    var t := Rates2743();
    assert Usable(8, 12, t[12]); assert Usable(8, 12, t[13]); assert Usable(8, 12, t[14]);
  }

  lemma Fits2743_15()
    ensures forall i :: 15 <= i < 18 ==> Usable(8, 12, Rates2743()[i])
  {
    hide Word, Pow;
    Twos();
    SmallEighths();
    LargeEighths();
    Word7Of12(); Word12Of12();
    var t := Rates2743();
    assert Usable(8, 12, t[15]); assert Usable(8, 12, t[16]); assert Usable(8, 12, t[17]);
  }

  lemma Fits2743_18()
    ensures forall i :: 18 <= i < 20 ==> Usable(8, 12, Rates2743()[i])
  {
    hide Word, Pow;
    Twos();
    SmallEighths();
    LargeEighths();
    Word12Of12(); Word7Of12();
    var t := Rates2743();
    assert Usable(8, 12, t[18]); assert Usable(8, 12, t[19]);
  }

  lemma Fits2800_0()
    ensures forall i :: 0 <= i < 3 ==> Usable(7, 14, Rates2800()[i])
  {
    hide Word, Pow;
    Twos();
    SmallEighths();
    LargeEighths();
    Word10Of14(); Word4Of14(); Word8Of14();
    var t := Rates2800();
    assert Usable(7, 14, t[0]); assert Usable(7, 14, t[1]); assert Usable(7, 14, t[2]);
  }

  lemma Fits2800_3()
    ensures forall i :: 3 <= i < 6 ==> Usable(7, 14, Rates2800()[i])
  {
    hide Word, Pow;
    Twos();
    SmallEighths();
    LargeEighths();
    Word2Of14(); Word6Of14(); Word14Of14();
    var t := Rates2800();
    assert Usable(7, 14, t[3]); assert Usable(7, 14, t[4]); assert Usable(7, 14, t[5]);
  }

  lemma Fits2800_6()
    ensures forall i :: 6 <= i < 9 ==> Usable(7, 14, Rates2800()[i])
  {
    hide Word, Pow;
    Twos();
    SmallEighths();
    LargeEighths();
    Word4Of14(); Word12Of14(); Word2Of14();
    var t := Rates2800();
    assert Usable(7, 14, t[6]); assert Usable(7, 14, t[7]); assert Usable(7, 14, t[8]);
  }

  lemma Fits2800_9()
    ensures forall i :: 9 <= i < 12 ==> Usable(7, 14, Rates2800()[i])
  {
    hide Word, Pow;
    Twos();
    SmallEighths();
    LargeEighths();
    Word10Of14(); Word14Of14(); Word8Of14();
    var t := Rates2800();
    assert Usable(7, 14, t[9]); assert Usable(7, 14, t[10]); assert Usable(7, 14, t[11]);
  }

  lemma Fits2800_12()
    ensures forall i :: 12 <= i < 15 ==> Usable(7, 14, Rates2800()[i])
  {
    hide Word, Pow;
    Twos();
    SmallEighths();
    LargeEighths();
    Word12Of14(); Word6Of14(); Word10Of14();
    var t := Rates2800();
    assert Usable(7, 14, t[12]); assert Usable(7, 14, t[13]); assert Usable(7, 14, t[14]);
  }

  lemma Fits2800_15()
    ensures forall i :: 15 <= i < 18 ==> Usable(7, 14, Rates2800()[i])
  {
    hide Word, Pow;
    Twos();
    SmallEighths();
    LargeEighths();
    Word4Of14(); Word8Of14(); Word2Of14();
    var t := Rates2800();
    assert Usable(7, 14, t[15]); assert Usable(7, 14, t[16]); assert Usable(7, 14, t[17]);
  }

  lemma Fits2800_18()
    ensures forall i :: 18 <= i < 20 ==> Usable(7, 14, Rates2800()[i])
  {
    hide Word, Pow;
    Twos();
    SmallEighths();
    LargeEighths();
    Word6Of14(); Word14Of14();
    var t := Rates2800();
    assert Usable(7, 14, t[18]); assert Usable(7, 14, t[19]);
  }

  lemma Fits3000_0()
    ensures forall i :: 0 <= i < 3 ==> Usable(7, 15, Rates3000()[i])
  {
    hide Word, Pow;
    Twos();
    SmallEighths();
    LargeEighths();
    Word12Of15(); Word5Of15(); Word3Of15();
    var t := Rates3000();
    assert Usable(7, 15, t[0]); assert Usable(7, 15, t[1]); assert Usable(7, 15, t[2]);
  }

  lemma Fits3000_3()
    ensures forall i :: 3 <= i < 6 ==> Usable(7, 15, Rates3000()[i])
  {
    hide Word, Pow;
    Twos();
    SmallEighths();
    LargeEighths();
    Word11Of15(); Word9Of15(); Word2Of15();
    var t := Rates3000();
    assert Usable(7, 15, t[3]); assert Usable(7, 15, t[4]); assert Usable(7, 15, t[5]);
  }

  lemma Fits3000_6()
    ensures forall i :: 6 <= i < 9 ==> Usable(7, 15, Rates3000()[i])
  {
    hide Word, Pow;
    Twos();
    SmallEighths();
    LargeEighths();
    Word15Of15(); Word8Of15(); Word6Of15();
    var t := Rates3000();
    assert Usable(7, 15, t[6]); assert Usable(7, 15, t[7]); assert Usable(7, 15, t[8]);
  }

  lemma Fits3000_9()
    ensures forall i :: 9 <= i < 12 ==> Usable(7, 15, Rates3000()[i])
  {
    hide Word, Pow;
    Twos();
    SmallEighths();
    LargeEighths();
    Word14Of15(); Word12Of15(); Word5Of15();
    var t := Rates3000();
    assert Usable(7, 15, t[9]); assert Usable(7, 15, t[10]); assert Usable(7, 15, t[11]);
  }

  lemma Fits3000_12()
    ensures forall i :: 12 <= i < 15 ==> Usable(7, 15, Rates3000()[i])
  {
    hide Word, Pow;
    Twos();
    SmallEighths();
    LargeEighths();
    Word3Of15(); Word11Of15(); Word9Of15();
    var t := Rates3000();
    assert Usable(7, 15, t[12]); assert Usable(7, 15, t[13]); assert Usable(7, 15, t[14]);
  }

  lemma Fits3000_15()
    ensures forall i :: 15 <= i < 18 ==> Usable(7, 15, Rates3000()[i])
  {
    hide Word, Pow;
    Twos();
    SmallEighths();
    LargeEighths();
    Word2Of15(); Word15Of15(); Word8Of15();
    var t := Rates3000();
    assert Usable(7, 15, t[15]); assert Usable(7, 15, t[16]); assert Usable(7, 15, t[17]);
  }

  lemma Fits3000_18()
    ensures forall i :: 18 <= i < 21 ==> Usable(7, 15, Rates3000()[i])
  {
    hide Word, Pow;
    Twos();
    SmallEighths();
    LargeEighths();
    Word6Of15(); Word14Of15(); Word12Of15();
    var t := Rates3000();
    assert Usable(7, 15, t[18]); assert Usable(7, 15, t[19]); assert Usable(7, 15, t[20]);
  }

  lemma Fits3000_21()
    ensures forall i :: 21 <= i < 22 ==> Usable(7, 15, Rates3000()[i])
  {
    hide Word, Pow;
    Twos();
    SmallEighths();
    LargeEighths();
    Word5Of15();
    var t := Rates3000();
    assert Usable(7, 15, t[21]);
  }

  lemma Fits3200_0()
    ensures forall i :: 0 <= i < 3 ==> Usable(7, 16, Rates3200()[i])
  {
    hide Word, Pow;
    Twos();
    SmallEighths();
    LargeEighths();
    Word16Of16(); Word8Of16();
    var t := Rates3200();
    assert Usable(7, 16, t[0]); assert Usable(7, 16, t[1]); assert Usable(7, 16, t[2]);
  }

  lemma Fits3200_3()
    ensures forall i :: 3 <= i < 6 ==> Usable(7, 16, Rates3200()[i])
  {
    hide Word, Pow;
    Twos();
    SmallEighths();
    LargeEighths();
    Word8Of16(); Word16Of16();
    var t := Rates3200();
    assert Usable(7, 16, t[3]); assert Usable(7, 16, t[4]); assert Usable(7, 16, t[5]);
  }

  lemma Fits3200_6()
    ensures forall i :: 6 <= i < 9 ==> Usable(7, 16, Rates3200()[i])
  {
    hide Word, Pow;
    Twos();
    SmallEighths();
    LargeEighths();
    Word16Of16(); Word8Of16();
    var t := Rates3200();
    assert Usable(7, 16, t[6]); assert Usable(7, 16, t[7]); assert Usable(7, 16, t[8]);
  }

  lemma Fits3200_9()
    ensures forall i :: 9 <= i < 12 ==> Usable(7, 16, Rates3200()[i])
  {
    hide Word, Pow;
    Twos();
    SmallEighths();
    LargeEighths();
    Word8Of16(); Word16Of16();
    var t := Rates3200();
    assert Usable(7, 16, t[9]); assert Usable(7, 16, t[10]); assert Usable(7, 16, t[11]);
  }

  lemma Fits3200_12()
    ensures forall i :: 12 <= i < 15 ==> Usable(7, 16, Rates3200()[i])
  {
    hide Word, Pow;
    Twos();
    SmallEighths();
    LargeEighths();
    Word16Of16(); Word8Of16();
    var t := Rates3200();
    assert Usable(7, 16, t[12]); assert Usable(7, 16, t[13]); assert Usable(7, 16, t[14]);
  }

  lemma Fits3200_15()
    ensures forall i :: 15 <= i < 18 ==> Usable(7, 16, Rates3200()[i])
  {
    hide Word, Pow;
    Twos();
    SmallEighths();
    LargeEighths();
    Word8Of16(); Word16Of16();
    var t := Rates3200();
    assert Usable(7, 16, t[15]); assert Usable(7, 16, t[16]); assert Usable(7, 16, t[17]);
  }

  lemma Fits3200_18()
    ensures forall i :: 18 <= i < 21 ==> Usable(7, 16, Rates3200()[i])
  {
    hide Word, Pow;
    Twos();
    SmallEighths();
    LargeEighths();
    Word16Of16(); Word8Of16();
    var t := Rates3200();
    assert Usable(7, 16, t[18]); assert Usable(7, 16, t[19]); assert Usable(7, 16, t[20]);
  }

  lemma Fits3200_21()
    ensures forall i :: 21 <= i < 24 ==> Usable(7, 16, Rates3200()[i])
  {
    hide Word, Pow;
    Twos();
    SmallEighths();
    LargeEighths();
    Word8Of16(); Word16Of16();
    var t := Rates3200();
    assert Usable(7, 16, t[21]); assert Usable(7, 16, t[22]); assert Usable(7, 16, t[23]);
  }

  lemma Fits3429_0()
    ensures forall i :: 0 <= i < 3 ==> Usable(8, 15, Rates3429()[i])
  {
    hide Word, Pow;
    Twos();
    SmallEighths();
    LargeEighths();
    Word3Of15(); Word10Of15(); Word12Of15();
    var t := Rates3429();
    assert Usable(8, 15, t[0]); assert Usable(8, 15, t[1]); assert Usable(8, 15, t[2]);
  }

  lemma Fits3429_3()
    ensures forall i :: 3 <= i < 6 ==> Usable(8, 15, Rates3429()[i])
  {
    hide Word, Pow;
    Twos();
    SmallEighths();
    LargeEighths();
    Word4Of15(); Word6Of15(); Word13Of15();
    var t := Rates3429();
    assert Usable(8, 15, t[3]); assert Usable(8, 15, t[4]); assert Usable(8, 15, t[5]);
  }

  lemma Fits3429_6()
    ensures forall i :: 6 <= i < 9 ==> Usable(8, 15, Rates3429()[i])
  {
    hide Word, Pow;
    Twos();
    SmallEighths();
    LargeEighths();
    Word15Of15(); Word7Of15(); Word9Of15();
    var t := Rates3429();
    assert Usable(8, 15, t[6]); assert Usable(8, 15, t[7]); assert Usable(8, 15, t[8]);
  }

  lemma Fits3429_9()
    ensures forall i :: 9 <= i < 12 ==> Usable(8, 15, Rates3429()[i])
  {
    hide Word, Pow;
    Twos();
    SmallEighths();
    LargeEighths();
    Word1Of15(); Word3Of15(); Word10Of15();
    var t := Rates3429();
    assert Usable(8, 15, t[9]); assert Usable(8, 15, t[10]); assert Usable(8, 15, t[11]);
  }

  lemma Fits3429_12()
    ensures forall i :: 12 <= i < 15 ==> Usable(8, 15, Rates3429()[i])
  {
    hide Word, Pow;
    Twos();
    SmallEighths();
    LargeEighths();
    Word12Of15(); Word4Of15(); Word6Of15();
    var t := Rates3429();
    assert Usable(8, 15, t[12]); assert Usable(8, 15, t[13]); assert Usable(8, 15, t[14]);
  }

  lemma Fits3429_15()
    ensures forall i :: 15 <= i < 18 ==> Usable(8, 15, Rates3429()[i])
  {
    hide Word, Pow;
    Twos();
    SmallEighths();
    LargeEighths();
    Word13Of15(); Word15Of15(); Word7Of15();
    var t := Rates3429();
    assert Usable(8, 15, t[15]); assert Usable(8, 15, t[16]); assert Usable(8, 15, t[17]);
  }

  lemma Fits3429_18()
    ensures forall i :: 18 <= i < 21 ==> Usable(8, 15, Rates3429()[i])
  {
    hide Word, Pow;
    Twos();
    SmallEighths();
    LargeEighths();
    Word9Of15(); Word1Of15(); Word3Of15();
    var t := Rates3429();
    assert Usable(8, 15, t[18]); assert Usable(8, 15, t[19]); assert Usable(8, 15, t[20]);
  }

  lemma Fits3429_21()
    ensures forall i :: 21 <= i < 24 ==> Usable(8, 15, Rates3429()[i])
  {
    hide Word, Pow;
    Twos();
    SmallEighths();
    LargeEighths();
    Word10Of15(); Word12Of15(); Word4Of15();
    var t := Rates3429();
    assert Usable(8, 15, t[21]); assert Usable(8, 15, t[22]); assert Usable(8, 15, t[23]);
  }

  lemma Fits3429_24()
    ensures forall i :: 24 <= i < 26 ==> Usable(8, 15, Rates3429()[i])
  {
    hide Word, Pow;
    Twos();
    SmallEighths();
    LargeEighths();
    Word6Of15(); Word13Of15();
    var t := Rates3429();
    assert Usable(8, 15, t[24]); assert Usable(8, 15, t[25]);
  }

  /** Tables 8 and 10, by symbol rate. */
  function Rates(sr: nat): (t: seq<Row>)
    requires sr < RATES
  {
    match sr
    case 0 => Rates2400() case 1 => Rates2743() case 2 => Rates2800()
    case 3 => Rates3000() case 4 => Rates3200() case _ => Rates3429()
  }

  lemma RowFits(sr: nat, i: nat)
    requires sr < RATES && i < |Rates(sr)|
    ensures Usable(Framing(sr).0, Framing(sr).1, Rates(sr)[i])
  {
    hide Usable;
    match sr {
      case 0 => Fits2400_0(); Fits2400_3(); Fits2400_6(); Fits2400_9(); Fits2400_12(); Fits2400_15();
      case 1 => Fits2743_0(); Fits2743_3(); Fits2743_6(); Fits2743_9(); Fits2743_12(); Fits2743_15(); Fits2743_18();
      case 2 => Fits2800_0(); Fits2800_3(); Fits2800_6(); Fits2800_9(); Fits2800_12(); Fits2800_15(); Fits2800_18();
      case 3 => Fits3000_0(); Fits3000_3(); Fits3000_6(); Fits3000_9(); Fits3000_12(); Fits3000_15(); Fits3000_18(); Fits3000_21();
      case 4 => Fits3200_0(); Fits3200_3(); Fits3200_6(); Fits3200_9(); Fits3200_12(); Fits3200_15(); Fits3200_18(); Fits3200_21();
      case _ => Fits3429_0(); Fits3429_3(); Fits3429_6(); Fits3429_9(); Fits3429_12(); Fits3429_15(); Fits3429_18(); Fits3429_21(); Fits3429_24();
    }
  }

  /** Every operating point, with minimum and with expanded shaping, has frames that can be
      laid out. */
  lemma EveryRateGivesMode(sr: nat, i: nat, expanded: bool)
    requires sr < RATES && i < |Rates(sr)|
    ensures ModeOk(ModeOf(Framing(sr).1, Rates(sr)[i], expanded))
  {
    hide Rates, Usable, ModeOk, ModeOf;
    RowFits(sr, i);
    RowGivesMode(Framing(sr).0, Framing(sr).1, Rates(sr)[i], expanded);
  }

  // ---------------------------------------------------------------- which frames are high

  /** A mode's mapping frames, however many data frames along, follow the counter. */
  ghost predicate Follows(md: Mode, r: nat)
    requires md.p >= 1
  {
    forall f: nat :: FrameIsHigh(md, f) == IsHigh(md.p, r, f)
  }

  lemma {:induction false} HighModP(p: nat, r: nat, f: nat)
    requires 1 <= p && r <= p
    ensures IsHigh(p, r, f) == IsHigh(p, r, f % p)
    decreases f
  {
    hide IsHigh;
    if f >= p {
      Periodic(p, r, f - p);
      HighModP(p, r, f - p);
      assert (f - p) % p == f % p by {
        assert f == f / p * p + f % p;
        DivModUnique(f / p - 1, p, f % p);
      }
    }
  }

  /** High frames left over in a data frame of a row. */
  function HighCount(j: nat, p: nat, row: Row): int {
    BitsOf(j, row.rate) - (row.b - 1) * p
  }

  lemma RowFollows(j: nat, p: nat, row: Row, expanded: bool)
    requires (j == 7 || j == 8) && p >= 1 && Usable(j, p, row)
    ensures var r := HighCount(j, p, row); 1 <= r <= p && Follows(ModeOf(p, row, expanded), r)
  {
    hide IsHigh, Word, Bit, GoodRings, ShellOf;
    var r := HighCount(j, p, row);
    var md := ModeOf(p, row, expanded);
    forall f: nat ensures FrameIsHigh(md, f) == IsHigh(p, r, f) {
      HighModP(p, r, f);
      WordBits(p, r, p, f % p);
    }
  }

  /** The bits of mapping frames in a row are those the counter gives them. */
  lemma {:induction false} StreamBits(md: Mode, r: nat, f: nat, n: nat)
    requires ModeOk(md) && md.p >= 1 && Follows(md, r)
    ensures StreamLen(md, f, n) == BitsIn(md.p, r, md.b, f + n) - BitsIn(md.p, r, md.b, f)
    decreases n
  {
    hide FrameIsHigh, IsHigh, ModeOk;
    if n > 0 {
      StreamBits(md, r, f + 1, n - 1);
      assert FrameIsHigh(md, f) == IsHigh(md.p, r, f);
    }
  }

  lemma {:induction false} HighsPeriod(p: nat, r: nat, f: nat)
    requires 1 <= p && r <= p
    ensures Highs(p, r, f + p) == Highs(p, r, f) + r
  {
    hide IsHigh;
    if f == 0 {
      FrameIsWhole(p, r);
    } else {
      HighsPeriod(p, r, f - 1);
      Periodic(p, r, f - 1);
      assert p + (f - 1) == f + p - 1;
    }
  }

  /** From any mapping frame on, P of them carry the N bits of a data frame, with either
      shaping, and the high ones among them are those the counter marks. */
  lemma EveryRateKeepsItsBits(sr: nat, i: nat, expanded: bool, f: nat)
    requires sr < RATES && i < |Rates(sr)|
    ensures var p := Framing(sr).1; var row := Rates(sr)[i]; var md := ModeOf(p, row, expanded);
            && ModeOk(md) && HighCount(Framing(sr).0, p, row) >= 1 && Follows(md, HighCount(Framing(sr).0, p, row))
            && StreamLen(md, f, p) == BitsOf(Framing(sr).0, row.rate)
  {
    hide Rates, Usable, ModeOk, StreamLen, Follows, BitsIn, Highs;
    var j, p, row := Framing(sr).0, Framing(sr).1, Rates(sr)[i];
    var md := ModeOf(p, row, expanded);
    RowFits(sr, i);
    EveryRateGivesMode(sr, i, expanded);
    RowFollows(j, p, row, expanded);
    var r := HighCount(j, p, row);
    StreamBits(md, r, f, p);
    BitsAndHighs(p, r, row.b, f + p);
    BitsAndHighs(p, r, row.b, f);
    HighsPeriod(p, r, f);
    assert (f + p) * (row.b - 1) == f * (row.b - 1) + (row.b - 1) * p;
  }

  // ---------------------------------------------------------------- the engine's own check

  /** The least M with M^8 >= 2^K: 2^(K/8) rounded up. */
  method RoundUp(k: nat) returns (m: nat)
    ensures m >= 1 && LeastRings(k, m)
  {
    hide Pow;
    m := 1;
    SmallRings();
    PowPositive(k);
    while Pow(m, 8) < Pow(2, k)
      invariant m >= 1 && Pow(m - 1, 8) < Pow(2, k)
      decreases Pow(2, k) - m
    {
      PowAbove(m, 8);
      m := m + 1;
    }
  }

  lemma SmallRings()
    ensures Pow(0, 8) == 0 && Pow(1, 8) == 1
  {
  }

  /** 1.25 * 2^(K/8) rounded to the nearest, from the minimum on. */
  method RoundExpanded(k: nat, least: nat) returns (m: nat)
    requires least >= 1
    ensures ExpandedRings(k, least, m)
  {
    hide Pow;
    m := least;
    while Pow(4 * m + 2, 8) <= FIVE8 * Pow(2, k)
      invariant m >= least && (m > least ==> Pow(4 * m - 2, 8) <= FIVE8 * Pow(2, k))
      decreases FIVE8 * Pow(2, k) - m
    {
      PowAbove(4 * m + 2, 8);
      m := m + 1;
    }
  }

  /** Only one M is 2^(K/8) rounded up. */
  lemma OneLeast(k: nat, a: nat, b: nat)
    requires LeastRings(k, a) && LeastRings(k, b)
    ensures a == b
  {
    hide Pow;
    if a < b { PowMonotone(a, b - 1, 8); }
    if b < a { PowMonotone(b, a - 1, 8); }
  }

  lemma OneExpanded(k: nat, least: nat, a: nat, b: nat)
    requires least >= 1 && ExpandedRings(k, least, a) && ExpandedRings(k, least, b)
    ensures a == b
  {
    hide Pow;
    if a < b { PowMonotone(4 * a + 2, 4 * b - 2, 8); }
    if b < a { PowMonotone(4 * b + 2, 4 * a - 2, 8); }
  }

  /** The word the counter makes is the evenly spread one. */
  lemma CounterWord(p: nat, r: nat, swp: nat)
    requires 1 <= p && r <= p && swp < Pow(2, p) && forall f :: 0 <= f < p ==> Bit(swp, p - 1 - f) == IsHigh(p, r, f)
    ensures swp == Word(p, r, p)
  {
    hide Bit, IsHigh, Word, Pow;
    WordBound(p, r, p);
    forall i | 0 <= i < p ensures Bit(swp, i) == Bit(Word(p, r, p), i) {
      WordBits(p, r, p, p - 1 - i);
      assert Bit(swp, p - 1 - (p - 1 - i)) == IsHigh(p, r, p - 1 - i);
    }
    SameBits(swp, Word(p, r, p), p);
  }

  /** Ring numbers that differ from those of K shell bits, or too large an alphabet. */
  method CheckRings(k: nat, q: nat, row: Row) returns (bad: nat)
    ensures bad == 0 <==> GoodRings(k, q, row.mMin, row.mExp)
  {
    hide Pow, LeastRings, ExpandedRings;
    var mMin := RoundUp(k);
    var mExp := RoundExpanded(k, mMin);
    var points := Pow(2, q) * (4 * row.mExp);
    bad := if mMin != row.mMin || mExp != row.mExp || points > 1664 then 1 else 0;
    if LeastRings(k, row.mMin) {
      OneLeast(k, mMin, row.mMin);
      if ExpandedRings(k, mMin, row.mExp) { OneExpanded(k, mMin, mExp, row.mExp); }
    }
  }

  /** b and the pattern word against the rate's N. */
  method CheckBits(n: nat, p: nat, row: Row) returns (bad: nat, b: nat)
    requires 1 <= p <= 16
    ensures b == (n + p - 1) / p
    ensures bad == 0 <==> row.b == b && (var r := n - (row.b - 1) * p; 1 <= r <= p && row.swp == Word(p, r, p))
  {
    hide Bit, IsHigh, Word, Pow;
    b := (n + p - 1) / p;
    DivBounds(n + p - 1, p);
    var prior: int := b - 1;
    assert prior * p == b * p - p;
    var r := n - prior * p;
    bad := if b != row.b then 1 else 0;
    var swp := Pattern(p, r);
    CounterWord(p, r, swp);
    if swp != row.swp { bad := bad + 1; }
  }

  lemma Whole(j: nat, rate: nat)
    requires j == 7 || j == 8
    ensures rate * 28 % (100 * j) == 0 <==> rate * 28 == 100 * j * BitsOf(j, rate)
    ensures rate * 28 / (100 * j) == BitsOf(j, rate)
  {
  }

  /** K and q are determined by b. */
  lemma OneShell(b: nat, k: nat, q: nat, k': nat, q': nat)
    requires ShellOf(b, k, q)
    ensures ShellOf(b, k', q') <==> k == k' && q == q'
  {
  }

  /** One row: how many of its entries differ from what the rate gives. */
  method CheckRow(j: nat, p: nat, row: Row) returns (bad: nat)
    requires (j == 7 || j == 8) && 1 <= p <= 16
    ensures bad == 0 <==> Consistent(j, p, row)
  {
    hide Word, GoodRings, ShellOf, BitsOf;
    Whole(j, row.rate);
    var n28 := row.rate * 28;
    if n28 % (100 * j) != 0 {
      return 1;
    }
    var b;
    bad, b := CheckBits(n28 / (100 * j), p, row);
    var k, q := ShellSplit(b);
    SplitIsShell(b, k, q);
    OneShell(b, k, q, row.k, row.q);
    if k != row.k || q != row.q { bad := bad + 1; }
    var rings := CheckRings(k, q, row);
    bad := bad + rings;
  }

  lemma SplitIsShell(b: nat, k: nat, q: nat)
    requires b <= 12 ==> k == 0 && q == 0
    requires b > 12 ==> b == 12 + 8 * q + k && 1 <= k <= 31 && (q > 0 ==> k >= 24)
    ensures ShellOf(b, k, q)
  {
  }

  /** nf_v34_modeparams_check on the rate rows: nothing is found. */
  method CheckAll() returns (result: int)
    ensures result == 0
  {
    hide Consistent, Rates;
    var bad := 0;
    for sr := 0 to RATES
      invariant bad == 0
    {
      for i := 0 to |Rates(sr)|
        invariant bad == 0
      {
        RowFits(sr, i);
        var found := CheckRow(Framing(sr).0, Framing(sr).1, Rates(sr)[i]);
        bad := bad + found;
      }
    }
    result := if bad > 0 then -1 else 0;
  }
}
