/** CRC-16/X.25 of the HDLC frames (nf_hdlc.c: crc_init, nf_crc16): the table form, its
    meaning as a bitwise division, the residue of a good frame and burst detection.  A 16-bit
    word is its bits, the lowest first. */
module HdlcCrc {
  import opened BitIo

  type Word = w: Bits | |w| == 16 witness seq(16, _ => false)

  /** The taps of 0x8408. */
  predicate Tap(i: nat) {
    i == 3 || i == 10 || i == 15
  }

  /** 0xFFFF: the preset, and the complement added to the transmitted sum. */
  function Ones(): Word {
    seq(16, _ => true)
  }

  /** 0xF0B8: the residue of a good frame. */
  function Good(): Word {
    [false, false, false, true, true, true, false, true, false, false, false, false, true, true, true, true]
  }

  function Xor(a: Word, b: Word): Word {
    seq(16, i requires 0 <= i < 16 => a[i] != b[i])
  }

  /** c >> n. */
  function ShiftRight(c: Word, n: nat): Word
    requires n <= 16
  {
    c[n..] + seq(n, _ => false)
  }

  /** Up to sixteen bits as a word. */
  function Extend(b: Bits): Word
    requires |b| <= 16
  {
    b + seq(16 - |b|, _ => false)
  }

  // ---------------------------------------------------------------- bitwise division

  /** A zero shifted through the divider. */
  function Zero(c: Word): (r: Word) {
    seq(16, i requires 0 <= i < 16 => (i < 15 && c[i + 1]) != (c[0] && Tap(i)))
  }

  /** One bit shifted through the divider. */
  function Step(c: Word, b: bool): Word {
    Zero(c[0 := c[0] != b])
  }

  /** The division's state after some bits. */
  function Divide(c: Word, bits: Bits): Word
    decreases |bits|
  {
    if bits == [] then c else Divide(Step(c, bits[0]), bits[1..])
  }

  function Zeros(c: Word, n: nat): Word
    decreases n
  {
    if n == 0 then c else Zeros(Zero(c), n - 1)
  }

  lemma {:induction false} DivideAppend(c: Word, a: Bits, b: Bits)
    ensures Divide(c, a + b) == Divide(Divide(c, a), b)
    decreases |a|
  {
    hide Step;
    if a == [] {
      assert a + b == b;
    } else {
      assert (a + b)[0] == a[0] && (a + b)[1..] == a[1..] + b;
      DivideAppend(Step(c, a[0]), a[1..], b);
    }
  }

  /** Bits added after a shift could have been added one place higher before it. */
  lemma AddedBefore(x: Word, y: Word, z: Word)
    requires !y[15] && z == Xor(x, [false] + y[..15])
    ensures Xor(Zero(x), y) == Zero(z)
  {
    forall i | 0 <= i < 16
      ensures Xor(Zero(x), y)[i] == Zero(z)[i]
    {
      assert i < 15 ==> z[i + 1] == (x[i + 1] != ([false] + y[..15])[i + 1]);
    }
  }

  /** Up to sixteen bits may be added at once and zeros shifted through. */
  lemma {:induction false} DivideAtOnce(c: Word, b: Bits)
    requires |b| <= 16
    ensures Divide(c, b) == Zeros(Xor(c, Extend(b)), |b|)
    decreases |b|
  {
    hide Zero;
    if b == [] {
      assert Xor(c, Extend(b)) == c;
    } else {
      var u := c[0 := c[0] != b[0]];
      var rest := Extend(b[1..]);
      DivideAtOnce(Step(c, b[0]), b[1..]);
      assert Xor(u, [false] + rest[..15]) == Xor(c, Extend(b));
      AddedBefore(u, rest, Xor(c, Extend(b)));
    }
  }

  lemma ZeroInjective(a: Word, b: Word)
    requires Zero(a) == Zero(b)
    ensures a == b
  {
    assert Zero(a)[15] == a[0] && Zero(b)[15] == b[0];
    forall i | 0 <= i < 16
      ensures a[i] == b[i]
    {
      if i > 0 { assert Zero(a)[i - 1] == (a[i] != (a[0] && Tap(i - 1))) && Zero(b)[i - 1] == (b[i] != (b[0] && Tap(i - 1))); }
    }
  }

  lemma {:induction false} ZerosInjective(a: Word, b: Word, n: nat)
    requires Zeros(a, n) == Zeros(b, n)
    ensures a == b
    decreases n
  {
    hide Zero;
    if n > 0 {
      ZerosInjective(Zero(a), Zero(b), n - 1);
      ZeroInjective(a, b);
    }
  }

  lemma XorInjective(c: Word, a: Word, b: Word)
    requires Xor(c, a) == Xor(c, b)
    ensures a == b
  {
    forall i | 0 <= i < 16 ensures a[i] == b[i] { assert Xor(c, a)[i] == (c[i] != a[i]) && Xor(c, b)[i] == (c[i] != b[i]); }
  }

  // ---------------------------------------------------------------- error detection

  /** From one state, different bits of equal length, at most sixteen, leave different states. */
  lemma ShortBurst(c: Word, x: Bits, y: Bits)
    requires |x| == |y| <= 16 && x != y
    ensures Divide(c, x) != Divide(c, y)
  {
    hide Zeros, Xor, Extend, Divide;
    DivideAtOnce(c, x);
    DivideAtOnce(c, y);
    if Divide(c, x) == Divide(c, y) {
      ZerosInjective(Xor(c, Extend(x)), Xor(c, Extend(y)), |x|);
      XorInjective(c, Extend(x), Extend(y));
      ExtendInjective(x, y);
    }
  }

  lemma ExtendInjective(x: Bits, y: Bits)
    requires |x| == |y| <= 16 && Extend(x) == Extend(y)
    ensures x == y
  {
    assert x == Extend(x)[..|x|] && y == Extend(y)[..|x|];
  }

  lemma {:induction false} DivideInjective(a: Word, b: Word, bits: Bits)
    requires Divide(a, bits) == Divide(b, bits)
    ensures a == b
    decreases |bits|
  {
    hide Zero;
    if bits != [] {
      DivideInjective(Step(a, bits[0]), Step(b, bits[0]), bits[1..]);
      ZeroInjective(a[0 := a[0] != bits[0]], b[0 := b[0] != bits[0]]);
      var u, v := a[0 := a[0] != bits[0]], b[0 := b[0] != bits[0]];
      forall i | 0 <= i < 16 ensures a[i] == b[i] { assert u[i] == v[i]; }
    }
  }

  /** Any error confined to sixteen consecutive bits changes the residue. */
  lemma BurstDetected(c: Word, before: Bits, x: Bits, y: Bits, after: Bits)
    requires |x| == |y| <= 16 && x != y
    ensures Divide(c, before + x + after) != Divide(c, before + y + after)
  {
    hide Divide;
    DivideAppend(c, before + x, after);
    DivideAppend(c, before + y, after);
    DivideAppend(c, before, x);
    DivideAppend(c, before, y);
    ShortBurst(Divide(c, before), x, y);
    if Divide(c, before + x + after) == Divide(c, before + y + after) {
      DivideInjective(Divide(c, before + x), Divide(c, before + y), after);
    }
  }

  /** Sixteen bits after any state leave the good residue exactly if they are its complement. */
  lemma GoodResidue(c: Word, f: Bits)
    requires |f| == 16
    ensures Divide(c, f) == Good() <==> f == Xor(c, Ones())
  {
    hide Divide, Zeros;
    DivideAtOnce(c, f);
    AllOnesDivided();
    assert Extend(f) == f;
    if f == Xor(c, Ones()) {
      assert Xor(c, f) == Ones();
    }
    if Divide(c, f) == Good() {
      ZerosInjective(Xor(c, f), Ones(), 16);
      assert Xor(c, Xor(c, Ones())) == Ones();
      XorInjective(c, f, Xor(c, Ones()));
    }
  }

  lemma ShiftsTo(a: Word, b: Word, n: nat)
    requires n > 0 && forall i :: 0 <= i < 16 ==> b[i] == ((i < 15 && a[i + 1]) != (a[0] && Tap(i)))
    ensures Zeros(a, n) == Zeros(b, n - 1)
  {
    assert Zero(a) == b;
  }

  // The division of all ones: the state after every second step.

  /** 0xF9F3. */
  function W2(): Word {
    [true, true, false, false, true, true, true, true, true, false, false, true, true, true, true, true]
  }

  /** 0xF870. */
  function W4(): Word {
    [false, false, false, false, true, true, true, false, false, false, false, true, true, true, true, true]
  }

  /** 0x3E1C. */
  function W6(): Word {
    [false, false, true, true, true, false, false, false, false, true, true, true, true, true, false, false]
  }

  /** 0x0F87. */
  function W8(): Word {
    [true, true, true, false, false, false, false, true, true, true, true, true, false, false, false, false]
  }

  /** 0xC5ED. */
  function W10(): Word {
    [true, false, true, true, false, true, true, true, true, false, true, false, false, false, true, true]
  }

  /** 0x737F. */
  function W12(): Word {
    [true, true, true, true, true, true, true, false, true, true, false, false, true, true, true, false]
  }

  /** 0xDAD3. */
  function W14(): Word {
    [true, true, false, false, true, false, true, true, false, true, false, true, true, false, true, true]
  }

  lemma TwoSteps0()
    ensures Zeros(Ones(), 16) == Zeros(W2(), 14)
  {
    hide Zeros;
    var a: Word := [true, true, true, false, true, true, true, true, true, true, false, true, true, true, true, true];
    ShiftsTo(Ones(), a, 16);
    ShiftsTo(a, W2(), 15);
  }

  lemma TwoSteps2()
    ensures Zeros(W2(), 14) == Zeros(W4(), 12)
  {
    hide Zeros;
    var a: Word := [true, false, false, false, true, true, true, true, false, false, false, true, true, true, true, true];
    ShiftsTo(W2(), a, 14);
    ShiftsTo(a, W4(), 13);
  }

  lemma TwoSteps4()
    ensures Zeros(W4(), 12) == Zeros(W6(), 10)
  {
    hide Zeros;
    var a: Word := [false, false, false, true, true, true, false, false, false, false, true, true, true, true, true, false];
    ShiftsTo(W4(), a, 12);
    ShiftsTo(a, W6(), 11);
  }

  lemma TwoSteps6()
    ensures Zeros(W6(), 10) == Zeros(W8(), 8)
  {
    hide Zeros;
    var a: Word := [false, true, true, true, false, false, false, false, true, true, true, true, true, false, false, false];
    ShiftsTo(W6(), a, 10);
    ShiftsTo(a, W8(), 9);
  }

  lemma TwoSteps8()
    ensures Zeros(W8(), 8) == Zeros(W10(), 6)
  {
    hide Zeros;
    var a: Word := [true, true, false, true, false, false, true, true, true, true, false, false, false, false, false, true];
    ShiftsTo(W8(), a, 8);
    ShiftsTo(a, W10(), 7);
  }

  lemma TwoSteps10()
    ensures Zeros(W10(), 6) == Zeros(W12(), 4)
  {
    hide Zeros;
    var a: Word := [false, true, true, true, true, true, true, true, false, true, true, false, false, true, true, true];
    ShiftsTo(W10(), a, 6);
    ShiftsTo(a, W12(), 5);
  }

  lemma TwoSteps12()
    ensures Zeros(W12(), 4) == Zeros(W14(), 2)
  {
    hide Zeros;
    var a: Word := [true, true, true, false, true, true, false, true, true, false, true, true, true, true, false, true];
    ShiftsTo(W12(), a, 4);
    ShiftsTo(a, W14(), 3);
  }

  lemma TwoSteps14()
    ensures Zeros(W14(), 2) == Zeros(Good(), 0)
  {
    hide Zeros;
    var a: Word := [true, false, false, false, false, true, true, false, true, false, false, true, false, true, true, true];
    ShiftsTo(W14(), a, 2);
    ShiftsTo(a, Good(), 1);
  }

  lemma AllOnesDivided()
    ensures Zeros(Ones(), 16) == Good()
  {
    hide *;
    TwoSteps0();
    TwoSteps2();
    TwoSteps4();
    TwoSteps6();
    TwoSteps8();
    TwoSteps10();
    TwoSteps12();
    TwoSteps14();
    NoZeros(Good());
  }

  lemma NoZeros(a: Word)
    ensures Zeros(a, 0) == a
  {
  }

  // ---------------------------------------------------------------- the table form

  lemma ZeroIsLinear(a: Word, b: Word)
    ensures Zero(Xor(a, b)) == Xor(Zero(a), Zero(b))
  {
  }

  lemma {:induction false} ZerosIsLinear(a: Word, b: Word, n: nat)
    ensures Zeros(Xor(a, b), n) == Xor(Zeros(a, n), Zeros(b, n))
    decreases n
  {
    hide Zero, Xor;
    if n > 0 {
      ZeroIsLinear(a, b);
      ZerosIsLinear(Zero(a), Zero(b), n - 1);
    }
  }

  /** Bits that never reach the low end are only shifted. */
  lemma {:induction false} HighBitsShift(c: Word, n: nat)
    requires n <= 16 && forall i :: 0 <= i < n ==> !c[i]
    ensures Zeros(c, n) == ShiftRight(c, n)
    decreases n
  {
    if n > 0 {
      var d := Zero(c);
      assert forall i :: 0 <= i < 15 ==> d[i] == c[i + 1];
      HighBitsShift(d, n - 1);
      assert d == ShiftRight(c, 1);
    }
  }

  /** Eight bits at once: the low octet selects what the high octet is added to. */
  lemma TableStep(c: Word, b: Byte)
    ensures var x := Xor(c, Extend(ByteBits(b)));
            Divide(c, ByteBits(b)) == Xor(ShiftRight(c, 8), Zeros(Extend(x[..8]), 8))
  {
    hide Zeros, Divide, ByteBits;
    var x := Xor(c, Extend(ByteBits(b)));
    var low, high := Extend(x[..8]), seq(8, _ => false) + x[8..];
    DivideAtOnce(c, ByteBits(b));
    assert Xor(high, low) == x;
    ZerosIsLinear(high, low, 8);
    HighBitsShift(high, 8);
    assert ShiftRight(high, 8) == ShiftRight(c, 8);
  }

  /** The look-up table, filled before its first use. */
  class CrcTable {
    const table: array<Word>
    var ready: bool

    ghost predicate Valid()
      reads this, table
    {
      table.Length == 256 && (ready ==> forall i :: 0 <= i < 256 ==> table[i] == Zeros(Extend(LsbBits(i, 8)), 8))
    }

    constructor ()
      ensures Valid() && fresh(table)
    {
      table := new Word[256](_ => seq(16, _ => false));
      ready := false;
    }

    /** crc_init: entry i is i with eight zeros shifted through. */
    method Fill()
      requires Valid()
      modifies this`ready, table
      ensures Valid() && ready
    {
      hide LsbBits, Zeros;
      for i := 0 to 256
        invariant forall j :: 0 <= j < i ==> table[j] == Zeros(Extend(LsbBits(j, 8)), 8)
      {
        table[i] := Entry(i);
      }
      ready := true;
    }

    /** One entry: eight conditional subtractions of the polynomial. */
    method Entry(i: nat) returns (c: Word)
      ensures c == Zeros(Extend(LsbBits(i, 8)), 8)
    {
      hide LsbBits, Zeros;
      c := Extend(LsbBits(i, 8));
      for b := 0 to 8
        invariant Zeros(c, 8 - b) == Zeros(Extend(LsbBits(i, 8)), 8)
      {
        ZerosStep(c, 8 - b);
        c := Zero(c);
      }
      NoZeros(c);
    }

    /** nf_crc16: one table look-up per octet computes the bitwise division. */
    method Crc16(buf: seq<Byte>, start: Word) returns (crc: Word)
      requires Valid()
      modifies this`ready, table
      ensures Valid() && crc == Divide(start, BytesBits(buf))
    {
      hide LsbBits, Zeros, Zero, BytesBits, ByteBits, Divide, Value;
      if !ready { Fill(); }
      crc := start;
      Undivided(start);
      assert buf[..0] == [];
      for i := 0 to |buf|
        invariant Valid() && ready && crc == Divide(start, BytesBits(buf[..i]))
      {
        var x := Xor(crc, Extend(ByteBits(buf[i])));
        var index := Value(x[..8]);
        ValueBound(x[..8]);
        SmallPowers();
        BitsOfValue(x[..8]);
        TableStep(crc, buf[i]);
        BytesBitsSnoc(buf[..i], buf[i]);
        assert buf[..i + 1] == buf[..i] + [buf[i]];
        DivideAppend(start, BytesBits(buf[..i]), ByteBits(buf[i]));
        crc := Xor(ShiftRight(crc, 8), table[index]);
      }
      assert buf[..|buf|] == buf;
    }
  }

  lemma ZerosStep(c: Word, n: nat)
    requires n > 0
    ensures Zeros(c, n) == Zeros(Zero(c), n - 1)
  {
  }

  lemma Undivided(c: Word)
    ensures Divide(c, BytesBits([])) == c
  {
  }

  // ---------------------------------------------------------------- the frame check sequence

  /** The two octets appended to a payload: the complement, low octet first. */
  function Fcs(payload: seq<Byte>): (f: seq<Byte>)
    ensures |f| == 2
  {
    var c := Xor(Divide(Ones(), BytesBits(payload)), Ones());
    [OctetOf(c[..8]), OctetOf(c[8..])]
  }

  lemma FcsBits(payload: seq<Byte>)
    ensures BytesBits(Fcs(payload)) == Xor(Divide(Ones(), BytesBits(payload)), Ones())
  {
    hide ByteBits, Divide, OctetOf;
    var c := Xor(Divide(Ones(), BytesBits(payload)), Ones());
    OctetBack(c[..8]);
    OctetBack(c[8..]);
    var f := Fcs(payload);
    BytesBitsNil();
    BytesBitsSnoc([], f[0]);
    BytesBitsSnoc([f[0]], f[1]);
    hide BytesBits;
    assert [] + [f[0]] == [f[0]] && [f[0]] + [f[1]] == f;
    assert [] + ByteBits(f[0]) == ByteBits(f[0]);
    assert c == c[..8] + c[8..];
  }

  predicate Residue(m: seq<Byte>) {
    Divide(Ones(), BytesBits(m)) == Good()
  }

  /** A payload followed by two octets has the good residue exactly if they are its FCS. */
  lemma ResidueIsFcs(payload: seq<Byte>, f: seq<Byte>)
    requires |f| == 2
    ensures Residue(payload + f) <==> f == Fcs(payload)
  {
    hide Divide, BytesBits, Good, Fcs;
    BytesBitsAppend(payload, f);
    DivideAppend(Ones(), BytesBits(payload), BytesBits(f));
    GoodResidue(Divide(Ones(), BytesBits(payload)), BytesBits(f));
    FcsBits(payload);
    if BytesBits(f) == BytesBits(Fcs(payload)) { BytesInjective(f, Fcs(payload)); }
  }

  lemma {:induction false} BytesInjective(a: seq<Byte>, b: seq<Byte>)
    requires |a| == |b| && BytesBits(a) == BytesBits(b)
    ensures a == b
  {
    hide ByteBits;
    if a != [] {
      var n := |a| - 1;
      var x, y := BytesBits(a), BytesBits(b);
      assert x[..8 * n] == BytesBits(a[..n]) && y[..8 * n] == BytesBits(b[..n]);
      assert x[8 * n..] == ByteBits(a[n]) && y[8 * n..] == ByteBits(b[n]);
      BytesInjective(a[..n], b[..n]);
      ByteInjective(a[n], b[n]);
      assert a == a[..n] + [a[n]] && b == b[..n] + [b[n]];
    }
  }
}
