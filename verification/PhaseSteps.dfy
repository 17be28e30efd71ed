/** What the V.27ter and V.29 modems share (nf_v27.c, nf_v29.c): differential phase tables of
    sender and receiver, and the quadrant decision. */
module PhaseSteps {
  import opened BitIo
  import opened Plane

  /** Three line bits to a step in eighths of a turn, the first bit highest. */
  function Step8(b0: bool, b1: bool, b2: bool): (s: nat)
    ensures s < 8
  {
    [1, 0, 2, 3, 6, 7, 5, 4][4 * Num(b0) + 2 * Num(b1) + Num(b2)]
  }

  /** Two line bits to a step in eighths, always even. */
  function Step4(b0: bool, b1: bool): (s: nat)
    ensures s < 8 && s % 2 == 0
  {
    [0, 2, 6, 4][2 * Num(b0) + Num(b1)]
  }

  /** The receiver's tables: the first bit lowest. */
  function Raw8(delta: nat): (r: nat)
    requires delta < 8
    ensures r < 8
  {
    [4, 0, 2, 6, 7, 3, 1, 5][delta]
  }

  function Raw4(delta: nat): (r: nat)
    requires delta < 4
    ensures r < 4
  {
    [0, 2, 3, 1][delta]
  }

  function Bit(r: nat, k: nat): bool
    requires k < 3
  {
    (match k case 0 => r % 2 case 1 => r / 2 % 2 case _ => r / 4 % 2) == 1
  }

  /** Whatever the phase before, the difference gives the three bits back. */
  lemma Undone8(state: nat, b0: bool, b1: bool, b2: bool)
    requires state < 8
    ensures var raw := Raw8(((state + Step8(b0, b1, b2)) % 8 - state) % 8); Bit(raw, 0) == b0 && Bit(raw, 1) == b1 && Bit(raw, 2) == b2
  {
    var s := Step8(b0, b1, b2);
    assert ((state + s) % 8 - state) % 8 == s;
  }

  /** The same in quarters, from an even phase. */
  lemma Undone4(quarter: nat, b0: bool, b1: bool)
    requires quarter < 4
    ensures var next := (2 * quarter + Step4(b0, b1)) % 8;
            var raw := Raw4((next / 2 - quarter) % 4); next % 2 == 0 && Bit(raw, 0) == b0 && Bit(raw, 1) == b1
  {
  }

  /** In how many of its three bits two table entries differ. */
  function Differing(r: nat, t: nat): nat {
    Num(Bit(r, 0) != Bit(t, 0)) + Num(Bit(r, 1) != Bit(t, 1)) + Num(Bit(r, 2) != Bit(t, 2))
  }

  lemma BitsOf(b0: bool, b1: bool, b2: bool) returns (r: nat)
    ensures r == Num(b0) + 2 * Num(b1) + 4 * Num(b2) && Bit(r, 0) == b0 && Bit(r, 1) == b1 && Bit(r, 2) == b2
  {
    r := Num(b0) + 2 * Num(b1) + 4 * Num(b2);
  }

  lemma DifferingIs(a0: bool, a1: bool, a2: bool, b0: bool, b1: bool, b2: bool)
    ensures Differing(Num(a0) + 2 * Num(a1) + 4 * Num(a2), Num(b0) + 2 * Num(b1) + 4 * Num(b2))
         == Num(a0 != b0) + Num(a1 != b1) + Num(a2 != b2)
  {
    hide Bit;
    var r := BitsOf(a0, a1, a2);
    var t := BitsOf(b0, b1, b2);
  }

  /** Neighbouring phase steps carry bits that differ in one place: taking the next phase for
      the right one costs a single wrong bit. */
  lemma NextStepOneBit(delta: nat)
    requires delta < 8
    ensures Differing(Raw8(delta), Raw8(if delta == 7 then 0 else delta + 1)) == 1
    ensures delta < 4 ==> Differing(Raw4(delta), Raw4(if delta == 3 then 0 else delta + 1)) == 1
  {
    hide Differing;
    DifferingIs(false, false, true, false, false, false);
    DifferingIs(false, false, false, false, true, false);
    DifferingIs(false, true, false, false, true, true);
    DifferingIs(false, true, true, true, true, true);
    DifferingIs(true, true, true, true, true, false);
    DifferingIs(true, true, false, true, false, false);
    DifferingIs(true, false, false, true, false, true);
    DifferingIs(true, false, true, false, false, true);
    DifferingIs(false, true, false, true, true, false);
    DifferingIs(true, false, false, false, false, false);
  }

  /** find_quadrant: quarters between the diagonals. */
  function FindQuadrant(z: Point): (q: nat)
    ensures q < 4
  {
    var b1, b2 := z.im > z.re, z.im < 0.0 - z.re;
    2 * Num(b2) + Num(b1 != b2)
  }

  /** The next `n` bits a sender takes: data from `pos`, then ones. */
  function Coming(data: Bits, pos: nat, n: nat): (b: Bits)
    ensures |b| == n
  {
    seq(n, i requires 0 <= i < n => if pos + i < |data| then data[pos + i] else true)
  }

  lemma ComingAppend(data: Bits, pos: nat, n: nat, m: nat)
    ensures Coming(data, pos, n + m) == Coming(data, pos, n) + Coming(data, pos + n, m)
  {
  }

  /** Once past the end it does not matter how far. */
  lemma ComingEnded(data: Bits, p: nat, q: nat, n: nat)
    requires p == q || (p >= |data| && q >= |data|)
    ensures Coming(data, p, n) == Coming(data, q, n)
  {
  }
}
