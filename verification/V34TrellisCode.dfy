/** What the code of the 16-state search is (ITU-T V.34, clause 9.6.3; nf_v34.c: nf_v34_table13,
    nf_v34_trellis_step, nf_v34_viterbi_decode; nf_v34.h: nf_v34_subset_label): an equation on
    rotations that the points alone must obey, and what the search makes of streams that do. */
module V34TrellisCode {
  import opened BitIo
  import opened V34Viterbi

  // ---------------------------------------------------------------- labels and Table 13

  /** Bit `k` of a number in two's complement. */
  function TwosBit(v: int, k: nat): bool
    requires k < 3
  {
    (match k case 0 => v % 2 case 1 => v / 2 % 2 case _ => v / 4 % 2) == 1
  }

  /** nf_v34_subset_label. */
  function SubsetLabel(re: int, im: int): (s: nat)
    ensures s < 8
  {
    var x := Exor(TwosBit(re, 1), TwosBit(im, 1));
    4 * Num(Exor(Exor(TwosBit(re, 2), TwosBit(im, 2)), x)) + 2 * Num(TwosBit(re, 1)) + Num(x)
  }

  /** The four points made of a quarter-constellation point: turned clockwise `rot` times. */
  function Turned(re: int, im: int, rot: nat): (int, int)
    decreases rot
  {
    if rot == 0 then (re, im) else Turned(im, -re, rot - 1)
  }

  /** A quarter turn clockwise counts the label up within its half, for all points on the grid:
      the low label bits of an alphabet point are its rotation. */
  lemma LabelTurns(re: int, im: int, rot: nat)
    requires re % 4 == 1 && im % 4 == 1 && rot < 4
    ensures var z := Turned(re, im, rot); SubsetLabel(z.0, z.1) == SubsetLabel(re, im) + rot
    ensures SubsetLabel(re, im) % 4 == 0
  {
    GridBits(re, im, re / 4, im / 4);
    TurnedBy(re, im);
    var a, c := TwosBit(re, 2), TwosBit(im, 2);
    hide *;
    LabelIs(re, im, a, false, c, false);
    LabelIs(im, -re, c, false, !a, true);
    LabelIs(-re, -im, !a, true, !c, true);
    LabelIs(-im, re, !c, true, a, false);
    HalfKept(a, c);
    HalfAndRest(Num(Exor(Exor(a, c), Exor(false, false))));
  }

  lemma HalfAndRest(h: nat)
    ensures 4 * h % 4 == 0
  {
  }

  lemma GridBits(re: int, im: int, p: int, q: int)
    requires re == 4 * p + 1 && im == 4 * q + 1
    ensures !TwosBit(re, 1) && !TwosBit(im, 1) && TwosBit(-re, 1) && TwosBit(-im, 1)
    ensures TwosBit(-re, 2) == !TwosBit(re, 2) && TwosBit(-im, 2) == !TwosBit(im, 2)
  {
    BitsAt(re, p, 1);
    BitsAt(im, q, 1);
    BitsAt(-re, -p - 1, 3);
    BitsAt(-im, -q - 1, 3);
    hide TwosBit;
    OtherBit(p);
    OtherBit(q);
  }

  lemma LabelIs(re: int, im: int, a: bool, b: bool, c: bool, d: bool)
    requires TwosBit(re, 2) == a && TwosBit(re, 1) == b && TwosBit(im, 2) == c && TwosBit(im, 1) == d
    ensures SubsetLabel(re, im) == 4 * Num(Exor(Exor(a, c), Exor(b, d))) + 2 * Num(b) + Num(Exor(b, d))
  {
    hide TwosBit;
  }

  lemma HalfKept(a: bool, c: bool)
    ensures Exor(Exor(a, c), Exor(false, false)) == Exor(Exor(c, !a), Exor(false, true)) == Exor(Exor(!a, !c), Exor(true, true))
         == Exor(Exor(!c, a), Exor(true, false))
    ensures !Exor(false, false) && Exor(false, true) && !Exor(true, true) && Exor(true, false) && Num(false) == 0 && Num(true) == 1
  {
  }

  lemma BitsAt(v: int, p: int, r: nat)
    requires v == 4 * p + r && (r == 1 || r == 3)
    ensures TwosBit(v, 1) == (r == 3) && TwosBit(v, 2) == (p % 2 == 1)
  {
    assert v / 2 == 2 * p + r / 2;
  }

  lemma OtherBit(p: int)
    ensures (-p - 1) % 2 == 1 - p % 2
  {
  }

  lemma TurnedBy(re: int, im: int)
    ensures Turned(re, im, 0) == (re, im) && Turned(re, im, 1) == (im, -re)
    ensures Turned(re, im, 2) == (-re, -im) && Turned(re, im, 3) == (-im, re)
  {
    assert Turned(re, im, 1) == Turned(im, -re, 0);
    assert Turned(re, im, 2) == Turned(im, -re, 1) == Turned(-re, -im, 0);
    assert Turned(re, im, 3) == Turned(im, -re, 2) == Turned(-re, -im, 1) == Turned(-im, re, 0);
  }

  /** Table 13 in closed form: Y4 says whether the labels lie in different halves, Y3 Y2 is the
      first rotation, and Y1 is the upper bit of the rotation from the first to the second. */
  lemma Table13Law(s0: nat, s1: nat)
    requires s0 < 8 && s1 < 8
    ensures Table13(s0, s1) == (if s0 / 4 == s1 / 4 then 0 else 8) + 2 * (s0 % 4) + (s1 - s0) % 4 / 2
  {
    if s0 < 4 { UpperRows(s0, s1); } else { LowerRows(s0, s1); }
  }

  lemma UpperRows(s0: nat, s1: nat)
    requires s0 < 4 && s1 < 8
    ensures Table13(s0, s1) == (if s1 < 4 then 0 else 8) + 2 * s0 + (s1 - s0) % 4 / 2
  {
  }

  lemma LowerRows(s0: nat, s1: nat)
    requires 4 <= s0 < 8 && s1 < 8
    ensures Table13(s0, s1) == (if s1 < 4 then 8 else 0) + 2 * (s0 - 4) + (s1 - s0) % 4 / 2
  {
  }

  // ---------------------------------------------------------------- the code as an equation

  /** The two points of an interval, as alphabet indexes. */
  datatype Pair = Pair(a0: nat, a1: nat)

  function PairsOf(q: seq<Branch>): (x: seq<Pair>)
    ensures |x| == |q|
  {
    seq(|q|, i requires 0 <= i < |q| => Pair(q[i].a0, q[i].a1))
  }

  predicate Known(p: Search, x: Pair) {
    x.a0 < |p.sub| && x.a1 < |p.sub| && p.sub[x.a0] < 8 && p.sub[x.a1] < 8
  }

  predicate AllKnown(p: Search, x: seq<Pair>) {
    forall k :: 0 <= k < |x| ==> Known(p, x[k])
  }

  /** U0 as it is sent: the parity of the rotation between the two points. */
  function U(x: Pair): bool {
    Parity(x.a1, x.a0 % 4) == 1
  }

  function Y1(p: Search, x: Pair): bool
    requires Known(p, x)
  {
    Table13(p.sub[x.a0], p.sub[x.a1]) % 2 == 1
  }

  function Y2(p: Search, x: Pair): bool
    requires Known(p, x)
  {
    Table13(p.sub[x.a0], p.sub[x.a1]) / 2 % 2 == 1
  }

  /** U0 of an interval is the sum of Y1 one before, Y2 two and three before, and U0 three and
      four before. */
  predicate ObeysAt(p: Search, x: seq<Pair>, k: nat)
    requires AllKnown(p, x) && k + 4 < |x|
  {
    U(x[k + 4]) == Exor(Exor(Exor(Y1(p, x[k + 3]), Y2(p, x[k + 2])), Y2(p, x[k + 1])), Exor(U(x[k + 1]), U(x[k])))
  }

  /** The code: what five intervals in a row have to do with one another. */
  predicate Obeys(p: Search, x: seq<Pair>)
    requires AllKnown(p, x)
  {
    forall k: nat :: k + 4 < |x| ==> ObeysAt(p, x, k)
  }

  /** The encoder's state before interval `k`, from any state. */
  function StateAt(p: Search, x: seq<Pair>, st: nat, k: nat): (s: nat)
    requires AllKnown(p, x) && k <= |x| && st < STATES
    ensures s < STATES
  {
    if k == 0 then st else TrellisStep(StateAt(p, x, st, k - 1), Num(Y2(p, x[k - 1])), Num(Y1(p, x[k - 1])))
  }

  /** A memory element of the encoder. */
  function T(s: nat, i: nat): bool
    requires i < 4
  {
    Bit(s, i) == 1
  }

  function Four(a: bool, b: bool, c: bool, d: bool): (s: nat)
    ensures s < STATES && T(s, 0) == a && T(s, 1) == b && T(s, 2) == c && T(s, 3) == d
  {
    Num(a) + 2 * Num(b) + 4 * Num(c) + 8 * Num(d)
  }

  lemma StepBits(s: nat, y2: bool, y1: bool)
    requires s < STATES
    ensures TrellisStep(s, Num(y2), Num(y1)) == Four(Exor(T(s, 1), y1), Exor(T(s, 2), y2), Exor(Exor(T(s, 3), T(s, 0)), y2), T(s, 0))
  {
    BitIsBit(s);
    hide Bit;
  }

  lemma BitIsBit(s: nat)
    ensures forall i :: 0 <= i < 4 ==> Bit(s, i) < 2
  {
  }

  lemma StateStep(p: Search, x: seq<Pair>, st: nat, k: nat)
    requires AllKnown(p, x) && k < |x| && st < STATES
    ensures var s := StateAt(p, x, st, k); var n := StateAt(p, x, st, k + 1); var y1, y2 := Y1(p, x[k]), Y2(p, x[k]);
            && T(n, 0) == Exor(T(s, 1), y1) && T(n, 1) == Exor(T(s, 2), y2)
            && T(n, 2) == Exor(Exor(T(s, 3), T(s, 0)), y2) && T(n, 3) == T(s, 0)
  {
    hide Y1, Y2, TrellisStep, T;
    StepBits(StateAt(p, x, st, k), Y2(p, x[k]), Y1(p, x[k]));
  }

  /** Whatever the encoder starts from, its output bit follows the equation. */
  lemma Recurrence(p: Search, x: seq<Pair>, st: nat, k: nat)
    requires AllKnown(p, x) && k + 4 <= |x| && st < STATES
    ensures T(StateAt(p, x, st, k + 4), 0)
         == Exor(Exor(Exor(Y1(p, x[k + 3]), Y2(p, x[k + 2])), Y2(p, x[k + 1])),
                 Exor(T(StateAt(p, x, st, k + 1), 0), T(StateAt(p, x, st, k), 0)))
  {
    hide Y1, Y2, StateAt, T;
    StateStep(p, x, st, k);
    StateStep(p, x, st, k + 1);
    StateStep(p, x, st, k + 2);
    StateStep(p, x, st, k + 3);
  }

  // ---------------------------------------------------------------- paths obey it

  lemma LegalKnown(p: Search, q: seq<Branch>, st: nat)
    requires Legal(p, q, st)
    ensures AllKnown(p, PairsOf(q))
    ensures forall k :: 0 <= k < |q| ==> q[k].st < STATES && U(PairsOf(q)[k]) == T(q[k].st, 0)
  {
    forall k | 0 <= k < |q| ensures Known(p, PairsOf(q)[k]) && q[k].st < STATES && U(PairsOf(q)[k]) == T(q[k].st, 0) {
      assert LegalAt(p, q, st, k);
    }
  }

  lemma {:induction false} LegalStates(p: Search, q: seq<Branch>, st: nat, k: nat)
    requires Legal(p, q, st) && k < |q|
    ensures AllKnown(p, PairsOf(q)) && q[0].st < STATES && q[k].st == StateAt(p, PairsOf(q), q[0].st, k)
  {
    hide Parity, InRange, Table13, TrellisStep;
    LegalKnown(p, q, st);
    if k > 0 {
      LegalStates(p, q, st, k - 1);
      assert LegalAt(p, q, st, k - 1);
      NextIsStep(p, q[k - 1]);
    }
  }

  lemma NextIsStep(p: Search, b: Branch)
    requires b.st < STATES && Known(p, Pair(b.a0, b.a1))
    ensures Next(p, b) == TrellisStep(b.st, Num(Y2(p, Pair(b.a0, b.a1))), Num(Y1(p, Pair(b.a0, b.a1))))
  {
    hide Table13, TrellisStep;
  }

  /** The points of every legal path obey the equation. */
  lemma LegalObeys(p: Search, q: seq<Branch>, st: nat)
    requires Legal(p, q, st)
    ensures AllKnown(p, PairsOf(q)) && Obeys(p, PairsOf(q))
  {
    hide Legal, Y1, Y2, StateAt, T, U;
    LegalKnown(p, q, st);
    var x := PairsOf(q);
    forall k: nat | k + 4 < |x| ensures ObeysAt(p, x, k) {
      LegalStates(p, q, st, k);
      LegalStates(p, q, st, k + 1);
      LegalStates(p, q, st, k + 4);
      Recurrence(p, x, q[0].st, k);
    }
  }

  // ---------------------------------------------------------------- and nothing else

  /** The state an encoder must have started from, read off the first four intervals. */
  function FirstState(p: Search, x: seq<Pair>): (s: nat)
    requires AllKnown(p, x)
    ensures s < STATES
    ensures |x| > 0 ==> T(s, 0) == U(x[0])
    ensures |x| > 1 ==> T(s, 1) == Exor(U(x[1]), Y1(p, x[0]))
    ensures |x| > 2 ==> T(s, 2) == Exor(Exor(U(x[2]), Y1(p, x[1])), Y2(p, x[0]))
    ensures |x| > 3 ==> T(s, 3) == Exor(Exor(Exor(U(x[3]), Y1(p, x[2])), Exor(Y2(p, x[1]), Y2(p, x[0]))), U(x[0]))
  {
    hide U, Y1, Y2, T;
    Four(|x| > 0 && U(x[0]), |x| > 1 && Exor(U(x[1]), Y1(p, x[0])), |x| > 2 && Exor(Exor(U(x[2]), Y1(p, x[1])), Y2(p, x[0])),
         |x| > 3 && Exor(Exor(Exor(U(x[3]), Y1(p, x[2])), Exor(Y2(p, x[1]), Y2(p, x[0]))), U(x[0])))
  }

  lemma FirstFour(p: Search, x: seq<Pair>, k: nat)
    requires AllKnown(p, x) && k < |x| && k < 4
    ensures T(StateAt(p, x, FirstState(p, x), k), 0) == U(x[k])
  {
    var st := FirstState(p, x);
    assert StateAt(p, x, st, 0) == st;
    hide U, Y1, Y2, StateAt, T, FirstState;
    if k > 0 { StateStep(p, x, st, 0); }
    if k > 1 { StateStep(p, x, st, 1); }
    if k > 2 { StateStep(p, x, st, 2); }
  }

  lemma {:induction false} StatesFollow(p: Search, x: seq<Pair>, k: nat)
    requires AllKnown(p, x) && Obeys(p, x) && k < |x|
    ensures T(StateAt(p, x, FirstState(p, x), k), 0) == U(x[k])
    decreases k
  {
    hide U, Y1, Y2, StateAt, T, FirstState;
    if k < 4 {
      FirstFour(p, x, k);
    } else {
      StatesFollow(p, x, k - 4);
      StatesFollow(p, x, k - 3);
      Recurrence(p, x, FirstState(p, x), k - 4);
      assert ObeysAt(p, x, k - 4);
    }
  }

  /** The path through given points. */
  function Walk(p: Search, x: seq<Pair>): (q: seq<Branch>)
    requires AllKnown(p, x)
    ensures |q| == |x|
  {
    seq(|x|, k requires 0 <= k < |x| => Branch(StateAt(p, x, FirstState(p, x), k), x[k].a0, x[k].a1))
  }

  /** Distances are given for every point of every interval. */
  ghost predicate Fits(p: Search, x: seq<Pair>) {
    && |x| <= |p.d0| == |p.d1| && 1 <= p.keep && 1 <= p.keep0
    && forall m :: 0 <= m < |p.d0| ==> |p.d0[m]| == |p.d1[m]| == |p.sub|
  }

  lemma WalkIsLegal(p: Search, x: seq<Pair>)
    requires Fits(p, x) && AllKnown(p, x) && Obeys(p, x)
    ensures PairsOf(Walk(p, x)) == x && Legal(p, Walk(p, x), StateAt(p, x, FirstState(p, x), |x|))
  {
    hide LegalAt, FirstState, StateAt, Obeys;
    var q := Walk(p, x);
    assert PairsOf(q) == x;
    forall k | 0 <= k < |q| ensures LegalAt(p, q, StateAt(p, x, FirstState(p, x), |x|), k) { WalkAt(p, x, k); }
  }

  lemma WalkAt(p: Search, x: seq<Pair>, k: nat)
    requires Fits(p, x) && AllKnown(p, x) && Obeys(p, x) && k < |x|
    ensures LegalAt(p, Walk(p, x), StateAt(p, x, FirstState(p, x), |x|), k)
    ensures Next(p, Walk(p, x)[k]) == StateAt(p, x, FirstState(p, x), k + 1)
  {
    hide Table13, TrellisStep, FirstState, Obeys, Parity, U, T, Next;
    StatesFollow(p, x, k);
    assert Known(p, x[k]);
    NextIsStep(p, Walk(p, x)[k]);
    ParityIs(x[k], Walk(p, x)[k].st);
  }

  lemma ParityIs(x: Pair, st: nat)
    requires U(x) == T(st, 0)
    ensures Parity(x.a1, x.a0 % 4) == st % 2
  {
  }

  /** The code is exactly the equation: points belong to a legal path, from whatever state, if
      and only if they obey it. */
  lemma CodeIsParity(p: Search, x: seq<Pair>)
    requires Fits(p, x) && AllKnown(p, x)
    ensures Obeys(p, x) <==> exists q, st :: PairsOf(q) == x && Legal(p, q, st)
  {
    hide Fits, Obeys, Legal, Walk, PairsOf, StateAt, FirstState;
    if Obeys(p, x) { WalkIsLegal(p, x); }
    if q, st :| PairsOf(q) == x && Legal(p, q, st) { LegalObeys(p, q, st); }
  }

  // ---------------------------------------------------------------- the code in rotations

  /** An alphabet made of quarter-constellation points: point 4 k + r is point k turned r times. */
  predicate Rotated(p: Search) {
    |p.sub| % 4 == 0 && forall i :: 0 <= i < |p.sub| ==> p.sub[i] < 8 && p.sub[i] % 4 == i % 4
  }

  /** nf_v34_constellation_init with nf_v34_subset_label. */
  function Labels(quarter: seq<(int, int)>): (sub: seq<nat>)
    ensures |sub| == 4 * |quarter|
  {
    seq(4 * |quarter|, i requires 0 <= i < 4 * |quarter| =>
      var z := Turned(quarter[i / 4].0, quarter[i / 4].1, i % 4); SubsetLabel(z.0, z.1))
  }

  lemma LabelsAreRotated(p: Search, quarter: seq<(int, int)>)
    requires forall k :: 0 <= k < |quarter| ==> quarter[k].0 % 4 == 1 && quarter[k].1 % 4 == 1
    requires p.sub == Labels(quarter)
    ensures Rotated(p)
  {
    hide Turned, SubsetLabel;
    forall i | 0 <= i < |p.sub| ensures p.sub[i] < 8 && p.sub[i] % 4 == i % 4 { LabelAt(quarter[i / 4].0, quarter[i / 4].1, i); }
  }

  lemma LabelAt(re: int, im: int, i: nat)
    requires re % 4 == 1 && im % 4 == 1
    ensures var z := Turned(re, im, i % 4); SubsetLabel(z.0, z.1) < 8 && SubsetLabel(z.0, z.1) % 4 == i % 4
  {
    hide Turned, SubsetLabel;
    LabelTurns(re, im, i % 4);
    LowestBits(SubsetLabel(re, im), i % 4);
  }

  lemma LowestBits(s: nat, r: nat)
    requires s % 4 == 0 && r < 4
    ensures (s + r) % 4 == r
  {
  }

  lemma LabelMod(p: Search, x: Pair)
    requires Rotated(p) && Known(p, x)
    ensures p.sub[x.a0] % 4 == x.a0 % 4 && p.sub[x.a1] % 4 == x.a1 % 4
  {
  }

  lemma TableBits(p: Search, x: Pair)
    requires Known(p, x)
    ensures Num(Y1(p, x)) == (p.sub[x.a1] as int - p.sub[x.a0]) % 4 / 2 && Num(Y2(p, x)) == p.sub[x.a0] % 4 % 2
  {
    var s0, s1 := p.sub[x.a0], p.sub[x.a1];
    Table13Law(s0, s1);
    hide Table13;
    var d: int := s1 as int - s0;
    LowBits(Table13(s0, s1), if s0 / 4 == s1 / 4 then 0 else 1, s0 % 4, d % 4 / 2);
    hide *;
    YsOf(p, x);
  }

  lemma YsOf(p: Search, x: Pair)
    requires Known(p, x)
    ensures var v := Table13(p.sub[x.a0], p.sub[x.a1]); Num(Y1(p, x)) == v % 2 && Num(Y2(p, x)) == v / 2 % 2
  {
    hide Table13;
  }

  lemma LowBits(v: nat, h: nat, r: nat, y: nat)
    requires v == 8 * h + 2 * r + y && y < 2 && h < 2 && r < 4
    ensures v % 2 == y && v / 2 % 2 == r % 2
  {
    assert v / 2 == 4 * h + r;
  }

  lemma SameMod(a: nat, b: nat, c: nat, d: nat)
    requires a % 4 == c % 4 && b % 4 == d % 4
    ensures (a as int - b) % 4 == (c as int - d) % 4
  {
    var k := (a / 4 - b / 4) - (c / 4 - d / 4);
    assert a as int - b == c as int - d + 4 * k;
  }

  lemma UIsParity(x: Pair)
    ensures Parity(x.a1, x.a0 % 4) == Num(U(x)) == (x.a1 as int - x.a0) % 4 % 2
  {
    SameMod(x.a1, x.a0, x.a1 % 4, x.a0 % 4);
    ParityOf(x.a1 % 4 as int - x.a0 % 4);
  }

  lemma ParityOf(d: int)
    ensures d % 4 % 2 == d % 2 < 2
  {
    assert d == 4 * (d / 4) + d % 4;
  }

  lemma TwoParts(d: int)
    ensures d % 4 == 2 * (d % 4 / 2) + d % 4 % 2
  {
  }

  /** In such an alphabet Y1 and U0 are the two bits of the rotation from the first point to
      the second, and Y2 is the low bit of the rotation of the first. */
  lemma BitsAreRotations(p: Search, x: Pair)
    requires Rotated(p) && Known(p, x)
    ensures (x.a1 as int - x.a0) % 4 == 2 * Num(Y1(p, x)) + Num(U(x)) && Num(Y2(p, x)) == x.a0 % 4 % 2
  {
    LabelMod(p, x);
    TableBits(p, x);
    UIsParity(x);
    hide U, Y1, Y2, Rotated;
    SameMod(p.sub[x.a1], p.sub[x.a0], x.a1, x.a0);
    TwoParts(x.a1 as int - x.a0);
  }

  /** Point `i` turned by `r` quarters more. */
  function TurnPoint(i: nat, r: nat): (j: nat)
    ensures j % 4 == (i + r) % 4
  {
    assert (i % 4 + r) % 4 == (i + r) % 4 by { assert i == 4 * (i / 4) + i % 4; }
    i / 4 * 4 + (i % 4 + r) % 4
  }

  function TurnPair(x: Pair, r: nat): Pair {
    Pair(TurnPoint(x.a0, r), TurnPoint(x.a1, r))
  }

  function TurnAll(x: seq<Pair>, r: nat): (y: seq<Pair>)
    ensures |y| == |x|
  {
    seq(|x|, k requires 0 <= k < |x| => TurnPair(x[k], r))
  }

  lemma TurnKnown(p: Search, x: Pair, r: nat)
    requires Rotated(p) && Known(p, x)
    ensures Known(p, TurnPair(x, r))
  {
    TurnWithin(x.a0, r, |p.sub|);
    TurnWithin(x.a1, r, |p.sub|);
    hide TurnPoint;
  }

  lemma TurnWithin(i: nat, r: nat, n: nat)
    requires i < n && n % 4 == 0
    ensures TurnPoint(i, r) < n
  {
  }

  /** Turned together, Y1 and U0 stay and Y2 goes over with every odd turn. */
  lemma TurnedBits(p: Search, x: Pair, r: nat)
    requires Rotated(p) && Known(p, x)
    ensures var y := TurnPair(x, r);
            Known(p, y) && U(y) == U(x) && Y1(p, y) == Y1(p, x) && Y2(p, y) == Exor(Y2(p, x), r % 2 == 1)
  {
    var y := TurnPair(x, r);
    TurnKnown(p, x, r);
    hide TurnPoint, Known, U, Y1, Y2, Rotated;
    BitsAreRotations(p, x);
    BitsAreRotations(p, y);
    SameMod(y.a1, y.a0, x.a1 + r, x.a0 + r);
    OddTurns(x.a0, r);
  }

  lemma OddTurns(a: nat, r: nat)
    ensures (a + r) % 4 % 2 == (if r % 2 == 1 then 1 - a % 4 % 2 else a % 4 % 2)
  {
    ParityOf(a + r);
    ParityOf(a);
    Parities(a, r);
  }

  lemma Parities(a: nat, r: nat)
    ensures (a + r) % 2 == (if r % 2 == 1 then 1 - a % 2 else a % 2)
  {
    var k := a / 2 + r / 2;
    assert a + r == 2 * k + (a % 2 + r % 2);
  }

  /** Turning all points by the same number of quarters leads from code to code. */
  lemma CodeTurns(p: Search, x: seq<Pair>, r: nat)
    requires Rotated(p) && AllKnown(p, x)
    ensures AllKnown(p, TurnAll(x, r)) && (Obeys(p, TurnAll(x, r)) <==> Obeys(p, x))
  {
    hide Rotated, U, Y1, Y2, TurnPoint, TurnPair;
    var y := TurnAll(x, r);
    forall k | 0 <= k < |x|
      ensures Known(p, y[k]) && U(y[k]) == U(x[k]) && Y1(p, y[k]) == Y1(p, x[k]) && Y2(p, y[k]) == Exor(Y2(p, x[k]), r % 2 == 1)
    {
      TurnedBits(p, x[k], r);
    }
    forall k: nat | k + 4 < |x| ensures ObeysAt(p, y, k) <==> ObeysAt(p, x, k) {
    }
  }

  // ---------------------------------------------------------------- what the search makes of it

  /** Squared distance of points to what was received. */
  ghost function Distance(p: Search, x: seq<Pair>, n: nat): real
    requires Fits(p, x) && AllKnown(p, x) && n <= |x|
  {
    if n == 0 then 0.0 else Distance(p, x, n - 1) + (p.d0[n - 1][x[n - 1].a0] + p.d1[n - 1][x[n - 1].a1])
  }

  /** Both points are on the candidate lists. */
  ghost predicate Kept(p: Search, x: seq<Pair>)
    requires Fits(p, x) && AllKnown(p, x)
  {
    forall m :: 0 <= m < |x| ==> KeptAt(p, m, x[m])
  }

  ghost predicate KeptAt(p: Search, m: nat, x: Pair)
    requires m < |p.d0| == |p.d1| && 1 <= p.keep && 1 <= p.keep0 && |p.d0[m]| == |p.d1[m]| == |p.sub| && Known(p, x)
  {
    Entry(x.a0, p.d0[m][x.a0]) in Top0(p, m) && Entry(x.a1, p.d1[m][x.a1]) in Top1(p, m, x.a0 % 4, Num(U(x)))
  }

  lemma KeptIsAllowed(p: Search, x: seq<Pair>, m: nat, b: Branch)
    requires Fits(p, x) && AllKnown(p, x) && Kept(p, x) && m < |x|
    requires b.st < STATES && b.a0 == x[m].a0 && b.a1 == x[m].a1 && T(b.st, 0) == U(x[m])
    ensures Allowed(p, m, b) && BranchCost(p, m, b) == p.d0[m][b.a0] + p.d1[m][b.a1]
  {
    hide Top0, Top1;
    assert Known(p, x[m]) && KeptAt(p, m, x[m]);
    ParityIs(x[m], b.st);
  }

  /** The path through the points, so far, and what it costs. */
  ghost predicate WalkedTo(p: Search, x: seq<Pair>, n: nat) {
    && Fits(p, x) && AllKnown(p, x) && n <= |x|
    && PathTo(p, Walk(p, x)[..n], StateAt(p, x, FirstState(p, x), n)) && Cost(p, Walk(p, x)[..n]) == Distance(p, x, n)
  }

  lemma WalkedNowhere(p: Search, x: seq<Pair>)
    requires Fits(p, x) && AllKnown(p, x)
    ensures WalkedTo(p, x, 0)
  {
    hide FirstState, StateAt, Walk, Known;
  }

  lemma StepAllowed(p: Search, x: seq<Pair>, n: nat)
    requires Fits(p, x) && AllKnown(p, x) && Obeys(p, x) && Kept(p, x) && n < |x|
    ensures var b := Walk(p, x)[n];
            && Allowed(p, n, b) && b.st == StateAt(p, x, FirstState(p, x), n) && Next(p, b) == StateAt(p, x, FirstState(p, x), n + 1)
            && Known(p, x[n]) && BranchCost(p, n, b) == p.d0[n][x[n].a0] + p.d1[n][x[n].a1]
  {
    hide FirstState, StateAt, Obeys, Kept, Next, T, U, Allowed, BranchCost;
    WalkAt(p, x, n);
    StatesFollow(p, x, n);
    KeptIsAllowed(p, x, n, Walk(p, x)[n]);
  }

  lemma WalkStep(p: Search, x: seq<Pair>, n: nat)
    requires Fits(p, x) && AllKnown(p, x) && Obeys(p, x) && Kept(p, x) && n < |x| && WalkedTo(p, x, n)
    ensures WalkedTo(p, x, n + 1)
  {
    hide FirstState, StateAt, Obeys, Kept, Next, Allowed, BranchCost, Walk, PathTo, Cost, Known;
    StepAllowed(p, x, n);
    var b := Walk(p, x)[n];
    assert Walk(p, x)[..n + 1] == Walk(p, x)[..n] + [b];
    PathStep(p, Walk(p, x)[..n], b);
  }

  lemma {:induction false} WalkIsPath(p: Search, x: seq<Pair>, n: nat)
    requires Fits(p, x) && AllKnown(p, x) && Obeys(p, x) && Kept(p, x) && n <= |x|
    ensures WalkedTo(p, x, n)
  {
    hide Fits, AllKnown, Obeys, Kept, WalkedTo;
    if n == 0 {
      WalkedNowhere(p, x);
    } else {
      WalkIsPath(p, x, n - 1);
      WalkStep(p, x, n - 1);
    }
  }

  lemma {:induction false} CostIsDistance(p: Search, q: seq<Branch>, st: nat, n: nat)
    requires Legal(p, q, st) && Fits(p, PairsOf(q)) && AllKnown(p, PairsOf(q)) && n <= |q|
    ensures Cost(p, q[..n]) == Distance(p, PairsOf(q), n)
  {
    hide Parity, Next;
    if n > 0 {
      CostIsDistance(p, q, st, n - 1);
      assert q[..n][..n - 1] == q[..n - 1];
      assert LegalAt(p, q, st, n - 1);
    }
  }

  lemma SoundFits(p: Search, most: real, x: seq<Pair>)
    requires Sound(p, most) && |x| <= |p.d0|
    ensures Fits(p, x)
  {
  }

  /** What is decoded obeys the equation, and no points that obey it and are on the candidate
      lists are nearer to what was received. */
  lemma NoCodewordNearer(p: Search, most: real, q: seq<Branch>, st: nat, x: seq<Pair>)
    requires Sound(p, most) && Legal(p, q, st) && Cheapest(p, q) && |x| == |q| <= |p.d0|
    requires AllKnown(p, x) && Obeys(p, x) && Fits(p, x) && Kept(p, x)
    ensures AllKnown(p, PairsOf(q)) && Obeys(p, PairsOf(q)) && Fits(p, PairsOf(q))
    ensures Distance(p, PairsOf(q), |q|) <= Distance(p, x, |x|)
  {
    hide Sound, Legal, Obeys, Fits, Kept, StateAt, FirstState, PathTo, Cost, Distance;
    LegalObeys(p, q, st);
    SoundFits(p, most, PairsOf(q));
    CostIsDistance(p, q, st, |q|);
    WalkIsPath(p, x, |x|);
    assert q[..|q|] == q && Walk(p, x)[..|x|] == Walk(p, x);
  }

  // ---------------------------------------------------------------- an undisturbed stream

  /** Just these points were received. */
  ghost predicate Undisturbed(p: Search, x: seq<Pair>)
    requires Fits(p, x) && AllKnown(p, x)
  {
    |x| == |p.d0| && forall m, i :: 0 <= m < |x| && 0 <= i < |p.sub| ==>
      && (if i == x[m].a0 then p.d0[m][i] == 0.0 else p.d0[m][i] > 0.0)
      && (if i == x[m].a1 then p.d1[m][i] == 0.0 else p.d1[m][i] > 0.0)
  }

  /** The one entry at distance 0 is among the nearest. */
  lemma ZeroIsNearest(c: seq<Entry>, k: nat, e: Entry)
    requires 1 <= k && Distinct(c) && e in c && e.d == 0.0 && forall y :: y in c ==> y == e || y.d > 0.0
    ensures e in Nearest(c, k)
  {
    hide Nearest;
    NearestAreNearest(c, k);
    var l := Nearest(c, k);
    var i :| 0 <= i < |c| && c[i] == e;
    if |l| == k { assert l[k - 1] in c; }
  }

  lemma UndisturbedIsKept(p: Search, x: seq<Pair>)
    requires Fits(p, x) && AllKnown(p, x) && Undisturbed(p, x)
    ensures Kept(p, x)
  {
    hide Nearest, Parity;
    forall m | 0 <= m < |x| ensures KeptAt(p, m, x[m]) {
      assert Known(p, x[m]);
      var z, u := x[m].a0 % 4, Num(U(x[m]));
      var c0, c1 := Candidates0(p.d0[m], |p.d0[m]|), Candidates1(p.d1[m], z, u, |p.d1[m]|);
      assert c0[x[m].a0] == Entry(x[m].a0, 0.0);
      ZeroIsNearest(c0, p.keep0, Entry(x[m].a0, 0.0));
      UIsParity(x[m]);
      Candidates1Distinct(p.d1[m], z, u, |p.d1[m]|);
      ZeroIsNearest(c1, p.keep, Entry(x[m].a1, 0.0));
    }
  }

  lemma {:induction false} NothingAway(p: Search, x: seq<Pair>, n: nat)
    requires Fits(p, x) && AllKnown(p, x) && Undisturbed(p, x) && n <= |x|
    ensures Distance(p, x, n) == 0.0
  {
    if n > 0 {
      NothingAway(p, x, n - 1);
      assert Known(p, x[n - 1]);
    }
  }

  /** Other points are away from what was received. */
  lemma {:induction false} OthersAway(p: Search, x: seq<Pair>, y: seq<Pair>, n: nat)
    requires Fits(p, x) && AllKnown(p, x) && Undisturbed(p, x) && Fits(p, y) && AllKnown(p, y) && n <= |x| == |y|
    ensures Distance(p, y, n) >= 0.0 && (Distance(p, y, n) == 0.0 ==> y[..n] == x[..n])
  {
    if n > 0 {
      OthersAway(p, x, y, n - 1);
      assert Known(p, y[n - 1]) && Known(p, x[n - 1]);
      assert y[..n] == y[..n - 1] + [y[n - 1]] && x[..n] == x[..n - 1] + [x[n - 1]];
    }
  }

  /** Received undisturbed, a stream that obeys the equation is decoded to itself, at no cost. */
  lemma CodewordComesBack(p: Search, most: real, q: seq<Branch>, st: nat, x: seq<Pair>)
    requires Sound(p, most) && Legal(p, q, st) && Cheapest(p, q) && |x| == |q| == |p.d0|
    requires AllKnown(p, x) && Obeys(p, x) && Fits(p, x) && Undisturbed(p, x)
    ensures PairsOf(q) == x && Cost(p, q) == 0.0
  {
    hide Sound, Legal, Obeys, Fits, Undisturbed, Cost, Distance, Cheapest;
    UndisturbedIsKept(p, x);
    NoCodewordNearer(p, most, q, st, x);
    NothingAway(p, x, |x|);
    OthersAway(p, x, PairsOf(q), |x|);
    CostIsDistance(p, q, st, |q|);
    assert q[..|q|] == q && PairsOf(q)[..|x|] == PairsOf(q) && x[..|x|] == x;
  }

  /** The points an encoder sends from state `st` on: each interval's U0 is its output bit. */
  ghost predicate SentFrom(p: Search, x: seq<Pair>, st: nat)
    requires AllKnown(p, x) && st < STATES
  {
    forall k :: 0 <= k < |x| ==> U(x[k]) == T(StateAt(p, x, st, k), 0)
  }

  lemma SentObeys(p: Search, x: seq<Pair>, st: nat)
    requires AllKnown(p, x) && st < STATES && SentFrom(p, x, st)
    ensures Obeys(p, x)
  {
    hide StateAt, U, Y1, Y2, T;
    forall k: nat | k + 4 < |x| ensures ObeysAt(p, x, k) { Recurrence(p, x, st, k); }
  }

  /** The search fed with the points of an encoder, whatever state it started from: they come
      back. */
  method ReceiveUndisturbed(p: Search, ghost most: real, ghost x: seq<Pair>, ghost st: nat) returns (decoded: seq<Pair>)
    requires Sound(p, most) && |x| == |p.d0| && AllKnown(p, x) && Fits(p, x) && Undisturbed(p, x)
    requires st < STATES && SentFrom(p, x, st)
    ensures decoded == x
  {
    hide Sound, Legal, Obeys, Undisturbed, Cheapest, PathTo, SentFrom, AllKnown, Fits;
    SentObeys(p, x, st);
    SoundCounts(p, most);
    var ok, d0, d1;
    ghost var q, last;
    ok, d0, d1, q, last := Decode(p, most);
    CodewordComesBack(p, most, q, last, x);
    decoded := [];
    for k := 0 to |d0|
      invariant decoded == PairsOf(q)[..k]
    {
      decoded := decoded + [Pair(d0[k], d1[k])];
    }
  }

  lemma SoundCounts(p: Search, most: real)
    requires Sound(p, most)
    ensures Received(p, most) && |p.d0| >= 1 && 1 <= p.keep <= MAX_KEEP && 1 <= p.keep0 <= MAX_KEEP
  {
  }
}
