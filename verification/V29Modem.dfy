/** The bit pipeline of the V.29 modem (ITU-T V.29; nf_v29.c) in data mode: scrambler,
    amplitude bit, differential phase coding, decision, descrambler. */
module V29Modem {
  import opened BitIo
  import opened PhaseSteps
  import opened Plane
  import opened V34Scrambler

  datatype Rate = R4800 | R7200 | R9600

  function BitsPer(rate: Rate): nat {
    match rate case R4800 => 2 case R7200 => 3 case R9600 => 4
  }

  /** 1 + x^-18 + x^-23. */
  function Generator(): Taps {
    Taps(18, 23)
  }

  /** A line bit received wrong spoils its own data bit and those 18 and 23 later, no others. */
  lemma WrongLineBit(h: History, line: Bits, j: nat, k: nat)
    requires j < |line| && k < |line|
    ensures var bad := line[j := !line[j]];
            (Descramble(Generator(), h, bad)[k] != Descramble(Generator(), h, line)[k]) <==> k == j || k == j + 18 || k == j + 23
  {
    hide Descramble;
    V34Scrambler.WrongLineBit(true, h, line, j, k);
  }

  /** Amplitude above phase, in eighths of a turn. */
  function Constellation(k: nat): Point
    requires k < 16
  {
    [Point(3.0, 0.0), Point(1.0, 1.0), Point(0.0, 3.0), Point(-1.0, 1.0),
     Point(-3.0, 0.0), Point(-1.0, -1.0), Point(0.0, -3.0), Point(1.0, -1.0),
     Point(5.0, 0.0), Point(3.0, 3.0), Point(0.0, 5.0), Point(-3.0, 3.0),
     Point(-5.0, 0.0), Point(-3.0, -3.0), Point(0.0, -5.0), Point(3.0, -3.0)][k]
  }

  /** space_map_9600: the decision over a grid of half units, one row per real part, in
      hexadecimal. */
  function SpaceMap(re: nat, im: nat): (k: nat)
    requires re < 20 && im < 20
    ensures k < 16
  {
    Hex(Row(re)[im])
  }

  function Hex(c: char): (k: nat)
    ensures k < 16
  {
    if '0' <= c <= '9' then (c - '0') as nat else if 'a' <= c <= 'f' then (c - 'a') as nat + 10 else 0
  }

  function Row(re: nat): (r: string)
    requires re < 20
    ensures |r| == 20
  {
    match re
    case 0 => "ddddddccccccccbbbbbb"
    case 1 => "dddddddccccccbbbbbbb"
    case 2 => "ddddddd444444bbbbbbb"
    case 3 => "ddddddd444444bbbbbbb"
    case 4 => "ddddddd444444bbbbbbb"
    case 5 => "ddddddd544443bbbbbbb"
    case 6 => "eddddd55553333bbbbba"
    case 7 => "ee6665555533333222aa"
    case 8 => "ee6666555533332222aa"
    case 9 => "ee6666555533332222aa"
    case 10 => "ee6666777711112222aa"
    case 11 => "ee6666777711112222aa"
    case 12 => "ee6667777711111222aa"
    case 13 => "efffff7777111199999a"
    case 14 => "fffffff7000019999999"
    case 15 => "fffffff0000009999999"
    case 16 => "fffffff0000009999999"
    case 17 => "fffffff0000009999999"
    case 18 => "fffffff8888889999999"
    case _ => "ffffff88888888999999"
  }

  /** A coordinate on the grid, clamped to it. */
  function Cell(x: real): (c: nat)
    ensures c < 20
  {
    var n: int := ((x + 5.0) * 2.0).Floor;
    if n > 19 then 19 else if n < 0 then 0 else n
  }

  /** The receiver's decision: a constellation index, the amplitude dropped at 7200. */
  function Decide(rate: Rate, z: Point): (k: nat)
    ensures k < 16 && (rate.R4800? ==> k < 8 && k % 2 == 0) && (rate.R7200? ==> k < 8)
  {
    if rate.R4800? then 2 * FindQuadrant(z)
    else
      var k := SpaceMap(Cell(z.re), Cell(z.im));
      if rate.R9600? then k else k % 8
  }

  /** The points a rate uses. */
  predicate Used(rate: Rate, k: nat) {
    match rate case R4800 => k < 8 && k % 2 == 0 case R7200 => k < 8 case R9600 => k < 16
  }

  /** Received so near that the decision stands: within half the least distance of two points
      in both directions at 7200 and 9600, and within one and a half units at 4800. */
  predicate Near(rate: Rate, z: Point, c: Point) {
    var r := if rate.R4800? then 1.5 else 1.0;
    c.re - r < z.re < c.re + r && c.im - r < z.im < c.im + r
  }

  /** Every point received near a constellation point of the rate is decided as that one. */
  lemma DecidesNear(rate: Rate, k: nat, z: Point)
    requires Used(rate, k) && k < 16 && Near(rate, z, Constellation(k))
    ensures Decide(rate, z) == k
  {
    if rate.R4800? { QuadrantNear(k, z); } else { hide SpaceMap, Cell; MappedNear(k, z); }
  }

  /** In particular the points themselves. */
  lemma DecidesItself(rate: Rate, k: nat)
    requires Used(rate, k)
    ensures k < 16 && Decide(rate, Constellation(k)) == k
  {
    hide Constellation, Decide;
    DecidesNear(rate, k, Constellation(k));
  }

  lemma QuadrantNear(k: nat, z: Point)
    requires k < 8 && k % 2 == 0 && Near(R4800, z, Constellation(k))
    ensures Decide(R4800, z) == k
  {
    hide SpaceMap;
    if k == 0 { assert Constellation(0) == Point(3.0, 0.0); }
    else if k == 2 { assert Constellation(2) == Point(0.0, 3.0); }
    else if k == 4 { assert Constellation(4) == Point(-3.0, 0.0); }
    else { assert Constellation(6) == Point(0.0, -3.0); }
  }

  function Clamped(n: int): (c: nat)
    ensures c < 20
  {
    if n > 19 then 19 else if n < 0 then 0 else n
  }

  /** Four cells either way. */
  lemma CellNear(x: real, c: int)
    requires (c as real) - 1.0 < x < (c as real) + 1.0
    ensures Clamped(2 * c + 8) <= Cell(x) <= Clamped(2 * c + 11)
  {
    var y := (x + 5.0) * 2.0;
    assert ((2 * c + 8) as real) < y < ((2 * c + 12) as real);
  }

  lemma Placed(k: nat, z: Point, a: int, b: int)
    requires k < 16 && Constellation(k) == Point(a as real, b as real) && Near(R9600, z, Constellation(k))
    ensures Clamped(2 * a + 8) <= Cell(z.re) <= Clamped(2 * a + 11) && Clamped(2 * b + 8) <= Cell(z.im) <= Clamped(2 * b + 11)
  {
    hide Constellation, Cell;
    CellNear(z.re, a);
    CellNear(z.im, b);
  }

  lemma MappedNear(k: nat, z: Point)
    requires k < 16 && Near(R9600, z, Constellation(k))
    ensures SpaceMap(Cell(z.re), Cell(z.im)) == k
  {
    hide SpaceMap, Cell;
    if k == 0 {
      Placed(k, z, 3, 0);
      Around0(Cell(z.re), Cell(z.im));
    } else if k == 1 {
      Placed(k, z, 1, 1);
      Around1(Cell(z.re), Cell(z.im));
    } else if k == 2 {
      Placed(k, z, 0, 3);
      Around2(Cell(z.re), Cell(z.im));
    } else if k == 3 {
      Placed(k, z, -1, 1);
      Around3(Cell(z.re), Cell(z.im));
    } else if k == 4 {
      Placed(k, z, -3, 0);
      Around4(Cell(z.re), Cell(z.im));
    } else if k == 5 {
      Placed(k, z, -1, -1);
      Around5(Cell(z.re), Cell(z.im));
    } else if k == 6 {
      Placed(k, z, 0, -3);
      Around6(Cell(z.re), Cell(z.im));
    } else if k == 7 {
      Placed(k, z, 1, -1);
      Around7(Cell(z.re), Cell(z.im));
    } else if k == 8 {
      Placed(k, z, 5, 0);
      Around8(Cell(z.re), Cell(z.im));
    } else if k == 9 {
      Placed(k, z, 3, 3);
      Around9(Cell(z.re), Cell(z.im));
    } else if k == 10 {
      Placed(k, z, 0, 5);
      Around10(Cell(z.re), Cell(z.im));
    } else if k == 11 {
      Placed(k, z, -3, 3);
      Around11(Cell(z.re), Cell(z.im));
    } else if k == 12 {
      Placed(k, z, -5, 0);
      Around12(Cell(z.re), Cell(z.im));
    } else if k == 13 {
      Placed(k, z, -3, -3);
      Around13(Cell(z.re), Cell(z.im));
    } else if k == 14 {
      Placed(k, z, 0, -5);
      Around14(Cell(z.re), Cell(z.im));
    } else {
      Placed(k, z, 3, -3);
      Around15(Cell(z.re), Cell(z.im));
    }
  }

  lemma Around0(re: nat, im: nat)
    requires 14 <= re <= 17 && 8 <= im <= 11
    ensures SpaceMap(re, im) == 0
  {
  }

  lemma Around1(re: nat, im: nat)
    requires 10 <= re <= 13 && 10 <= im <= 13
    ensures SpaceMap(re, im) == 1
  {
  }

  lemma Around2(re: nat, im: nat)
    requires 8 <= re <= 11 && 14 <= im <= 17
    ensures SpaceMap(re, im) == 2
  {
  }

  lemma Around3(re: nat, im: nat)
    requires 6 <= re <= 9 && 10 <= im <= 13
    ensures SpaceMap(re, im) == 3
  {
  }

  lemma Around4(re: nat, im: nat)
    requires 2 <= re <= 5 && 8 <= im <= 11
    ensures SpaceMap(re, im) == 4
  {
  }

  lemma Around5(re: nat, im: nat)
    requires 6 <= re <= 9 && 6 <= im <= 9
    ensures SpaceMap(re, im) == 5
  {
  }

  lemma Around6(re: nat, im: nat)
    requires 8 <= re <= 11 && 2 <= im <= 5
    ensures SpaceMap(re, im) == 6
  {
  }

  lemma Around7(re: nat, im: nat)
    requires 10 <= re <= 13 && 6 <= im <= 9
    ensures SpaceMap(re, im) == 7
  {
  }

  lemma Around8(re: nat, im: nat)
    requires 18 <= re <= 19 && 8 <= im <= 11
    ensures SpaceMap(re, im) == 8
  {
  }

  lemma Around9(re: nat, im: nat)
    requires 14 <= re <= 17 && 14 <= im <= 17
    ensures SpaceMap(re, im) == 9
  {
  }

  lemma Around10(re: nat, im: nat)
    requires 8 <= re <= 11 && 18 <= im <= 19
    ensures SpaceMap(re, im) == 10
  {
  }

  lemma Around11(re: nat, im: nat)
    requires 2 <= re <= 5 && 14 <= im <= 17
    ensures SpaceMap(re, im) == 11
  {
  }

  lemma Around12(re: nat, im: nat)
    requires 0 <= re <= 1 && 8 <= im <= 11
    ensures SpaceMap(re, im) == 12
  {
  }

  lemma Around13(re: nat, im: nat)
    requires 2 <= re <= 5 && 2 <= im <= 5
    ensures SpaceMap(re, im) == 13
  {
  }

  lemma Around14(re: nat, im: nat)
    requires 8 <= re <= 11 && 0 <= im <= 1
    ensures SpaceMap(re, im) == 14
  {
  }

  lemma Around15(re: nat, im: nat)
    requires 14 <= re <= 17 && 2 <= im <= 5
    ensures SpaceMap(re, im) == 15
  {
  }

  // ---------------------------------------------------------------- symbols

  /** The phase after a symbol's line bits. */
  function Turned(rate: Rate, state: nat, b: Bits): (s: nat)
    requires |b| == BitsPer(rate)
    ensures s < 8
  {
    match rate
    case R4800 => (state + Step4(b[0], b[1])) % 8
    case R7200 => (state + Step8(b[0], b[1], b[2])) % 8
    case R9600 => (state + Step8(b[1], b[2], b[3])) % 8
  }

  /** The point sent: at 9600 the first bit is the amplitude. */
  function Symbol(rate: Rate, state: nat, b: Bits): (k: nat)
    requires |b| == BitsPer(rate)
    ensures k < 16 && k % 8 == Turned(rate, state, b)
  {
    Turned(rate, state, b) + if rate.R9600? && b[0] then 8 else 0
  }

  /** The points sent for a line stream of whole symbols. */
  function Symbols(rate: Rate, state: nat, line: Bits): (p: seq<nat>)
    requires |line| % BitsPer(rate) == 0
    ensures |p| == |line| / BitsPer(rate) && forall i :: 0 <= i < |p| ==> p[i] < 16
    decreases |line|
  {
    if line == [] then []
    else
      var n := BitsPer(rate);
      [Symbol(rate, state, line[..n])] + Symbols(rate, Turned(rate, state, line[..n]), line[n..])
  }

  function Unturned(rate: Rate, state: nat, nearest: nat): (b: Bits)
    ensures |b| == BitsPer(rate)
  {
    if rate.R4800? then
      var raw := Raw4((nearest - state) / 2 % 4);
      [Bit(raw, 0), Bit(raw, 1)]
    else
      var raw := Raw8((nearest - state) % 8);
      (if rate.R9600? then [nearest >= 8] else []) + [Bit(raw, 0), Bit(raw, 1), Bit(raw, 2)]
  }

  function LineOf(rate: Rate, state: nat, z: seq<Point>): Bits
    decreases |z|
  {
    if z == [] then []
    else
      var k := Decide(rate, z[0]);
      Unturned(rate, state, k) + LineOf(rate, k, z[1..])
  }

  /** Sender's phase and receiver's last decision, which keeps the amplitude; at 4800 only even
      phases are ever used. */
  predicate InStep(rate: Rate, sent: nat, seen: nat) {
    sent < 8 && seen % 8 == sent && (rate.R4800? ==> sent % 2 == 0 && seen < 8)
  }

  predicate Heard(rate: Rate, z: seq<Point>, p: seq<nat>) {
    |z| == |p| && forall i :: 0 <= i < |p| ==> p[i] < 16 && Decide(rate, z[i]) == Decide(rate, Constellation(p[i]))
  }

  lemma OneSymbol(rate: Rate, sent: nat, seen: nat, b: Bits)
    requires InStep(rate, sent, seen) && |b| == BitsPer(rate)
    ensures var k := Decide(rate, Constellation(Symbol(rate, sent, b)));
            InStep(rate, Turned(rate, sent, b), k) && Unturned(rate, seen, k) == b
  {
    hide Decide, Constellation, Turned, Symbol, Unturned;
    match rate {
      case R4800 => Symbol4800(sent, seen, b);
      case R7200 => Symbol7200(sent, seen, b);
      case R9600 => Symbol9600(sent, seen, b);
    }
    DecidesItself(rate, Symbol(rate, sent, b));
  }

  lemma Symbol4800(sent: nat, seen: nat, b: Bits)
    requires sent < 8 && seen == sent && sent % 2 == 0 && |b| == 2
    ensures var k := Symbol(R4800, sent, b);
            k == Turned(R4800, sent, b) && k % 2 == 0 && Unturned(R4800, seen, k) == b
  {
    hide Step4, Raw4, Bit;
    Undone4(sent / 2, b[0], b[1]);
    var s := Turned(R4800, sent, b);
    assert (s - seen) / 2 % 4 == (s / 2 - sent / 2) % 4;
  }

  lemma Symbol7200(sent: nat, seen: nat, b: Bits)
    requires sent < 8 && seen % 8 == sent && |b| == 3
    ensures var k := Symbol(R7200, sent, b); k == Turned(R7200, sent, b) && Unturned(R7200, seen, k) == b
  {
    hide Step8, Raw8, Bit;
    Undone8(sent, b[0], b[1], b[2]);
    SameTurn(Turned(R7200, sent, b), Turned(R7200, sent, b), sent, seen);
  }

  lemma Symbol9600(sent: nat, seen: nat, b: Bits)
    requires sent < 8 && seen % 8 == sent && |b| == 4
    ensures var k := Symbol(R9600, sent, b); k % 8 == Turned(R9600, sent, b) && Unturned(R9600, seen, k) == b
  {
    hide Step8, Raw8, Bit;
    Undone8(sent, b[1], b[2], b[3]);
    SameTurn(Symbol(R9600, sent, b), Turned(R9600, sent, b), sent, seen);
  }

  /** The amplitude does not matter to the phase difference. */
  lemma SameTurn(k: nat, s: nat, sent: nat, seen: nat)
    requires k % 8 == s && seen % 8 == sent
    ensures (k - seen) % 8 == (s - sent) % 8
  {
    assert k - seen == (s - sent) + 8 * (k / 8 - seen / 8);
  }

  /** Points received near those sent are heard as them. */
  lemma NearIsHeard(rate: Rate, z: seq<Point>, p: seq<nat>)
    requires |z| == |p| && forall i :: 0 <= i < |p| ==> p[i] < 16 && Used(rate, p[i]) && Near(rate, z[i], Constellation(p[i]))
    ensures Heard(rate, z, p)
  {
    hide Decide, Near, Constellation;
    forall i | 0 <= i < |p| ensures Decide(rate, z[i]) == Decide(rate, Constellation(p[i])) {
      DecidesNear(rate, p[i], z[i]);
      DecidesItself(rate, p[i]);
    }
  }

  /** The phase and amplitude coding is undone. */
  lemma {:induction false} LineBack(rate: Rate, sent: nat, seen: nat, line: Bits, z: seq<Point>)
    requires InStep(rate, sent, seen) && |line| % BitsPer(rate) == 0 && Heard(rate, z, Symbols(rate, sent, line))
    ensures LineOf(rate, seen, z) == line
    decreases |line|
  {
    hide Decide, Constellation, Turned, Symbol, Unturned, InStep, Symbols, Heard;
    if line == [] {
      HeardLength(rate, z, Symbols(rate, sent, line));
    } else {
      var n := BitsPer(rate);
      var s := Turned(rate, sent, line[..n]);
      OneSymbol(rate, sent, seen, line[..n]);
      SymbolsUnfold(rate, sent, line);
      HeardRest(rate, z, Symbol(rate, sent, line[..n]), Symbols(rate, s, line[n..]));
      LineBack(rate, s, Decide(rate, z[0]), line[n..], z[1..]);
      assert line == line[..n] + line[n..];
    }
  }

  lemma HeardLength(rate: Rate, z: seq<Point>, p: seq<nat>)
    requires Heard(rate, z, p)
    ensures |z| == |p|
  {
  }

  lemma SymbolsUnfold(rate: Rate, state: nat, line: Bits)
    requires |line| % BitsPer(rate) == 0 && line != []
    ensures var n := BitsPer(rate);
            Symbols(rate, state, line) == [Symbol(rate, state, line[..n])] + Symbols(rate, Turned(rate, state, line[..n]), line[n..])
  {
    hide Turned, Symbol;
  }

  lemma HeardRest(rate: Rate, z: seq<Point>, s: nat, rest: seq<nat>)
    requires Heard(rate, z, [s] + rest) && s < 16
    ensures z != [] && Decide(rate, z[0]) == Decide(rate, Constellation(s)) && Heard(rate, z[1..], rest)
  {
    hide Decide, Constellation;
    assert ([s] + rest)[0] == s;
    forall i | 0 <= i < |rest| ensures rest[i] < 16 && Decide(rate, z[1..][i]) == Decide(rate, Constellation(rest[i])) {
      assert ([s] + rest)[i + 1] == rest[i] && z[1..][i] == z[i + 1];
    }
  }

  /** From equal registers the data come back, at every rate. */
  lemma DataRoundTrip(rate: Rate, h: History, sent: nat, seen: nat, data: Bits, z: seq<Point>)
    requires InStep(rate, sent, seen) && |data| % BitsPer(rate) == 0
    requires Heard(rate, z, Symbols(rate, sent, Scramble(Generator(), h, data)))
    ensures Descramble(Generator(), h, LineOf(rate, seen, z)) == data
  {
    hide Heard, Symbols, LineOf, Scramble, Descramble, InStep;
    LineBack(rate, sent, seen, Scramble(Generator(), h, data), z);
    DescrambleInverts(Generator(), h, data);
  }

  /** From any register all data but the first 23 bits come back. */
  lemma DataAfterSync(rate: Rate, h: History, g: History, sent: nat, seen: nat, data: Bits, z: seq<Point>, k: nat)
    requires InStep(rate, sent, seen) && |data| % BitsPer(rate) == 0 && SYNC <= k < |data|
    requires Heard(rate, z, Symbols(rate, sent, Scramble(Generator(), h, data)))
    ensures |LineOf(rate, seen, z)| == |data| && Descramble(Generator(), g, LineOf(rate, seen, z))[k] == data[k]
  {
    hide Heard, Symbols, LineOf, Scramble, Descramble, InStep;
    LineBack(rate, sent, seen, Scramble(Generator(), h, data), z);
    SelfSynchronising(Generator(), h, g, data, k);
  }
}
