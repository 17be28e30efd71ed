/** The bit pipeline of the V.27ter modem (ITU-T V.27 ter; nf_v27.c) in data mode: scrambler
    with guard counter, differential phase coding, decision, descrambler. */
module V27Modem {
  import opened BitIo
  import opened PhaseSteps
  import opened Plane
  import opened V34Scrambler

  const GUARD: nat := 33
  /** The longest delay looked at. */
  const SPAN: nat := 12

  /** The shift register, the latest line bit first, and the guard counter. */
  datatype Guarded = Guarded(reg: History, count: nat)

  /** The line bit differs from those 8, 9 and 12 bits before. */
  predicate Fresh(reg: History, bit: bool) {
    reg[7] != bit && reg[8] != bit && reg[11] != bit
  }

  /** What is added to the data bit. */
  function Added(g: Guarded): bool {
    (g.reg[5] != g.reg[6]) != (g.count >= GUARD)
  }

  /** The state after a line bit. */
  function Next(g: Guarded, bit: bool): Guarded {
    Guarded(Push(g.reg, bit), if g.count >= GUARD || Fresh(g.reg, bit) then 0 else g.count + 1)
  }

  function ScrambleAll(g: Guarded, data: Bits): (line: Bits)
    ensures |line| == |data|
    decreases |data|
  {
    if data == [] then []
    else
      var v := Exor(data[0], Added(g));
      [v] + ScrambleAll(Next(g, v), data[1..])
  }

  function DescrambleAll(g: Guarded, line: Bits): (data: Bits)
    ensures |data| == |line|
    decreases |line|
  {
    if line == [] then [] else [Exor(line[0], Added(g))] + DescrambleAll(Next(g, line[0]), line[1..])
  }

  function StateAfter(g: Guarded, line: Bits): Guarded
    decreases |line|
  {
    if line == [] then g else StateAfter(Next(g, line[0]), line[1..])
  }

  /** From equal states the guard counters stay in step and the data come back. */
  lemma {:induction false} DescrambledBack(g: Guarded, data: Bits)
    ensures DescrambleAll(g, ScrambleAll(g, data)) == data
    decreases |data|
  {
    hide Added, Next;
    if data != [] {
      var v := Exor(data[0], Added(g));
      assert ScrambleAll(g, data)[1..] == ScrambleAll(Next(g, v), data[1..]);
      DescrambledBack(Next(g, v), data[1..]);
      assert data == [data[0]] + data[1..];
    }
  }

  lemma {:induction false} ScrambleAllAppend(g: Guarded, a: Bits, b: Bits)
    ensures ScrambleAll(g, a + b) == ScrambleAll(g, a) + ScrambleAll(StateAfter(g, ScrambleAll(g, a)), b)
    decreases |a|
  {
    hide Added, Next;
    if a == [] {
      assert a + b == b;
    } else {
      var v := Exor(a[0], Added(g));
      assert (a + b)[0] == a[0] && (a + b)[1..] == a[1..] + b;
      ScrambleAllAppend(Next(g, v), a[1..], b);
      assert ScrambleAll(g, a)[1..] == ScrambleAll(Next(g, v), a[1..]);
    }
  }

  lemma {:induction false} DescrambleAllAppend(g: Guarded, a: Bits, b: Bits)
    ensures DescrambleAll(g, a + b) == DescrambleAll(g, a) + DescrambleAll(StateAfter(g, a), b)
    ensures StateAfter(g, a + b) == StateAfter(StateAfter(g, a), b)
    decreases |a|
  {
    hide Added, Next;
    if a == [] {
      assert a + b == b;
    } else {
      assert (a + b)[0] == a[0] && (a + b)[1..] == a[1..] + b;
      DescrambleAllAppend(Next(g, a[0]), a[1..], b);
    }
  }

  // ---------------------------------------------------------------- what the generator does

  /** A data bit is the sum of its line bit and those 6 and 7 before it, inverted when the guard
      counter is full. */
  lemma {:induction false} DescrambledAt(g: Guarded, line: Bits, k: nat)
    requires k < |line|
    ensures DescrambleAll(g, line)[k]
         == Exor(Exor(line[k], StateAfter(g, line[..k]).count >= GUARD), Exor(LineBitAt(g.reg, line, k - 6), LineBitAt(g.reg, line, k - 7)))
    decreases k
  {
    hide Fresh;
    if k > 0 {
      DescrambledAt(Next(g, line[0]), line[1..], k - 1);
      assert line[..k][1..] == line[1..][..k - 1];
    }
  }

  /** Each line bit repeats the one `p` before it. */
  predicate Repeats(g: Guarded, line: Bits, p: nat)
    requires p <= DEPTH
  {
    forall k :: 0 <= k < |line| ==> line[k] == LineBitAt(g.reg, line, k - p)
  }

  /** The guard counts through repetition at a distance of 8, 9 or 12, and so of any divisor of
      them, until it is full and inverts a bit. */
  lemma {:induction false} RepetitionCounts(g: Guarded, line: Bits, p: nat)
    requires p == 8 || p == 9 || p == 12
    requires Repeats(g, line, p) && g.count + |line| <= GUARD
    ensures StateAfter(g, line).count == g.count + |line|
    decreases |line|
  {
    if line != [] {
      assert line[0] == LineBitAt(g.reg, line, 0 - p) == g.reg[p - 1];
      var h := Next(g, line[0]);
      forall k | 0 <= k < |line[1..]| ensures line[1..][k] == LineBitAt(h.reg, line[1..], k - p) {
        assert line[k + 1] == LineBitAt(g.reg, line, k + 1 - p);
      }
      RepetitionCounts(h, line[1..], p);
    }
  }

  // ---------------------------------------------------------------- resynchronising

  /** Alike as far as the descrambler looks. */
  predicate SameSpan(g: Guarded, h: Guarded) {
    g.reg[..SPAN] == h.reg[..SPAN]
  }

  lemma {:induction false} RegistersAgree(g: Guarded, h: Guarded, line: Bits, n: nat)
    requires n <= DEPTH && g.reg[..n] == h.reg[..n]
    ensures var m := if n + |line| < DEPTH then n + |line| else DEPTH; StateAfter(g, line).reg[..m] == StateAfter(h, line).reg[..m]
    decreases |line|
  {
    hide Fresh;
    if line != [] {
      var g', h' := Next(g, line[0]), Next(h, line[0]);
      var m := if n < DEPTH then n + 1 else DEPTH;
      assert g.reg[..m - 1] == g.reg[..n][..m - 1] && h.reg[..m - 1] == h.reg[..n][..m - 1];
      assert g'.reg[..m] == [line[0]] + g.reg[..m - 1] && h'.reg[..m] == [line[0]] + h.reg[..m - 1];
      RegistersAgree(g', h', line[1..], m);
    }
  }

  /** One fresh line bit puts both counters to zero, wherever they stood. */
  lemma FreshBitAligns(g: Guarded, h: Guarded, bit: bool)
    requires SameSpan(g, h) && Fresh(g.reg, bit)
    ensures Next(g, bit).count == Next(h, bit).count == 0 && SameSpan(Next(g, bit), Next(h, bit))
  {
    SpanGives(g, h);
    var a, b := Push(g.reg, bit), Push(h.reg, bit);
    assert a[..SPAN] == [bit] + g.reg[..SPAN][..SPAN - 1] && b[..SPAN] == [bit] + h.reg[..SPAN][..SPAN - 1];
  }

  lemma SpanGives(g: Guarded, h: Guarded)
    requires SameSpan(g, h)
    ensures forall i :: 0 <= i < SPAN ==> g.reg[i] == h.reg[i]
  {
    forall i | 0 <= i < SPAN ensures g.reg[i] == h.reg[i] { assert g.reg[..SPAN][i] == h.reg[..SPAN][i]; }
  }

  /** Once aligned, two descramblers give the same data for ever. */
  lemma {:induction false} AlignedForEver(g: Guarded, h: Guarded, line: Bits)
    requires SameSpan(g, h) && g.count == h.count
    ensures DescrambleAll(g, line) == DescrambleAll(h, line)
    decreases |line|
  {
    if line != [] {
      SpanGives(g, h);
      var a, b := Next(g, line[0]), Next(h, line[0]);
      assert a.reg[..SPAN] == [line[0]] + g.reg[..SPAN][..SPAN - 1] && b.reg[..SPAN] == [line[0]] + h.reg[..SPAN][..SPAN - 1];
      AlignedForEver(a, b, line[1..]);
    }
  }

  /** From any state, twelve line bits and one fresh bit synchronise register and guard
      counter: all data after them come out right. */
  lemma GuardResynchronises(g: Guarded, h: Guarded, before: Bits, bit: bool, data: Bits)
    requires |before| >= SPAN && Fresh(StateAfter(g, before).reg, bit)
    ensures var t := Next(StateAfter(g, before), bit); var r := Next(StateAfter(h, before), bit);
            DescrambleAll(r, ScrambleAll(t, data)) == data
  {
    hide Fresh, Next, DescrambleAll, ScrambleAll;
    var u, v := StateAfter(g, before), StateAfter(h, before);
    RegistersAgree(g, h, before, 0);
    var m := if |before| < DEPTH then |before| else DEPTH;
    assert u.reg[..SPAN] == u.reg[..m][..SPAN] && v.reg[..SPAN] == v.reg[..m][..SPAN];
    FreshBitAligns(u, v, bit);
    var t, r := Next(u, bit), Next(v, bit);
    AlignedForEver(t, r, ScrambleAll(t, data));
    DescrambledBack(t, data);
  }

  /** Among any 34 line bits in a row one is fresh or inverted by the guard. */
  lemma {:induction false} GuardActs(g: Guarded, line: Bits) returns (k: nat)
    requires g.count <= GUARD && g.count + |line| > GUARD
    ensures k < |line| && StateAfter(g, line[..k]).count <= GUARD
    ensures var u := StateAfter(g, line[..k]); u.count == GUARD || Fresh(u.reg, line[k])
    decreases |line|
  {
    hide Fresh;
    if g.count == GUARD || Fresh(g.reg, line[0]) {
      k := 0;
      assert line[..0] == [];
    } else {
      var j := GuardActs(Next(g, line[0]), line[1..]);
      k := j + 1;
      assert line[..k][0] == line[0] && line[..k][1..] == line[1..][..j];
    }
  }

  // ---------------------------------------------------------------- phases

  datatype Rate = R2400 | R4800

  function BitsPer(rate: Rate): nat {
    if rate.R4800? then 3 else 2
  }

  /** The constellation, in eighths of a turn. */
  function Constellation(k: nat): Point
    requires k < 8
  {
    [Point(1.414, 0.0), Point(1.0, 1.0), Point(0.0, 1.414), Point(-1.0, 1.0),
     Point(-1.414, 0.0), Point(-1.0, -1.0), Point(0.0, -1.414), Point(1.0, -1.0)][k]
  }

  function Abs(x: real): real {
    if x < 0.0 then 0.0 - x else x
  }

  function FindOctant(z: Point): (k: nat)
    ensures k < 8
  {
    var re, im := Abs(z.re), Abs(z.im);
    if im > re * 0.4142136 && im < re * 2.4142136 then
      var b1, b2 := z.re < 0.0, z.im < 0.0;
      4 * Num(b2) + 2 * Num(b1 != b2) + 1
    else
      var b1, b2 := z.im > z.re, z.im < 0.0 - z.re;
      4 * Num(b2) + 2 * Num(b1 != b2)
  }

  /** The receiver's decision: quarters at 2400, eighths at 4800. */
  function Decide(rate: Rate, z: Point): (k: nat)
    ensures k < if rate.R4800? then 8 else 4
  {
    if rate.R4800? then FindOctant(z) else FindQuadrant(z)
  }

  /** Received so near, in both directions, that the decision stands. */
  predicate Near(rate: Rate, z: Point, c: Point) {
    var r := if rate.R4800? then 0.414 else 0.707;
    c.re - r < z.re < c.re + r && c.im - r < z.im < c.im + r
  }

  /** Every constellation point is decided as itself. */
  lemma DecidesItself(rate: Rate, k: nat)
    requires k < 8 && (rate.R2400? ==> k % 2 == 0)
    ensures Decide(rate, Constellation(k)) == if rate.R4800? then k else k / 2
  {
    hide Constellation, Decide;
    DecidesNear(rate, k, Constellation(k));
  }

  /** Every point received near a constellation point is decided as that one. */
  lemma DecidesNear(rate: Rate, k: nat, z: Point)
    requires k < 8 && (rate.R2400? ==> k % 2 == 0) && Near(rate, z, Constellation(k))
    ensures Decide(rate, z) == if rate.R4800? then k else k / 2
  {
    if k == 0 { assert Constellation(0) == Point(1.414, 0.0); }
    else if k == 1 { assert Constellation(1) == Point(1.0, 1.0); }
    else if k == 2 { assert Constellation(2) == Point(0.0, 1.414); }
    else if k == 3 { assert Constellation(3) == Point(-1.0, 1.0); }
    else if k == 4 { assert Constellation(4) == Point(-1.414, 0.0); }
    else if k == 5 { assert Constellation(5) == Point(-1.0, -1.0); }
    else if k == 6 { assert Constellation(6) == Point(0.0, -1.414); }
    else { assert Constellation(7) == Point(1.0, -1.0); }
  }

  function Turned(rate: Rate, state: nat, b: Bits): (s: nat)
    requires |b| == BitsPer(rate)
    ensures s < 8
  {
    (state + if rate.R4800? then Step8(b[0], b[1], b[2]) else Step4(b[0], b[1])) % 8
  }

  /** The phases sent for a line stream of whole symbols. */
  function Phases(rate: Rate, state: nat, line: Bits): (p: seq<nat>)
    requires |line| % BitsPer(rate) == 0
    ensures |p| == |line| / BitsPer(rate) && forall i :: 0 <= i < |p| ==> p[i] < 8
    decreases |line|
  {
    if line == [] then []
    else
      var n := BitsPer(rate);
      var s := Turned(rate, state, line[..n]);
      [s] + Phases(rate, s, line[n..])
  }

  function Unturned(rate: Rate, state: nat, nearest: nat): (b: Bits)
    ensures |b| == BitsPer(rate)
  {
    if rate.R4800? then
      var raw := Raw8((nearest - state) % 8);
      [Bit(raw, 0), Bit(raw, 1), Bit(raw, 2)]
    else
      var raw := Raw4((nearest - state) % 4);
      [Bit(raw, 0), Bit(raw, 1)]
  }

  /** The line bits of received points. */
  function LineOf(rate: Rate, state: nat, z: seq<Point>): (line: Bits)
    ensures |line| == BitsPer(rate) * |z|
    decreases |z|
  {
    if z == [] then []
    else
      var k := Decide(rate, z[0]);
      Unturned(rate, state, k) + LineOf(rate, k, z[1..])
  }

  /** Sender's phase and receiver's last decision belong together; at 2400 the receiver counts
      quarters and the phase is even. */
  predicate InStep(rate: Rate, sent: nat, seen: nat) {
    sent < 8 && if rate.R4800? then seen == sent else sent == 2 * seen
  }

  /** Received points decided like the sent ones, whatever the noise. */
  predicate Heard(rate: Rate, z: seq<Point>, p: seq<nat>) {
    |z| == |p| && forall i :: 0 <= i < |p| ==> p[i] < 8 && Decide(rate, z[i]) == Decide(rate, Constellation(p[i]))
  }

  lemma OneSymbol(rate: Rate, sent: nat, seen: nat, b: Bits)
    requires InStep(rate, sent, seen) && |b| == BitsPer(rate)
    ensures var s := Turned(rate, sent, b); var k := Decide(rate, Constellation(s));
            InStep(rate, s, k) && Unturned(rate, seen, k) == b
  {
    hide Decide, Constellation, Step8, Step4, Raw8, Raw4, Bit;
    var s := Turned(rate, sent, b);
    if rate.R4800? {
      Undone8(sent, b[0], b[1], b[2]);
      DecidesItself(rate, s);
    } else {
      Undone4(seen, b[0], b[1]);
      DecidesItself(rate, s);
    }
  }

  /** Points received near those sent are heard as them. */
  lemma NearIsHeard(rate: Rate, z: seq<Point>, p: seq<nat>)
    requires |z| == |p| && forall i :: 0 <= i < |p| ==> p[i] < 8 && (rate.R2400? ==> p[i] % 2 == 0) && Near(rate, z[i], Constellation(p[i]))
    ensures Heard(rate, z, p)
  {
    hide Decide, Near, Constellation;
    forall i | 0 <= i < |p| ensures Decide(rate, z[i]) == Decide(rate, Constellation(p[i])) {
      DecidesNear(rate, p[i], z[i]);
      DecidesItself(rate, p[i]);
    }
  }

  /** The phase coding is undone. */
  lemma {:induction false} LineBack(rate: Rate, sent: nat, seen: nat, line: Bits, z: seq<Point>)
    requires InStep(rate, sent, seen) && |line| % BitsPer(rate) == 0 && Heard(rate, z, Phases(rate, sent, line))
    ensures LineOf(rate, seen, z) == line
    decreases |line|
  {
    hide Decide, Constellation, Turned, Unturned, InStep, Phases, Heard;
    if line == [] {
      HeardLength(rate, z, Phases(rate, sent, line));
    } else {
      var n := BitsPer(rate);
      var s := Turned(rate, sent, line[..n]);
      OneSymbol(rate, sent, seen, line[..n]);
      PhasesUnfold(rate, sent, line);
      HeardRest(rate, z, s, Phases(rate, s, line[n..]));
      LineBack(rate, s, Decide(rate, z[0]), line[n..], z[1..]);
      assert line == line[..n] + line[n..];
    }
  }

  lemma HeardLength(rate: Rate, z: seq<Point>, p: seq<nat>)
    requires Heard(rate, z, p)
    ensures |z| == |p|
  {
  }

  lemma PhasesUnfold(rate: Rate, state: nat, line: Bits)
    requires |line| % BitsPer(rate) == 0 && line != []
    ensures var n := BitsPer(rate); var s := Turned(rate, state, line[..n]); Phases(rate, state, line) == [s] + Phases(rate, s, line[n..])
  {
    hide Turned;
  }

  lemma HeardRest(rate: Rate, z: seq<Point>, s: nat, rest: seq<nat>)
    requires Heard(rate, z, [s] + rest) && s < 8
    ensures z != [] && Decide(rate, z[0]) == Decide(rate, Constellation(s)) && Heard(rate, z[1..], rest)
  {
    hide Decide, Constellation;
    assert ([s] + rest)[0] == s;
    forall i | 0 <= i < |rest| ensures rest[i] < 8 && Decide(rate, z[1..][i]) == Decide(rate, Constellation(rest[i])) {
      assert ([s] + rest)[i + 1] == rest[i] && z[1..][i] == z[i + 1];
    }
  }

  /** Scrambled, grouped, mapped to phases, decided and descrambled: from equal states the data
      come back, in both rates. */
  lemma DataRoundTrip(rate: Rate, g: Guarded, sent: nat, seen: nat, data: Bits, z: seq<Point>)
    requires InStep(rate, sent, seen) && |data| % BitsPer(rate) == 0
    requires Heard(rate, z, Phases(rate, sent, ScrambleAll(g, data)))
    ensures DescrambleAll(g, LineOf(rate, seen, z)) == data
  {
    hide Heard, Phases, LineOf, ScrambleAll, DescrambleAll, InStep;
    LineBack(rate, sent, seen, ScrambleAll(g, data), z);
    DescrambledBack(g, data);
  }
}
