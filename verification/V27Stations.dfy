/** Sender and receiver of the V.27ter modem in data mode (nf_v27.c: nf_v27_tx_t, nf_v27_rx_t). */
module V27Stations {
  import opened BitIo
  import opened PhaseSteps
  import opened Plane
  import opened V34Scrambler
  import opened V27Modem

  lemma OneBit(g: Guarded, d: bool, v: bool)
    requires v == Exor(d, Added(g))
    ensures ScrambleAll(g, [d]) == [v] && DescrambleAll(g, [v]) == [d] && StateAfter(g, [v]) == Next(g, v)
  {
    hide Added, Next;
    assert [d][1..] == [] && [v][1..] == [];
    assert ScrambleAll(Next(g, v), []) == [] && DescrambleAll(Next(g, v), []) == [];
    assert StateAfter(Next(g, v), []) == Next(g, v);
  }

  class Sender {
    const rate: Rate
    const data: Bits
    var pos: nat
    var ended: bool
    var reg: History
    var count: nat
    var state: nat

    /** Among others: the guard counter never passes 33. */
    ghost predicate Valid()
      reads this
    {
      state < 8 && pos <= |data| && (ended ==> pos == |data|) && count <= GUARD
    }

    ghost function Guard(): Guarded
      reads this`reg, this`count
    {
      Guarded(reg, count)
    }

    constructor (r: Rate, d: Bits, start: History, c: nat, phase: nat)
      requires phase < 8 && c <= GUARD
      ensures Valid() && rate == r && data == d && pos == 0 && !ended && Guard() == Guarded(start, c) && state == phase
    {
      rate, data := r, d;
      pos, ended := 0, false;
      reg, count, state := start, c, phase;
    }

    /** v27_scramble. */
    method ScrambleBit(bit: bool) returns (v: bool)
      requires Valid()
      modifies this`reg, this`count
      ensures Valid()
      ensures v == Exor(bit, Added(old(Guard()))) && Guard() == Next(old(Guard()), v)
    {
      v := Exor(bit, Exor(reg[5], reg[6]));
      if count >= GUARD {
        v := !v;
        count := 0;
      } else if reg[7] != v && reg[8] != v && reg[11] != v {
        count := 0;
      } else {
        count := count + 1;
      }
      reg := Push(reg, v);
    }

    /** get_scrambled_bit: at the end of the data the supply of ones takes over. */
    method GetScrambledBit() returns (v: bool)
      requires Valid()
      modifies this`pos, this`ended, this`reg, this`count
      ensures Valid()
      ensures [v] == ScrambleAll(old(Guard()), Coming(data, old(pos), 1)) && Guard() == StateAfter(old(Guard()), [v])
      ensures pos == if old(pos) < |data| then old(pos) + 1 else old(pos)
      ensures ended == (old(ended) || old(pos) == |data|)
    {
      hide Added, Next;
      var bit := true;
      if !ended {
        if pos < |data| {
          bit := data[pos];
          pos := pos + 1;
        } else {
          ended := true;
        }
      }
      v := ScrambleBit(bit);
      OneBit(old(Guard()), bit, v);
      assert Coming(data, old(pos), 1) == [bit];
    }

    /** The bits of one symbol. */
    method Group(n: nat) returns (line: Bits)
      requires Valid()
      modifies this`pos, this`ended, this`reg, this`count
      ensures Valid() && line == ScrambleAll(old(Guard()), Coming(data, old(pos), n)) && Guard() == StateAfter(old(Guard()), line)
      ensures pos == if old(pos) + n < |data| then old(pos) + n else |data|
    {
      hide ScrambleAll, StateAfter, Coming, Guard;
      line := [];
      ghost var g, p := Guard(), pos;
      NoBits(g, data, p);
      for i := 0 to n
        invariant Valid() && pos == (if p + i < |data| then p + i else |data|)
        invariant line == ScrambleAll(g, Coming(data, p, i)) && Guard() == StateAfter(g, line)
      {
        ComingEnded(data, pos, p + i, 1);
        ComingAppend(data, p, i, 1);
        ScrambleAllAppend(g, Coming(data, p, i), Coming(data, p + i, 1));
        var v := GetScrambledBit();
        DescrambleAllAppend(g, line, [v]);
        line := line + [v];
      }
    }

    /** The data branch of v27_getbaud. */
    method GetBaud() returns (p: nat)
      requires Valid()
      modifies this`pos, this`ended, this`reg, this`count, this`state
      ensures Valid() && p == state && pos == if old(pos) + BitsPer(rate) < |data| then old(pos) + BitsPer(rate) else |data|
      ensures var line := ScrambleAll(old(Guard()), Coming(data, old(pos), BitsPer(rate)));
              Guard() == StateAfter(old(Guard()), line) && p == Turned(rate, old(state), line)
    {
      hide ScrambleAll, StateAfter, Coming, Guard;
      var line := Group(BitsPer(rate));
      var step := if rate.R4800? then Step8(line[0], line[1], line[2]) else Step4(line[0], line[1]);
      state := (state + step) % 8;
      p := state;
    }
  }

  lemma NoBits(g: Guarded, data: Bits, p: nat)
    ensures ScrambleAll(g, []) == [] && DescrambleAll(g, []) == [] && StateAfter(g, []) == g && Coming(data, p, 0) == []
  {
  }

  class Receiver {
    const rate: Rate
    var reg: History
    var count: nat
    /** The last decision: quarters at 2400, eighths at 4800. */
    var state: nat
    /** STAGE_NORMAL; otherwise the test ones are being stripped. */
    var normal: bool
    var delivered: Bits

    ghost predicate Valid()
      reads this`state, this`count
    {
      state < (if rate.R4800? then 8 else 4) && count <= GUARD
    }

    ghost function Guard(): Guarded
      reads this`reg, this`count
    {
      Guarded(reg, count)
    }

    constructor (r: Rate, start: History, c: nat, seen: nat)
      requires seen < (if r.R4800? then 8 else 4) && c <= GUARD
      ensures Valid() && rate == r && Guard() == Guarded(start, c) && state == seen && normal && delivered == []
    {
      rate, reg, count, state, normal, delivered := r, start, c, seen, true, [];
    }

    /** v27_put_bit with v27_descramble outside training. */
    method PutBit(bit: bool)
      requires Valid()
      modifies this`reg, this`count, this`delivered
      ensures Valid()
      ensures Guard() == StateAfter(old(Guard()), [bit])
      ensures delivered == old(delivered) + if normal then DescrambleAll(old(Guard()), [bit]) else []
    {
      ghost var g := Guard();
      var out := Exor(bit, Exor(reg[5], reg[6]));
      if count >= GUARD {
        out := !out;
        count := 0;
      } else if reg[7] != bit && reg[8] != bit && reg[11] != bit {
        count := 0;
      } else {
        count := count + 1;
      }
      reg := Push(reg, bit);
      OneBit(g, out, bit);
      if normal { delivered := delivered + [out]; }
    }

    method PutBits(line: Bits)
      requires Valid()
      modifies this`reg, this`count, this`delivered
      ensures Valid()
      ensures Guard() == StateAfter(old(Guard()), line)
      ensures delivered == old(delivered) + if normal then DescrambleAll(old(Guard()), line) else []
    {
      hide StateAfter, DescrambleAll, Guard;
      ghost var g := Guard();
      NoBits(g, [], 0);
      assert line[..0] == [];
      for i := 0 to |line|
        invariant Valid() && Guard() == StateAfter(g, line[..i])
        invariant delivered == old(delivered) + if normal then DescrambleAll(g, line[..i]) else []
      {
        PutBit(line[i]);
        assert line[..i + 1] == line[..i] + [line[i]];
        DescrambleAllAppend(g, line[..i], [line[i]]);
      }
      assert line[..|line|] == line;
    }

    /** v27_decode_baud. */
    method DecodeBaud(z: Point) returns (nearest: nat)
      requires Valid()
      modifies this`reg, this`count, this`delivered, this`state
      ensures Valid() && state == Decide(rate, z)
      ensures nearest == if rate.R2400? then 2 * state else state
      ensures var line := Unturned(rate, old(state), state);
              && Guard() == StateAfter(old(Guard()), line)
              && delivered == old(delivered) + if normal then DescrambleAll(old(Guard()), line) else []
    {
      hide StateAfter, DescrambleAll, Guard, Decide, Raw4, Raw8, Bit;
      nearest := Decide(rate, z);
      if rate.R2400? {
        var raw := Raw4((nearest - state) % 4);
        PutBits([Bit(raw, 0), Bit(raw, 1)]);
        state := nearest;
        nearest := 2 * nearest;
      } else {
        var raw := Raw8((nearest - state) % 8);
        PutBits([Bit(raw, 0), Bit(raw, 1), Bit(raw, 2)]);
        state := nearest;
      }
    }
  }

  /** A run of `n` symbols between stations with equal registers and guard counters: the
      receiver delivers the data, then the ones the sender ends on.  The channel may displace
      points as long as their decision stands. */
  method Transfer(tx: Sender, rx: Receiver, n: nat, channel: (nat, nat) -> Point)
    requires tx.Valid() && rx.Valid() && tx.rate == rx.rate && rx.normal
    requires tx.Guard() == rx.Guard() && InStep(tx.rate, tx.state, rx.state)
    requires forall i, q :: 0 <= q < 8 ==> Decide(tx.rate, channel(i, q)) == Decide(tx.rate, Constellation(q))
    modifies tx`pos, tx`ended, tx`reg, tx`count, tx`state, rx`reg, rx`count, rx`delivered, rx`state
    ensures tx.Valid() && rx.Valid() && tx.Guard() == rx.Guard() && InStep(tx.rate, tx.state, rx.state)
    ensures rx.delivered == old(rx.delivered) + Coming(tx.data, old(tx.pos), n * BitsPer(tx.rate))
  {
    hide StateAfter, ScrambleAll, DescrambleAll, Sender.Guard, Receiver.Guard, InStep, Constellation, Turned, Unturned, Coming, Decide;
    var rate := tx.rate;
    var k := BitsPer(rate);
    ghost var data, p, was := tx.data, tx.pos, rx.delivered;
    NoBits(tx.Guard(), data, p);
    ghost var m: nat := 0;
    for i := 0 to n
      invariant tx.Valid() && rx.Valid() && tx.Guard() == rx.Guard() && InStep(rate, tx.state, rx.state) && m == i * k
      invariant tx.pos == if p + m < |data| then p + m else |data|
      invariant rx.delivered == was + Coming(data, p, m)
    {
      ghost var g, sent, seen := tx.Guard(), tx.state, rx.state;
      ghost var d := Coming(data, tx.pos, k);
      ghost var line := ScrambleAll(g, d);
      ComingEnded(data, tx.pos, p + m, k);
      ComingAppend(data, p, m, k);
      OneSymbol(rate, sent, seen, line);
      DescrambledBack(g, d);
      var q := tx.GetBaud();
      var nearest := rx.DecodeBaud(channel(i, q));
      m := m + k;
    }
  }
}
