/** Sender and receiver of the V.29 modem in data mode (nf_v29.c: nf_v29_tx_t, nf_v29_rx_t). */
module V29Stations {
  import opened BitIo
  import opened PhaseSteps
  import opened Plane
  import opened V34Scrambler
  import opened V29Modem

  lemma OneBit(h: History, d: bool, v: bool)
    requires v == Exor(d, Mask(Generator(), h))
    ensures Scramble(Generator(), h, [d]) == [v] && Descramble(Generator(), h, [v]) == [d] && After(h, [v]) == Push(h, v)
  {
    hide Mask, Push;
    assert [d][1..] == [] && [v][1..] == [];
    assert Scramble(Generator(), Push(h, v), []) == [] && Descramble(Generator(), Push(h, v), []) == [];
    assert After(Push(h, v), []) == Push(h, v);
  }

  lemma NoBits(h: History, data: Bits, p: nat)
    ensures Scramble(Generator(), h, []) == [] && Descramble(Generator(), h, []) == [] && After(h, []) == h && Coming(data, p, 0) == []
  {
  }

  class Sender {
    const rate: Rate
    const data: Bits
    var pos: nat
    var ended: bool
    var reg: History
    var state: nat

    ghost predicate Valid()
      reads this
    {
      state < 8 && pos <= |data| && (ended ==> pos == |data|)
    }

    constructor (r: Rate, d: Bits, start: History, phase: nat)
      requires phase < 8
      ensures Valid() && rate == r && data == d && pos == 0 && !ended && reg == start && state == phase
    {
      rate, data := r, d;
      pos, ended := 0, false;
      reg, state := start, phase;
    }

    /** get_scrambled_bit: at the end of the data the supply of ones takes over. */
    method GetScrambledBit() returns (v: bool)
      requires Valid()
      modifies this`pos, this`ended, this`reg
      ensures Valid()
      ensures [v] == Scramble(Generator(), old(reg), Coming(data, old(pos), 1)) && reg == After(old(reg), [v])
      ensures pos == if old(pos) < |data| then old(pos) + 1 else old(pos)
      ensures ended == (old(ended) || old(pos) == |data|)
    {
      hide Push;
      var bit := true;
      if !ended {
        if pos < |data| {
          bit := data[pos];
          pos := pos + 1;
        } else {
          ended := true;
        }
      }
      v := Exor(bit, Exor(reg[17], reg[22]));
      reg := Push(reg, v);
      OneBit(old(reg), bit, v);
      assert Coming(data, old(pos), 1) == [bit];
    }

    /** The bits of one symbol. */
    method Group(n: nat) returns (line: Bits)
      requires Valid()
      modifies this`pos, this`ended, this`reg
      ensures Valid() && line == Scramble(Generator(), old(reg), Coming(data, old(pos), n)) && reg == After(old(reg), line)
      ensures pos == if old(pos) + n < |data| then old(pos) + n else |data|
    {
      hide Scramble, After, Coming;
      line := [];
      ghost var h, p := reg, pos;
      NoBits(h, data, p);
      for i := 0 to n
        invariant Valid() && pos == (if p + i < |data| then p + i else |data|)
        invariant line == Scramble(Generator(), h, Coming(data, p, i)) && reg == After(h, line)
      {
        ComingEnded(data, pos, p + i, 1);
        ComingAppend(data, p, i, 1);
        ScrambleAppend(Generator(), h, Coming(data, p, i), Coming(data, p + i, 1));
        var v := GetScrambledBit();
        AfterAppend(h, line, [v]);
        line := line + [v];
      }
    }

    /** The data branch of v29_getbaud. */
    method GetBaud() returns (k: nat)
      requires Valid()
      modifies this`pos, this`ended, this`reg, this`state
      ensures Valid() && pos == if old(pos) + BitsPer(rate) < |data| then old(pos) + BitsPer(rate) else |data|
      ensures var line := Scramble(Generator(), old(reg), Coming(data, old(pos), BitsPer(rate)));
              reg == After(old(reg), line) && state == Turned(rate, old(state), line) && k == Symbol(rate, old(state), line)
    {
      hide Scramble, After, Coming;
      var line := Group(BitsPer(rate));
      var amp := if rate.R9600? && line[0] then 8 else 0;
      var step := match rate
                  case R4800 => Step4(line[0], line[1])
                  case R7200 => Step8(line[0], line[1], line[2])
                  case R9600 => Step8(line[1], line[2], line[3]);
      state := (state + step) % 8;
      k := amp + state;
    }
  }

  class Receiver {
    const rate: Rate
    var reg: History
    /** The last decision, amplitude included. */
    var state: nat
    /** STAGE_NORMAL; otherwise the test ones are being stripped. */
    var normal: bool
    var delivered: Bits

    constructor (r: Rate, start: History, seen: nat)
      ensures rate == r && reg == start && state == seen && normal && delivered == []
    {
      rate, reg, state, normal, delivered := r, start, seen, true, [];
    }

    /** v29_put_bit. */
    method PutBit(bit: bool)
      modifies this`reg, this`delivered
      ensures reg == After(old(reg), [bit])
      ensures delivered == old(delivered) + if normal then Descramble(Generator(), old(reg), [bit]) else []
    {
      hide Push;
      var out := Exor(bit, Exor(reg[17], reg[22]));
      reg := Push(reg, bit);
      OneBit(old(reg), out, bit);
      if normal { delivered := delivered + [out]; }
    }

    method PutBits(line: Bits)
      modifies this`reg, this`delivered
      ensures reg == After(old(reg), line)
      ensures delivered == old(delivered) + if normal then Descramble(Generator(), old(reg), line) else []
    {
      hide After, Descramble;
      ghost var h := reg;
      NoBits(h, [], 0);
      assert line[..0] == [];
      for i := 0 to |line|
        invariant reg == After(h, line[..i])
        invariant delivered == old(delivered) + if normal then Descramble(Generator(), h, line[..i]) else []
      {
        PutBit(line[i]);
        assert line[..i + 1] == line[..i] + [line[i]];
        DescrambleAppend(Generator(), h, line[..i], [line[i]]);
        AfterAppend(h, line[..i], [line[i]]);
      }
      assert line[..|line|] == line;
    }

    /** v29_decode_baud. */
    method DecodeBaud(z: Point)
      modifies this`reg, this`delivered, this`state
      ensures state == Decide(rate, z)
      ensures var line := Unturned(rate, old(state), state);
              && reg == After(old(reg), line)
              && delivered == old(delivered) + if normal then Descramble(Generator(), old(reg), line) else []
    {
      hide After, Descramble, Decide, Raw4, Raw8, Bit;
      var nearest := Decide(rate, z);
      if rate.R4800? {
        var raw := Raw4((nearest - state) / 2 % 4);
        PutBits([Bit(raw, 0), Bit(raw, 1)]);
      } else {
        var amp := if rate.R9600? then [nearest >= 8] else [];
        var raw := Raw8((nearest - state) % 8);
        PutBits(amp + [Bit(raw, 0), Bit(raw, 1), Bit(raw, 2)]);
      }
      state := nearest;
    }
  }

  lemma UsedSymbol(rate: Rate, sent: nat, seen: nat, b: Bits)
    requires InStep(rate, sent, seen) && |b| == BitsPer(rate)
    ensures Used(rate, Symbol(rate, sent, b))
  {
    hide Step8;
  }

  /** A run of `n` symbols between stations with equal registers: the receiver delivers the
      data, then the ones the sender ends on.  The channel may displace points as long as
      their decision stands. */
  method Transfer(tx: Sender, rx: Receiver, n: nat, channel: (nat, nat) -> Point)
    requires tx.Valid() && tx.rate == rx.rate && rx.normal && tx.reg == rx.reg && InStep(tx.rate, tx.state, rx.state)
    requires forall i, q :: q < 16 && Used(tx.rate, q) ==> Decide(tx.rate, channel(i, q)) == Decide(tx.rate, Constellation(q))
    modifies tx`pos, tx`ended, tx`reg, tx`state, rx`reg, rx`delivered, rx`state
    ensures tx.Valid() && tx.reg == rx.reg && InStep(tx.rate, tx.state, rx.state)
    ensures rx.delivered == old(rx.delivered) + Coming(tx.data, old(tx.pos), n * BitsPer(tx.rate))
  {
    hide After, Scramble, Descramble, InStep, Constellation, Turned, Symbol, Unturned, Coming, Decide;
    var rate := tx.rate;
    ghost var k := BitsPer(rate);
    ghost var data, p, was := tx.data, tx.pos, rx.delivered;
    NoBits(tx.reg, data, p);
    ghost var m: nat := 0;
    for i := 0 to n
      invariant tx.Valid() && tx.reg == rx.reg && InStep(rate, tx.state, rx.state) && m == i * k
      invariant tx.pos == if p + m < |data| then p + m else |data|
      invariant rx.delivered == was + Coming(data, p, m)
    {
      ghost var d := Coming(data, tx.pos, k);
      ghost var line := Scramble(Generator(), tx.reg, d);
      ComingEnded(data, tx.pos, p + m, k);
      ComingAppend(data, p, m, k);
      OneSymbol(rate, tx.state, rx.state, line);
      DescrambleInverts(Generator(), tx.reg, d);
      UsedSymbol(rate, tx.state, rx.state, line);
      var q := tx.GetBaud();
      rx.DecodeBaud(channel(i, q));
      m := m + k;
    }
  }
}
