/** The V.34 self-synchronising scrambler and descrambler (ITU-T V.34, clause 7; nf_v34.c):
    a ring of the last 32 line bits tapped at two delays. */
module V34Scrambler {
  import opened BitIo

  const DEPTH: nat := 32
  /** The longer tap of both generators: the descrambler needs this many line bits. */
  const SYNC: nat := 23

  /** The generator's taps: 18 and 23 for the call modem, 5 and 23 for the answer modem. */
  datatype Taps = Taps(a: nat, b: nat)

  function TapsOf(callModem: bool): Taps {
    if callModem then Taps(18, 23) else Taps(5, 23)
  }

  predicate GoodTaps(t: Taps) {
    1 <= t.a <= SYNC && 1 <= t.b <= SYNC
  }

  /** Line bits sent or received before, the latest first. */
  type History = h: seq<bool> | |h| == DEPTH witness seq(DEPTH, _ => false)

  function Push(h: History, bit: bool): History {
    [bit] + h[..DEPTH - 1]
  }

  /** The bit added to the data: the two tapped line bits. */
  function Mask(t: Taps, h: History): bool
    requires GoodTaps(t)
  {
    Exor(h[t.a - 1], h[t.b - 1])
  }

  function Scramble(t: Taps, h: History, data: Bits): (line: Bits)
    requires GoodTaps(t)
    ensures |line| == |data|
    decreases |data|
  {
    if data == [] then []
    else
      var v := Exor(data[0], Mask(t, h));
      [v] + Scramble(t, Push(h, v), data[1..])
  }

  function Descramble(t: Taps, h: History, line: Bits): (data: Bits)
    requires GoodTaps(t)
    ensures |data| == |line|
    decreases |line|
  {
    if line == [] then [] else [Exor(line[0], Mask(t, h))] + Descramble(t, Push(h, line[0]), line[1..])
  }

  /** The history after some line bits. */
  function After(h: History, line: Bits): History
    decreases |line|
  {
    if line == [] then h else After(Push(h, line[0]), line[1..])
  }

  /** From equal histories descrambling undoes scrambling. */
  lemma {:induction false} DescrambleInverts(t: Taps, h: History, data: Bits)
    requires GoodTaps(t)
    ensures Descramble(t, h, Scramble(t, h, data)) == data
    decreases |data|
  {
    if data != [] {
      var v := Exor(data[0], Mask(t, h));
      assert Scramble(t, h, data)[1..] == Scramble(t, Push(h, v), data[1..]);
      DescrambleInverts(t, Push(h, v), data[1..]);
      assert data == [data[0]] + data[1..];
    }
  }

  /** Histories that agree on the latest `n` bits agree on one more after each line bit. */
  lemma {:induction false} SyncFrom(t: Taps, h: History, g: History, line: Bits, n: nat, k: nat)
    requires GoodTaps(t) && n <= DEPTH && h[..n] == g[..n]
    requires SYNC <= n + k && k < |line|
    ensures Descramble(t, h, line)[k] == Descramble(t, g, line)[k]
    decreases k
  {
    if k > 0 {
      var h', g' := Push(h, line[0]), Push(g, line[0]);
      var m := if n < DEPTH then n + 1 else DEPTH;
      assert h'[..m] == [line[0]] + h[..m - 1] && g'[..m] == [line[0]] + g[..m - 1];
      assert h[..m - 1] == h[..n][..m - 1] && g[..m - 1] == g[..n][..m - 1];
      SyncFrom(t, h', g', line[1..], m, k - 1);
    } else {
      assert h[t.a - 1] == h[..n][t.a - 1] && h[t.b - 1] == h[..n][t.b - 1];
      assert g[t.a - 1] == g[..n][t.a - 1] && g[t.b - 1] == g[..n][t.b - 1];
    }
  }

  /** From any history the data come out right after 23 line bits. */
  lemma SelfSynchronising(t: Taps, h: History, g: History, data: Bits, k: nat)
    requires GoodTaps(t) && SYNC <= k < |data|
    ensures Descramble(t, g, Scramble(t, h, data))[k] == data[k]
  {
    DescrambleInverts(t, h, data);
    SyncFrom(t, h, g, Scramble(t, h, data), 0, k);
  }

  /** A single wrong bit in the history travels to the longer tap and spoils that data bit:
      no number of line bits below 23 is enough. */
  lemma {:induction false} WrongBitTravels(t: Taps, h: History, line: Bits, j: nat, k: nat)
    requires GoodTaps(t) && t.a < t.b == SYNC && j + k == SYNC - 1 && k < |line|
    ensures var g: History := h[j := !h[j]]; Descramble(t, g, line)[k] != Descramble(t, h, line)[k]
    decreases k
  {
    if k > 0 {
      var g: History := h[j := !h[j]];
      assert Push(g, line[0]) == Push(h, line[0])[j + 1 := !Push(h, line[0])[j + 1]];
      WrongBitTravels(t, Push(h, line[0]), line[1..], j + 1, k - 1);
    }
  }

  /** The line bit at place `i`, counted from the start of `line`; those before are the history. */
  function LineBitAt(h: History, line: Bits, i: int): bool
    requires 0 <= i + DEPTH && i < |line|
  {
    if i >= 0 then line[i] else h[-i - 1]
  }

  /** A data bit is the sum of its own line bit and the two tapped ones before it. */
  lemma {:induction false} DescrambledAt(t: Taps, h: History, line: Bits, k: nat)
    requires GoodTaps(t) && k < |line|
    ensures Descramble(t, h, line)[k] == Exor(line[k], Exor(LineBitAt(h, line, k - t.a), LineBitAt(h, line, k - t.b)))
    decreases k
  {
    if k > 0 {
      DescrambledAt(t, Push(h, line[0]), line[1..], k - 1);
    }
  }

  /** A line bit received wrong spoils exactly three data bits: its own, the one 18 later from
      the call modem or 5 later from the answer modem, and the one 23 later. */
  lemma WrongLineBit(callModem: bool, h: History, line: Bits, j: nat, k: nat)
    requires j < |line| && k < |line|
    ensures var t := TapsOf(callModem); var bad := line[j := !line[j]];
            (Descramble(t, h, bad)[k] != Descramble(t, h, line)[k])
            <==> k == j || k == j + (if callModem then 18 else 5) || k == j + 23
  {
    hide Descramble;
    DescrambledAt(TapsOf(callModem), h, line, k);
    DescrambledAt(TapsOf(callModem), h, line[j := !line[j]], k);
  }

  lemma {:induction false} ScrambleAppend(t: Taps, h: History, a: Bits, b: Bits)
    requires GoodTaps(t)
    ensures Scramble(t, h, a + b) == Scramble(t, h, a) + Scramble(t, After(h, Scramble(t, h, a)), b)
    decreases |a|
  {
    if a == [] {
      assert a + b == b;
    } else {
      var v := Exor(a[0], Mask(t, h));
      assert (a + b)[1..] == a[1..] + b;
      ScrambleAppend(t, Push(h, v), a[1..], b);
      assert Scramble(t, h, a)[1..] == Scramble(t, Push(h, v), a[1..]);
    }
  }

  lemma {:induction false} DescrambleAppend(t: Taps, h: History, a: Bits, b: Bits)
    requires GoodTaps(t)
    ensures Descramble(t, h, a + b) == Descramble(t, h, a) + Descramble(t, After(h, a), b)
    decreases |a|
  {
    if a == [] {
      assert a + b == b;
    } else {
      assert (a + b)[1..] == a[1..] + b;
      DescrambleAppend(t, Push(h, a[0]), a[1..], b);
    }
  }

  lemma {:induction false} AfterAppend(h: History, a: Bits, b: Bits)
    ensures After(h, a + b) == After(After(h, a), b)
    decreases |a|
  {
    if a == [] {
      assert a + b == b;
    } else {
      assert (a + b)[1..] == a[1..] + b;
      AfterAppend(Push(h, a[0]), a[1..], b);
    }
  }

  /** nf_v34_scrambler_t: the ring and its write position. */
  class Scrambler {
    const taps: Taps
    const hist: array<bool>
    var pos: nat

    ghost predicate Valid() {
      GoodTaps(taps) && hist.Length == DEPTH
    }

    /** The ring read backwards from the write position. */
    ghost function Line(): History
      reads this, hist
      requires Valid()
    {
      Backwards(hist[..], pos)
    }

    constructor (callModem: bool)
      ensures Valid() && fresh(hist) && taps == TapsOf(callModem)
      ensures Line() == seq(DEPTH, _ => false)
    {
      taps := TapsOf(callModem);
      hist := new bool[DEPTH](_ => false);
      pos := 0;
    }

    /** The line bit `delay` steps ago. */
    method Tap(delay: nat) returns (bit: bool)
      requires Valid() && 1 <= delay <= DEPTH
      ensures bit == Line()[delay - 1]
    {
      bit := hist[(pos - delay + 32 * 4) % 32];
    }

    method Store(bit: bool)
      requires Valid()
      modifies this`pos, hist
      ensures Valid() && Line() == Push(old(Line()), bit)
    {
      ghost var was := hist[..];
      hist[pos % 32] := bit;
      pos := pos + 1;
      assert hist[..] == was[(pos - 1) % 32 := bit];
      BackwardsPush(was, pos - 1, bit);
    }

    method ScrambleBit(bit: bool) returns (v: bool)
      requires Valid()
      modifies this`pos, hist
      ensures Valid() && v == Exor(bit, Mask(taps, old(Line()))) && Line() == Push(old(Line()), v)
    {
      hide Backwards, Push;
      var x := Tap(taps.a);
      var y := Tap(taps.b);
      v := Exor(bit, Exor(x, y));
      Store(v);
    }

    method DescrambleBit(bit: bool) returns (v: bool)
      requires Valid()
      modifies this`pos, hist
      ensures Valid() && v == Exor(bit, Mask(taps, old(Line()))) && Line() == Push(old(Line()), bit)
    {
      hide Backwards, Push;
      var x := Tap(taps.a);
      var y := Tap(taps.b);
      v := Exor(bit, Exor(x, y));
      Store(bit);
    }
  }

  /** A ring of 32 read backwards from position `pos`. */
  function Backwards(ring: seq<bool>, pos: nat): (h: History)
    requires |ring| == DEPTH
  {
    seq(DEPTH, d requires 0 <= d < DEPTH => ring[(pos - (d + 1) + 32 * 4) % 32])
  }

  lemma BackwardsPush(ring: seq<bool>, pos: nat, bit: bool)
    requires |ring| == DEPTH
    ensures Backwards(ring[pos % 32 := bit], pos + 1) == Push(Backwards(ring, pos), bit)
  {
    var a, b := Backwards(ring[pos % 32 := bit], pos + 1), Push(Backwards(ring, pos), bit);
    forall d | 0 <= d < DEPTH
      ensures a[d] == b[d]
    {
      var i := (pos + 1 - (d + 1) + 32 * 4) % 32;
      if d > 0 {
        assert i == (pos - ((d - 1) + 1) + 32 * 4) % 32;
        assert i != pos % 32;
      }
    }
  }
}
