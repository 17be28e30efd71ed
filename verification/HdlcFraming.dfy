/** HDLC framing (nf_hdlc.c) as functions on bits: zero-bit stuffing and flags on the sending
    side, flag hunting, destuffing and byte assembly on the receiving side, and the proof that
    a receiver delivers exactly the frames sent. */
module HdlcFraming {
  import opened BitIo
  import opened HdlcCrc

  const MAX_FRAME: nat := 400

  /** 0x7E, lowest bit first. */
  function Flag(): Bits {
    [false, true, true, true, true, true, true, false]
  }

  function Flags(n: nat): (b: Bits)
    ensures |b| == 8 * n
  {
    if n == 0 then [] else Flag() + Flags(n - 1)
  }

  /** A zero after every fifth consecutive one; `ones` precede. */
  function Stuff(x: Bits, ones: nat): Bits
    decreases |x|
  {
    if x == [] then []
    else if !x[0] then [false] + Stuff(x[1..], 0)
    else if ones == 4 then [true, false] + Stuff(x[1..], 0)
    else [true] + Stuff(x[1..], ones + 1)
  }

  /** Consecutive ones at the end of stuffed bits. */
  function OnesAfter(x: Bits, ones: nat): nat
    decreases |x|
  {
    if x == [] then ones
    else OnesAfter(x[1..], if !x[0] || ones == 4 then 0 else ones + 1)
  }

  /** A frame on the line: payload and check sequence, stuffed. */
  function FrameBits(payload: seq<Byte>): Bits {
    Stuff(BytesBits(payload + Fcs(payload)), 0)
  }

  predicate Sendable(payload: seq<Byte>) {
    1 <= |payload| <= MAX_FRAME
  }

  /** Frames with `gap` flags between them and three after the last. */
  function Burst(frames: seq<seq<Byte>>, gap: nat): Bits {
    if frames == [] then []
    else FrameBits(frames[0]) + Flags(if |frames| == 1 then 3 else gap) + Burst(frames[1..], gap)
  }

  // ---------------------------------------------------------------- the receiver

  datatype Event = FramingOk | Abort | Frame(data: seq<Byte>, ok: bool) | Status(code: int)

  /** `run`: consecutive ones just received, seven standing for more; `pending`: bits of the
      octet under way; `seen`: flags counted towards the threshold. */
  datatype Rx = Rx(run: nat, seen: int, announced: bool, numBits: nat, pending: Bits, buf: seq<Byte>)

  datatype Reaction = Reaction(rx: Rx, events: seq<Event>)

  function FreshRx(): Rx {
    Rx(0, 0, false, 0, [], [])
  }

  /** What the flag or abort does to the count: broken alignment starts the preamble over,
      unless one flag is all that is missing. */
  function Restarted(th: int, seen: int): int {
    if seen < th - 1 then 0 else th - 1
  }

  function Delivered(rx: Rx): seq<Event> {
    if |rx.buf| == 0 then []
    else if rx.numBits == 7 && 2 <= |rx.buf| <= MAX_FRAME + 2 then [Frame(rx.buf[..|rx.buf| - 2], Residue(rx.buf))]
    else [Frame(rx.buf[..if |rx.buf| >= 2 then |rx.buf| - 2 else 0], false)]
  }

  /** rx_flag_or_abort. */
  function FlagOrAbort(th: int, rx: Rx, abort: bool): Reaction {
    var clean := rx.(buf := [], numBits := 0, pending := []);
    if abort then Reaction(clean.(seen := Restarted(th, rx.seen)), [Abort])
    else if rx.seen >= th then Reaction(clean, Delivered(rx))
    else
      var s := (if rx.seen != th - 1 && rx.numBits != 7 then Restarted(th, rx.seen) else rx.seen) + 1;
      if s >= th && !rx.announced then Reaction(clean.(seen := s, announced := true), [FramingOk])
      else Reaction(clean.(seen := s), [])
  }

  /** An octet is complete: it is stored unless the frame is overlong. */
  function StoreOctet(th: int, rx: Rx): Rx
    requires |rx.pending| == 8
  {
    if |rx.buf| < MAX_FRAME + 2 then rx.(buf := rx.buf + [OctetOf(rx.pending)], numBits := 0, pending := [])
    else rx.(buf := [], seen := th - 1, numBits := 0, pending := [])
  }

  /** A data bit: counted, and once synchronised assembled. */
  function TakeBit(th: int, rx: Rx, bit: bool): Rx {
    var q := rx.(numBits := rx.numBits + 1);
    if rx.seen < th then q
    else
      var p := q.(pending := rx.pending + [bit]);
      if |p.pending| == 8 then StoreOctet(th, p) else p
  }

  /** nf_hdlc_rx_put_bit. */
  function PutBit(th: int, rx: Rx, bit: bool): Reaction {
    if rx.run == 5 && !bit then Reaction(rx.(run := 0), [])
    else if rx.run == 6 then FlagOrAbort(th, rx.(run := if bit then 7 else 0), bit)
    else
      Reaction(TakeBit(th, rx.(run := if !bit then 0 else if rx.run < 7 then rx.run + 1 else 7), bit), [])
  }

  function Feed(th: int, rx: Rx, bits: Bits): Reaction
    decreases |bits|
  {
    if bits == [] then Reaction(rx, [])
    else
      var t := PutBit(th, rx, bits[0]);
      var u := Feed(th, t.rx, bits[1..]);
      Reaction(u.rx, t.events + u.events)
  }

  lemma {:induction false} FeedAppend(th: int, rx: Rx, a: Bits, b: Bits)
    ensures var t := Feed(th, rx, a); var u := Feed(th, t.rx, b);
            Feed(th, rx, a + b) == Reaction(u.rx, t.events + u.events)
    decreases |a|
  {
    hide PutBit;
    if a == [] {
      assert a + b == b;
    } else {
      assert (a + b)[0] == a[0] && (a + b)[1..] == a[1..] + b;
      FeedAppend(th, PutBit(th, rx, a[0]).rx, a[1..], b);
    }
  }

  lemma FeedOne(th: int, rx: Rx, bit: bool, rest: Bits)
    ensures var t := PutBit(th, rx, bit); var u := Feed(th, t.rx, rest);
            Feed(th, rx, [bit] + rest) == Reaction(u.rx, t.events + u.events)
  {
    hide PutBit;
    assert ([bit] + rest)[1..] == rest;
  }

  // ---------------------------------------------------------------- flags

  /** At an octet boundary between flags. */
  predicate Idle(rx: Rx) {
    rx.run == 0 && rx.numBits == 0 && rx.pending == [] && rx.buf == []
  }

  /** A synchronised receiver within a frame: fewer than five ones behind it. */
  predicate InFrame(th: int, rx: Rx) {
    rx.seen >= th && rx.run <= 4 && rx.numBits == |rx.pending| < 8 && |rx.buf| <= MAX_FRAME + 2
  }

  /** Seven bits of a flag pass as data, the eighth is recognised. */
  lemma FlagPasses(th: int, rx: Rx)
    requires rx.run <= 4 && rx.numBits == 0 && rx.pending == [] && |rx.buf| <= MAX_FRAME + 2
    ensures exists p: Bits :: Feed(th, rx, Flag()) == FlagOrAbort(th, rx.(run := 0, numBits := 7, pending := p), false)
  {
    hide FlagOrAbort, StoreOctet;
    var r1 := Ahead(th, rx, false);
    var r2 := Ahead(th, r1, true);
    var r3 := Ahead(th, r2, true);
    var r4 := Ahead(th, r3, true);
    var r5 := Ahead(th, r4, true);
    var r6 := Ahead(th, r5, true);
    var r7 := Ahead(th, r6, true);
    FeedSeven(th, rx, r1, r2, r3, r4, r5, r6, r7);
    assert r7.run == 6 && r7.numBits == 7 && r7.buf == rx.buf && r7.seen == rx.seen && r7.announced == rx.announced;
    assert r7.(run := 0) == rx.(run := 0, numBits := 7, pending := r7.pending);
  }

  /** A bit that is data and completes no octet. */
  function Ahead(th: int, rx: Rx, bit: bool): Rx {
    rx.(run := if !bit then 0 else if rx.run < 7 then rx.run + 1 else 7, numBits := rx.numBits + 1,
        pending := if rx.seen < th then rx.pending else rx.pending + [bit])
  }

  lemma FeedAhead(th: int, rx: Rx, bit: bool, bits: Bits, rest: Bits)
    requires rx.run != 6 && (rx.run == 5 ==> bit) && |rx.pending| < 7 && bits == [bit] + rest
    ensures Feed(th, rx, bits) == Feed(th, Ahead(th, rx, bit), rest)
  {
    FeedOne(th, rx, bit, rest);
    hide Feed;
    assert PutBit(th, rx, bit) == Reaction(Ahead(th, rx, bit), []);
    assert [] + Feed(th, Ahead(th, rx, bit), rest).events == Feed(th, Ahead(th, rx, bit), rest).events;
  }

  lemma FeedSeven(th: int, r0: Rx, r1: Rx, r2: Rx, r3: Rx, r4: Rx, r5: Rx, r6: Rx, r7: Rx)
    requires r0.run <= 4 && r0.pending == []
    requires r1 == Ahead(th, r0, false) && r2 == Ahead(th, r1, true) && r3 == Ahead(th, r2, true) && r4 == Ahead(th, r3, true)
    requires r5 == Ahead(th, r4, true) && r6 == Ahead(th, r5, true) && r7 == Ahead(th, r6, true)
    ensures Feed(th, r0, Flag()) == FlagOrAbort(th, r7.(run := 0), false)
  {
    hide PutBit, Feed, FlagOrAbort;
    FeedAhead(th, r0, false, Flag(), Flag()[1..]);
    FeedAhead(th, r1, true, Flag()[1..], Flag()[2..]);
    FeedAhead(th, r2, true, Flag()[2..], Flag()[3..]);
    FeedAhead(th, r3, true, Flag()[3..], Flag()[4..]);
    FeedAhead(th, r4, true, Flag()[4..], Flag()[5..]);
    FeedAhead(th, r5, true, Flag()[5..], Flag()[6..]);
    FeedAhead(th, r6, true, Flag()[6..], Flag()[7..]);
    FlagEnds(th, r7);
  }

  lemma FlagEnds(th: int, rx: Rx)
    requires rx.run == 6
    ensures Feed(th, rx, Flag()[7..]) == FlagOrAbort(th, rx.(run := 0), false)
  {
    hide FlagOrAbort;
    var t := PutBit(th, rx, false);
    assert Feed(th, t.rx, []) == Reaction(t.rx, []);
    assert Flag()[7..] == [false];
    assert t.events + [] == t.events;
  }

  /** A flag between flags: counted while hunting, ignored afterwards. */
  lemma FlagWhileIdle(th: int, rx: Rx)
    requires Idle(rx)
    ensures var t := Feed(th, rx, Flag());
            if rx.seen >= th then t == Reaction(rx, [])
            else if rx.seen + 1 >= th && !rx.announced then t == Reaction(rx.(seen := rx.seen + 1, announced := true), [FramingOk])
            else t == Reaction(rx.(seen := rx.seen + 1), [])
  {
    hide Feed;
    FlagPasses(th, rx);
  }

  /** A preamble of `n` flags: framing is announced once, when the threshold is reached. */
  lemma {:induction false} FlagsWhileIdle(th: int, rx: Rx, n: nat)
    requires Idle(rx)
    ensures var t := Feed(th, rx, Flags(n)); var reached := rx.seen < th <= rx.seen + n;
            && t.rx == rx.(seen := if rx.seen >= th then rx.seen else if reached then th else rx.seen + n,
                           announced := rx.announced || reached)
            && t.events == if reached && !rx.announced then [FramingOk] else []
    decreases n
  {
    hide Feed, Flag;
    if n == 0 {
      FedNothing(th, rx);
    } else {
      FlagWhileIdle(th, rx);
      FeedAppend(th, rx, Flag(), Flags(n - 1));
      FlagsWhileIdle(th, Feed(th, rx, Flag()).rx, n - 1);
    }
  }

  lemma FedNothing(th: int, rx: Rx)
    ensures Feed(th, rx, []) == Reaction(rx, [])
    ensures Flags(0) == []
  {
  }

  // ---------------------------------------------------------------- stuffed data

  /** Octets and a rest assembled from bits. */
  datatype Fill = Fill(buf: seq<Byte>, pending: Bits)

  function Push(f: Fill, bit: bool): Fill {
    var p := f.pending + [bit];
    if |p| == 8 then Fill(f.buf + [OctetOf(p)], []) else Fill(f.buf, p)
  }

  function Assemble(f: Fill, x: Bits): Fill
    decreases |x|
  {
    if x == [] then f else Assemble(Push(f, x[0]), x[1..])
  }

  /** A data bit within a frame is taken; after a fifth one the stuffed zero is dropped. */
  lemma TakesBit(th: int, rx: Rx, bit: bool, rest: Bits)
    requires InFrame(th, rx) && |rx.buf| < MAX_FRAME + 2
    ensures var f := Push(Fill(rx.buf, rx.pending), bit);
            var q := rx.(buf := f.buf, pending := f.pending, numBits := |f.pending|);
            if bit && rx.run == 4 then Feed(th, rx, [true, false] + rest) == Feed(th, q.(run := 0), rest)
            else Feed(th, rx, [bit] + rest) == Feed(th, q.(run := if bit then rx.run + 1 else 0), rest)
  {
    hide Feed;
    var t := PutBit(th, rx, bit);
    if bit && rx.run == 4 {
      FeedOne(th, rx, true, [false] + rest);
      FeedOne(th, t.rx, false, rest);
      assert [true] + ([false] + rest) == [true, false] + rest;
      assert PutBit(th, t.rx, false) == Reaction(t.rx.(run := 0), []);
    } else {
      FeedOne(th, rx, bit, rest);
    }
    var u := Feed(th, rx.(run := 0), rest);
    assert forall e: seq<Event> :: [] + e == e;
  }

  /** Feeding stuffed bits within a frame assembles the bits before stuffing. */
  lemma {:induction false} FeedStuffed(th: int, rx: Rx, x: Bits)
    requires InFrame(th, rx) && 8 * |rx.buf| + |rx.pending| + |x| <= 8 * (MAX_FRAME + 2)
    ensures var f := Assemble(Fill(rx.buf, rx.pending), x);
            Feed(th, rx, Stuff(x, rx.run))
              == Reaction(rx.(run := OnesAfter(x, rx.run), numBits := |f.pending|, pending := f.pending, buf := f.buf), [])
    decreases |x|
  {
    hide Feed;
    if x == [] {
      FedNothing(th, rx);
    } else {
      TakesBit(th, rx, x[0], Stuff(x[1..], if !x[0] || rx.run == 4 then 0 else rx.run + 1));
      var f := Push(Fill(rx.buf, rx.pending), x[0]);
      FeedStuffed(th, rx.(buf := f.buf, pending := f.pending, numBits := |f.pending|,
                          run := if !x[0] || rx.run == 4 then 0 else rx.run + 1), x[1..]);
    }
  }

  lemma {:induction false} AssembleAppend(f: Fill, a: Bits, b: Bits)
    ensures Assemble(f, a + b) == Assemble(Assemble(f, a), b)
    decreases |a|
  {
    hide Push;
    if a == [] {
      assert a + b == b;
    } else {
      assert (a + b)[0] == a[0] && (a + b)[1..] == a[1..] + b;
      AssembleAppend(Push(f, a[0]), a[1..], b);
    }
  }

  lemma {:induction false} AssembleOctet(buf: seq<Byte>, p: Bits, x: Bits)
    requires |p| + |x| == 8 && x != []
    ensures Assemble(Fill(buf, p), x) == Fill(buf + [OctetOf(p + x)], [])
    decreases |x|
  {
    hide OctetOf;
    if |x| == 1 {
      assert p + [x[0]] == p + x;
    } else {
      assert (p + [x[0]]) + x[1..] == p + x;
      AssembleOctet(buf, p + [x[0]], x[1..]);
    }
  }

  /** Octets come back from their bits. */
  lemma {:induction false} AssembleOctets(buf: seq<Byte>, d: seq<Byte>)
    ensures Assemble(Fill(buf, []), BytesBits(d)) == Fill(buf + d, [])
    decreases |d|
  {
    hide Assemble, ByteBits, OctetOf, BytesBits;
    if d == [] {
      BytesBitsNil();
      AssembleNothing(buf);
      assert buf + d == buf;
    } else {
      var n := |d| - 1;
      assert d == d[..n] + [d[n]];
      BytesBitsSnoc(d[..n], d[n]);
      AssembleAppend(Fill(buf, []), BytesBits(d[..n]), ByteBits(d[n]));
      AssembleOctets(buf, d[..n]);
      AssembleOctet(buf + d[..n], [], ByteBits(d[n]));
      assert [] + ByteBits(d[n]) == ByteBits(d[n]);
      OctetBack(ByteBits(d[n]));
      ByteInjective(OctetOf(ByteBits(d[n])), d[n]);
      assert buf + d[..n] + [d[n]] == buf + d;
    }
  }

  lemma AssembleNothing(buf: seq<Byte>)
    ensures Assemble(Fill(buf, []), []) == Fill(buf, [])
  {
  }

  lemma {:induction false} FewOnes(x: Bits, ones: nat)
    requires ones <= 4
    ensures OnesAfter(x, ones) <= 4
    decreases |x|
  {
    if x != [] { FewOnes(x[1..], if !x[0] || ones == 4 then 0 else ones + 1); }
  }

  // ---------------------------------------------------------------- frames

  /** Two to 402 octets and the flag behind them: delivered once without the last two, as good
      exactly if those are the check sequence of the others. */
  lemma OctetsThenFlag(th: int, rx: Rx, m: seq<Byte>)
    requires Idle(rx) && rx.seen >= th && 2 <= |m| <= MAX_FRAME + 2
    ensures var d := m[..|m| - 2];
            Feed(th, rx, Stuff(BytesBits(m), 0) + Flag()) == Reaction(rx, [Frame(d, m[|m| - 2..] == Fcs(d))])
  {
    hide Feed, Fcs, BytesBits, Residue, Flag, Stuff, OnesAfter, Assemble;
    var x, d, e := BytesBits(m), m[..|m| - 2], m[|m| - 2..];
    FeedStuffed(th, rx, x);
    AssembleOctets([], m);
    assert [] + m == m;
    FewOnes(x, 0);
    var q := rx.(run := OnesAfter(x, 0), buf := m);
    assert Feed(th, rx, Stuff(x, 0)) == Reaction(q, []);
    FeedAppend(th, rx, Stuff(x, 0), Flag());
    FlagPasses(th, q);
    ResidueIsFcs(d, e);
    assert d + e == m;
    assert [] + [Frame(d, Residue(m))] == [Frame(d, Residue(m))];
  }

  /** A frame and the flag behind it: the payload is delivered as good, once. */
  lemma FrameThenFlag(th: int, rx: Rx, payload: seq<Byte>)
    requires Idle(rx) && rx.seen >= th && Sendable(payload)
    ensures Feed(th, rx, FrameBits(payload) + Flag()) == Reaction(rx, [Frame(payload, true)])
  {
    hide Feed, Fcs, Flag, Stuff;
    var m := payload + Fcs(payload);
    assert m[..|m| - 2] == payload && m[|m| - 2..] == Fcs(payload);
    OctetsThenFlag(th, rx, m);
  }

  // ---------------------------------------------------------------- what is delivered as good

  function OneBits(k: nat): (b: Bits)
    ensures |b| == k
  {
    seq(k, _ => true)
  }

  /** Bits taken since the last flag. */
  function Taken(rx: Rx): nat {
    8 * |rx.buf| + rx.numBits
  }

  /** Within a frame with room for more, whatever the run of ones. */
  predicate Taking(th: int, rx: Rx) {
    rx.seen >= th && rx.numBits == |rx.pending| < 8 && Taken(rx) < 8 * (MAX_FRAME + 2) + 7
  }

  lemma BitTaken(th: int, rx: Rx, bit: bool)
    requires Taking(th, rx) && rx.run != 6 && (rx.run == 5 ==> bit)
    ensures var t := PutBit(th, rx, bit);
            && t.events == [] && t.rx.seen == rx.seen && t.rx.run == (if !bit then 0 else if rx.run < 7 then rx.run + 1 else 7)
            && t.rx.numBits == |t.rx.pending| < 8 && Taken(t.rx) == Taken(rx) + 1
  {
    hide OctetOf;
  }

  lemma {:induction false} OnesTaken(th: int, rx: Rx, k: nat)
    requires Taking(th, rx) && rx.run + k <= 6 && Taken(rx) + k <= 8 * (MAX_FRAME + 2) + 7
    ensures var t := Feed(th, rx, OneBits(k));
            && t.events == [] && t.rx.seen == rx.seen && t.rx.run == rx.run + k
            && t.rx.numBits == |t.rx.pending| < 8 && Taken(t.rx) == Taken(rx) + k
    decreases k
  {
    hide Feed, PutBit;
    if k == 0 {
      FedNothing(th, rx);
    } else {
      BitTaken(th, rx, true);
      assert OneBits(k) == [true] + OneBits(k - 1);
      FeedOne(th, rx, true, OneBits(k - 1));
      if k > 1 {
        OnesTaken(th, PutBit(th, rx, true).rx, k - 1);
      } else {
        FedNothing(th, PutBit(th, rx, true).rx);
        assert OneBits(0) == [];
      }
    }
  }

  lemma Unfinished(th: int, rx: Rx)
    requires rx.seen >= th && rx.buf != [] && rx.numBits != 7
    ensures exists d :: FlagOrAbort(th, rx, false).events == [Frame(d, false)]
  {
    hide Residue;
  }

  /** A flag off the octet boundary closes the frame as a bad one. */
  lemma FlagOffBoundary(th: int, rx: Rx)
    requires InFrame(th, rx) && 0 < rx.numBits && |rx.buf| < MAX_FRAME + 2
    ensures exists d :: Feed(th, rx, Flag()).events == [Frame(d, false)]
  {
    hide Feed, PutBit, FlagOrAbort;
    BitTaken(th, rx, false);
    var a := PutBit(th, rx, false).rx;
    OnesTaken(th, a, 6);
    var b := Feed(th, a, OneBits(6)).rx;
    assert Taken(b) == 8 * (|rx.buf| + 1) + (rx.numBits - 1);
    var c := b.(run := 0);
    Unfinished(th, c);
    assert Flag() == [false] + (OneBits(6) + [false]);
    FeedOne(th, rx, false, OneBits(6) + [false]);
    FeedAppend(th, a, OneBits(6), [false]);
    assert Flag()[7..] == [false];
    FlagEnds(th, b);
    assert [] + ([] + FlagOrAbort(th, c, false).events) == FlagOrAbort(th, c, false).events;
  }

  /** Fewer than two octets: nothing, or a bad frame without data. */
  lemma TooFew(th: int, rx: Rx, m: seq<Byte>)
    requires Idle(rx) && rx.seen >= th && |m| < 2
    ensures Feed(th, rx, Stuff(BytesBits(m), 0) + Flag()).events == if m == [] then [] else [Frame([], false)]
  {
    hide Feed, BytesBits, Residue, Flag, Stuff, OnesAfter, Assemble;
    var x := BytesBits(m);
    FeedStuffed(th, rx, x);
    AssembleOctets([], m);
    assert [] + m == m;
    FewOnes(x, 0);
    var q := rx.(run := OnesAfter(x, 0), buf := m);
    FeedAppend(th, rx, Stuff(x, 0), Flag());
    FlagPasses(th, q);
  }

  lemma OffBoundary(th: int, rx: Rx, x: Bits)
    requires Idle(rx) && rx.seen >= th && |x| <= 8 * (MAX_FRAME + 2) && |x| % 8 != 0
    ensures exists d :: Feed(th, rx, Stuff(x, 0) + Flag()).events == [Frame(d, false)]
  {
    hide Feed, Flag, Stuff, OnesAfter, Assemble;
    FeedStuffed(th, rx, x);
    FewOnes(x, 0);
    var f := Assemble(Fill([], []), x);
    AssembledSize(Fill([], []), x);
    var q := rx.(run := OnesAfter(x, 0), numBits := |f.pending|, pending := f.pending, buf := f.buf);
    assert |f.pending| == |x| % 8 && |f.buf| == |x| / 8;
    FlagOffBoundary(th, q);
    FeedAppend(th, rx, Stuff(x, 0), Flag());
    assert [] + Feed(th, q, Flag()).events == Feed(th, q, Flag()).events;
  }

  lemma {:induction false} AssembledSize(f: Fill, x: Bits)
    requires |f.pending| < 8
    ensures var g := Assemble(f, x); |g.pending| < 8 && 8 * |g.buf| + |g.pending| == 8 * |f.buf| + |f.pending| + |x|
    decreases |x|
  {
    hide OctetOf;
    if x != [] { AssembledSize(Push(f, x[0]), x[1..]); }
  }

  /** Whatever stands between two flags, up to 402 octets: at most one event, and a good frame
      exactly if it is whole octets of which the last two are the check sequence of the
      others, which are the data. */
  lemma GoodExactly(th: int, rx: Rx, x: Bits)
    requires Idle(rx) && rx.seen >= th && |x| <= 8 * (MAX_FRAME + 2)
    ensures var events := Feed(th, rx, Stuff(x, 0) + Flag()).events;
            |events| <= 1 && forall d :: Frame(d, true) in events <==> x == BytesBits(d + Fcs(d))
  {
    hide Feed, Fcs, BytesBits, Flag, Stuff, Idle;
    var events := Feed(th, rx, Stuff(x, 0) + Flag()).events;
    if |x| % 8 != 0 {
      OffBoundary(th, rx, x);
      forall d: seq<Byte> ensures |BytesBits(d + Fcs(d))| % 8 == 0 { BytesLength(d + Fcs(d)); }
    } else {
      var m := Octets(x);
      OctetsBack(x);
      if |m| < 2 {
        TooFew(th, rx, m);
        forall d: seq<Byte> ensures |BytesBits(d + Fcs(d))| >= 16 { BytesLength(d + Fcs(d)); }
      } else {
        OctetsThenFlag(th, rx, m);
        forall d: seq<Byte> | x == BytesBits(d + Fcs(d)) ensures m == d + Fcs(d) {
          BytesLength(d + Fcs(d));
          BytesInjective(m, d + Fcs(d));
        }
        forall d: seq<Byte> ensures m == d + Fcs(d) <==> d == m[..|m| - 2] && m[|m| - 2..] == Fcs(d) { SplitsAt(m, d, Fcs(d)); }
      }
    }
  }

  lemma SplitsAt(m: seq<Byte>, d: seq<Byte>, e: seq<Byte>)
    requires |m| >= 2 && |e| == 2
    ensures m == d + e <==> d == m[..|m| - 2] && m[|m| - 2..] == e
  {
  }

  lemma BytesLength(m: seq<Byte>)
    ensures |BytesBits(m)| == 8 * |m|
  {
  }

  /** The octets of whole groups of bits. */
  function Octets(x: Bits): (m: seq<Byte>)
    ensures |m| == |x| / 8
    decreases |x|
  {
    if |x| < 8 then [] else Octets(x[..|x| - 8]) + [OctetOf(x[|x| - 8..])]
  }

  lemma {:induction false} OctetsBack(x: Bits)
    requires |x| % 8 == 0
    ensures BytesBits(Octets(x)) == x
    decreases |x|
  {
    hide ByteBits, OctetOf, BytesBits;
    if |x| == 0 {
      BytesBitsNil();
    } else {
      var n := |x| - 8;
      OctetsBack(x[..n]);
      OctetBack(x[n..]);
      BytesBitsSnoc(Octets(x[..n]), OctetOf(x[n..]));
      assert x == x[..n] + x[n..];
    }
  }

  /** Damage within sixteen bits in a row of a frame sent: nothing is delivered as good. */
  lemma DamageDetected(th: int, rx: Rx, payload: seq<Byte>, before: Bits, sent: Bits, got: Bits, after: Bits)
    requires Idle(rx) && rx.seen >= th && Sendable(payload)
    requires BytesBits(payload + Fcs(payload)) == before + sent + after && |sent| == |got| <= 16 && sent != got
    ensures forall d :: Frame(d, true) !in Feed(th, rx, Stuff(before + got + after, 0) + Flag()).events
  {
    hide Feed, Fcs, BytesBits, Flag, Stuff, Divide, Idle;
    var x := before + got + after;
    BytesLength(payload + Fcs(payload));
    GoodExactly(th, rx, x);
    ResidueIsFcs(payload, Fcs(payload));
    BurstDetected(HdlcCrc.Ones(), before, sent, got, after);
    forall d: seq<Byte> ensures x != BytesBits(d + Fcs(d)) { ResidueIsFcs(d, Fcs(d)); }
  }

  function Events(frames: seq<seq<Byte>>): seq<Event> {
    if frames == [] then [] else [Frame(frames[0], true)] + Events(frames[1..])
  }

  ghost predicate AllSendable(frames: seq<seq<Byte>>) {
    forall i :: 0 <= i < |frames| ==> Sendable(frames[i])
  }

  /** A burst behind a synchronised receiver: every frame once, in order, good. */
  lemma {:induction false} BurstDelivered(th: int, rx: Rx, frames: seq<seq<Byte>>, gap: nat)
    requires Idle(rx) && rx.seen >= th && gap >= 1 && AllSendable(frames)
    ensures Feed(th, rx, Burst(frames, gap)) == Reaction(rx, Events(frames))
    decreases |frames|
  {
    hide Feed, FrameBits, Flags, Flag;
    if frames == [] {
      FedNothing(th, rx);
    } else {
      var n := if |frames| == 1 then 3 else gap;
      var head := FrameBits(frames[0]) + Flag();
      FirstFlag(n);
      assert Burst(frames, gap) == head + (Flags(n - 1) + Burst(frames[1..], gap));
      FrameThenFlag(th, rx, frames[0]);
      FlagsWhileIdle(th, rx, n - 1);
      BurstDelivered(th, rx, frames[1..], gap);
      FeedAppend(th, rx, Flags(n - 1), Burst(frames[1..], gap));
      FeedAppend(th, rx, head, Flags(n - 1) + Burst(frames[1..], gap));
      assert [] + Events(frames[1..]) == Events(frames[1..]);
    }
  }

  lemma FirstFlag(n: nat)
    requires n >= 1
    ensures Flags(n) == Flag() + Flags(n - 1)
  {
  }

  // ---------------------------------------------------------------- from any state

  /** What holds of every receiver that has been fed bits. */
  predicate Sane(th: int, rx: Rx) {
    && th >= 1 && rx.run <= 7 && 0 <= rx.seen && |rx.buf| <= MAX_FRAME + 2
    && (rx.seen >= th ==> rx.announced && rx.numBits == |rx.pending| < 8)
  }

  lemma BitKeepsSane(th: int, rx: Rx, bit: bool)
    requires Sane(th, rx)
    ensures var t := PutBit(th, rx, bit);
            && Sane(th, t.rx) && |t.events| <= 1 && (rx.announced ==> t.rx.announced && FramingOk !in t.events)
  {
    hide OctetOf, Residue;
  }

  lemma {:induction false} FeedKeepsSane(th: int, rx: Rx, bits: Bits)
    requires Sane(th, rx)
    ensures Sane(th, Feed(th, rx, bits).rx)
    decreases |bits|
  {
    hide PutBit, Sane;
    if bits != [] {
      BitKeepsSane(th, rx, bits[0]);
      FeedKeepsSane(th, PutBit(th, rx, bits[0]).rx, bits[1..]);
    }
  }

  /** Up to six ones in a row raise nothing. */
  lemma {:induction false} OnesPass(th: int, rx: Rx, k: nat)
    requires Sane(th, rx) && rx.run + k <= 6
    ensures var t := Feed(th, rx, OneBits(k));
            && t.events == [] && Sane(th, t.rx) && t.rx.run == rx.run + k && t.rx.announced == rx.announced
            && (rx.seen >= th - 1 ==> t.rx.seen >= th - 1)
    decreases k
  {
    hide Feed, PutBit, Sane;
    if k == 0 {
      FedNothing(th, rx);
    } else {
      OnePasses(th, rx);
      var t := PutBit(th, rx, true);
      assert OneBits(k) == [true] + OneBits(k - 1);
      FeedOne(th, rx, true, OneBits(k - 1));
      OnesPass(th, t.rx, k - 1);
    }
  }

  lemma OnePasses(th: int, rx: Rx)
    requires Sane(th, rx) && rx.run < 6
    ensures var t := PutBit(th, rx, true);
            && t.events == [] && Sane(th, t.rx) && t.rx.run == rx.run + 1 && t.rx.announced == rx.announced
            && (rx.seen >= th - 1 ==> t.rx.seen >= th - 1)
  {
    hide OctetOf;
  }

  lemma ZeroEndsRun(th: int, rx: Rx)
    requires Sane(th, rx)
    ensures PutBit(th, rx, false).rx.run == 0
    ensures rx.run == 6 ==> var t := PutBit(th, rx, false); Idle(t.rx) && t.rx.seen >= 1
  {
    hide OctetOf, Residue;
  }

  /** One flag, whatever came before: what was under way is closed by at most two events, and
      the receiver stands at an octet boundary with at least one flag counted. */
  lemma FirstFlagSettles(th: int, rx: Rx)
    requires Sane(th, rx)
    ensures var t := Feed(th, rx, Flag());
            && Idle(t.rx) && t.rx.seen >= 1 && (t.rx.seen >= th ==> t.rx.announced)
            && |t.events| <= 2 && (rx.announced ==> t.rx.announced && FramingOk !in t.events)
  {
    hide Feed, PutBit, Sane, Idle;
    var a := PutBit(th, rx, false);
    BitKeepsSane(th, rx, false);
    ZeroEndsRun(th, rx);
    OnesPass(th, a.rx, 6);
    var b := Feed(th, a.rx, OneBits(6));
    var c := PutBit(th, b.rx, false);
    BitKeepsSane(th, b.rx, false);
    ZeroEndsRun(th, b.rx);
    SaneMeans(th, c.rx);
    assert Flag() == [false] + (OneBits(6) + [false]);
    FeedOne(th, rx, false, OneBits(6) + [false]);
    FeedAppend(th, a.rx, OneBits(6), [false]);
    FeedLast(th, b.rx, false);
  }

  lemma SaneMeans(th: int, rx: Rx)
    requires Sane(th, rx)
    ensures rx.seen >= th ==> rx.announced
  {
  }

  lemma FeedLast(th: int, rx: Rx, bit: bool)
    ensures Feed(th, rx, [bit]) == PutBit(th, rx, bit)
  {
    hide PutBit;
    FeedOne(th, rx, bit, []);
    FedNothing(th, PutBit(th, rx, bit).rx);
    assert [bit] + [] == [bit];
  }

  /** What a receiver in any state makes of the first flag, and the announcement due after it. */
  function Settling(th: int, rx: Rx): seq<Event> {
    var first := Feed(th, rx, Flag());
    first.events + if first.rx.announced then [] else [FramingOk]
  }

  /** The HDLC round trip: for every payload content and whatever was received before, given at
      least the threshold of flags and frames of 1 to 400 octets with a flag between them, the
      receiver closes what was under way on the first flag, announces framing if it has not
      yet, and then delivers exactly those frames, all good. */
  lemma HdlcRoundTrip(threshold: int, rx: Rx, flags: nat, frames: seq<seq<Byte>>, gap: nat)
    requires Sane(threshold, rx) && 1 <= threshold <= flags && gap >= 1 && AllSendable(frames)
    ensures Feed(threshold, rx, Flags(flags) + Burst(frames, gap)).events == Settling(threshold, rx) + Events(frames)
    ensures FramingOk in Settling(threshold, rx) ==> !rx.announced
  {
    hide Feed, Flag, Flags, Burst, Events, Sane, Idle;
    var rest := Flags(flags - 1) + Burst(frames, gap);
    FirstFlag(flags);
    assert Flags(flags) + Burst(frames, gap) == Flag() + rest;
    FirstFlagSettles(threshold, rx);
    var t := Feed(threshold, rx, Flag());
    FlagsWhileIdle(threshold, t.rx, flags - 1);
    var u := Feed(threshold, t.rx, Flags(flags - 1));
    StaysIdle(t.rx, u.rx);
    BurstDelivered(threshold, u.rx, frames, gap);
    FeedAppend(threshold, t.rx, Flags(flags - 1), Burst(frames, gap));
    FeedAppend(threshold, rx, Flag(), rest);
    assert t.events + (u.events + Events(frames)) == (t.events + u.events) + Events(frames);
  }

  lemma StaysIdle(a: Rx, b: Rx)
    requires Idle(a) && b == a.(seen := b.seen, announced := b.announced)
    ensures Idle(b)
  {
  }

  /** A receiver that has heard nothing announces framing once and delivers the frames. */
  lemma FreshSettles(th: int)
    requires th >= 1
    ensures Sane(th, FreshRx()) && Settling(th, FreshRx()) == [FramingOk]
  {
    hide Feed;
    FlagWhileIdle(th, FreshRx());
  }

  /** The same behind any bits at all, such as noise, an abort or a frame broken off. */
  lemma BehindAnything(threshold: int, noise: Bits, flags: nat, frames: seq<seq<Byte>>, gap: nat)
    requires 1 <= threshold <= flags && gap >= 1 && AllSendable(frames)
    ensures var t := Feed(threshold, FreshRx(), noise);
            Feed(threshold, FreshRx(), noise + (Flags(flags) + Burst(frames, gap))).events
              == t.events + (Settling(threshold, t.rx) + Events(frames))
  {
    hide Feed, Flag, Flags, Burst, Events, Settling;
    FreshSettles(threshold);
    FeedKeepsSane(threshold, FreshRx(), noise);
    FeedAppend(threshold, FreshRx(), noise, Flags(flags) + Burst(frames, gap));
    HdlcRoundTrip(threshold, Feed(threshold, FreshRx(), noise).rx, flags, frames, gap);
  }

  // ---------------------------------------------------------------- what stuffing does

  /** A zero among the `n` bits from `i` on. */
  ghost predicate ZeroIn(y: Bits, i: nat, n: nat) {
    exists j :: i <= j < i + n && j < |y| && !y[j]
  }

  lemma {:induction false} ZeroSoon(x: Bits, ones: nat)
    requires ones <= 4 && |Stuff(x, ones)| >= 6 - ones
    ensures ZeroIn(Stuff(x, ones), 0, 6 - ones)
    decreases |x|
  {
    var y := Stuff(x, ones);
    if x[0] {
      if ones == 4 {
        assert !y[1];
      } else {
        ZeroSoon(x[1..], ones + 1);
        var j :| 0 <= j < 5 - ones && j < |Stuff(x[1..], ones + 1)| && !Stuff(x[1..], ones + 1)[j];
        assert !y[j + 1];
      }
    } else {
      assert !y[0];
    }
  }

  /** Stuffed data never hold six ones in a row, so no flag and no abort. */
  lemma {:induction false} NoFlagInside(x: Bits, ones: nat, i: nat)
    requires ones <= 4 && i + 6 <= |Stuff(x, ones)|
    ensures ZeroIn(Stuff(x, ones), i, 6)
    decreases |x|
  {
    var y := Stuff(x, ones);
    if i == 0 {
      ZeroSoon(x, ones);
      var j :| 0 <= j < 6 - ones && j < |y| && !y[j];
    } else if x[0] && ones == 4 {
      if i == 1 {
        assert !y[1];
      } else {
        NoFlagInside(x[1..], 0, i - 2);
        var j :| i - 2 <= j < i + 4 && j < |Stuff(x[1..], 0)| && !Stuff(x[1..], 0)[j];
        assert !y[j + 2];
      }
    } else {
      var after := if x[0] then ones + 1 else 0;
      NoFlagInside(x[1..], after, i - 1);
      var j :| i - 1 <= j < i + 5 && j < |Stuff(x[1..], after)| && !Stuff(x[1..], after)[j];
      assert !y[j + 1];
    }
  }

  /** Nothing is stuffed where no five ones stand in a row. */
  lemma {:induction false} StuffsOnlyFives(x: Bits, ones: nat)
    requires ones <= 4 && (|x| >= 5 - ones ==> ZeroIn(x, 0, 5 - ones))
    requires forall i: nat :: i + 5 <= |x| ==> ZeroIn(x, i, 5)
    ensures Stuff(x, ones) == x
    decreases |x|
  {
    if x != [] {
      var after := if x[0] then ones + 1 else 0;
      forall i: nat | i + 5 <= |x[1..]| ensures ZeroIn(x[1..], i, 5) {
        assert ZeroIn(x, i + 1, 5);
        var j :| i + 1 <= j < i + 6 && j < |x| && !x[j];
        assert !x[1..][j - 1];
      }
      if |x[1..]| >= 5 - after {
        if x[0] {
          var j :| 0 <= j < 5 - ones && j < |x| && !x[j];
          assert !x[1..][j - 1];
        } else {
          assert ZeroIn(x[1..], 0, 5);
        }
      }
      StuffsOnlyFives(x[1..], after);
      assert x == [x[0]] + x[1..];
    }
  }

  // ---------------------------------------------------------------- hunting, aborts, overlong frames

  /** Short of the threshold data bits are only counted. */
  lemma DeafBit(th: int, rx: Rx, bit: bool, rest: Bits)
    requires rx.seen < th && rx.run <= 4
    ensures var q := rx.(numBits := rx.numBits + 1);
            if bit && rx.run == 4 then Feed(th, rx, [true, false] + rest) == Feed(th, q.(run := 0), rest)
            else Feed(th, rx, [bit] + rest) == Feed(th, q.(run := if bit then rx.run + 1 else 0), rest)
  {
    hide Feed;
    var t := PutBit(th, rx, bit);
    if bit && rx.run == 4 {
      FeedOne(th, rx, true, [false] + rest);
      FeedOne(th, t.rx, false, rest);
      assert [true] + ([false] + rest) == [true, false] + rest;
      assert PutBit(th, t.rx, false) == Reaction(t.rx.(run := 0), []);
    } else {
      FeedOne(th, rx, bit, rest);
    }
    assert forall e: seq<Event> :: [] + e == e;
  }

  lemma {:induction false} DeafStuffed(th: int, rx: Rx, x: Bits)
    requires rx.seen < th && rx.run <= 4
    ensures Feed(th, rx, Stuff(x, rx.run)) == Reaction(rx.(run := OnesAfter(x, rx.run), numBits := rx.numBits + |x|), [])
    decreases |x|
  {
    hide Feed;
    if x == [] {
      FedNothing(th, rx);
    } else {
      var run := if !x[0] || rx.run == 4 then 0 else rx.run + 1;
      DeafBit(th, rx, x[0], Stuff(x[1..], run));
      DeafStuffed(th, rx.(numBits := rx.numBits + 1, run := run), x[1..]);
    }
  }

  /** A flag heard short of the threshold. */
  lemma DeafFlag(th: int, rx: Rx)
    requires rx.seen < th && rx.run <= 4 && rx.pending == [] && rx.buf == []
    ensures Feed(th, rx, Flag()) == FlagOrAbort(th, rx.(run := 0, numBits := rx.numBits + 7), false)
  {
    hide Feed, FlagOrAbort;
    var r1 := Ahead(th, rx, false);
    var r2 := Ahead(th, r1, true);
    var r3 := Ahead(th, r2, true);
    var r4 := Ahead(th, r3, true);
    var r5 := Ahead(th, r4, true);
    var r6 := Ahead(th, r5, true);
    var r7 := Ahead(th, r6, true);
    FeedSeven(th, rx, r1, r2, r3, r4, r5, r6, r7);
    assert r7.(run := 0) == rx.(run := 0, numBits := rx.numBits + 7);
  }

  /** Flags of a preamble count only back to back: with anything between them counting starts
      over, unless just one is missing. */
  lemma PreambleUnbroken(th: int, rx: Rx, x: Bits)
    requires Idle(rx) && rx.seen < th
    ensures var t := Feed(th, rx, Stuff(x, 0) + Flag());
            && Idle(t.rx) && t.rx.seen == (if x == [] || rx.seen == th - 1 then rx.seen + 1 else 1)
            && t.events == if t.rx.seen >= th && !rx.announced then [FramingOk] else []
  {
    hide Feed, Flag, Stuff, OnesAfter;
    DeafStuffed(th, rx, x);
    FewOnes(x, 0);
    DeafFlag(th, rx.(run := OnesAfter(x, 0), numBits := |x|));
    FeedAppend(th, rx, Stuff(x, 0), Flag());
  }

  /** Seven ones break a frame off: it is dropped, the abort is told once however long it
      lasts, and one flag is enough to take the next frame. */
  lemma AbortDropsFrame(th: int, rx: Rx, n: nat)
    requires Sane(th, rx) && rx.seen >= th && rx.run <= 6 && n >= 7
    ensures Feed(th, rx, OneBits(n) + ([false] + Flag()))
         == Reaction(rx.(run := 0, seen := th, numBits := 0, pending := [], buf := []), [Abort])
  {
    hide Feed, Flag, Sane, OnesAfter;
    var k := 6 - rx.run;
    SaneMeans(th, rx);
    OnesPass(th, rx, k);
    var b := Feed(th, rx, OneBits(k)).rx;
    SeventhOne(th, b);
    var c := PutBit(th, b, true).rx;
    OnesIgnored(th, c, n - k - 1);
    var d := c.(numBits := c.numBits + (n - k - 1));
    var e := d.(run := 0, numBits := d.numBits + 1);
    assert PutBit(th, d, false) == Reaction(e, []);
    DeafFlag(th, e);
    assert OneBits(n) == OneBits(k) + ([true] + OneBits(n - k - 1));
    var tail := [false] + Flag();
    assert OneBits(n) + tail == OneBits(k) + ([true] + (OneBits(n - k - 1) + tail));
    FeedAppend(th, rx, OneBits(k), [true] + (OneBits(n - k - 1) + tail));
    FeedOne(th, b, true, OneBits(n - k - 1) + tail);
    FeedAppend(th, c, OneBits(n - k - 1), tail);
    FeedOne(th, d, false, Flag());
    assert [Abort] + ([] + ([] + [])) == [Abort];
  }

  lemma SeventhOne(th: int, rx: Rx)
    requires Sane(th, rx) && rx.run == 6 && rx.seen >= th - 1
    ensures PutBit(th, rx, true)
         == Reaction(rx.(run := 7, seen := th - 1, numBits := 0, pending := [], buf := []), [Abort])
  {
  }

  lemma {:induction false} OnesIgnored(th: int, rx: Rx, n: nat)
    requires rx.run == 7 && rx.seen < th
    ensures Feed(th, rx, OneBits(n)) == Reaction(rx.(numBits := rx.numBits + n), [])
    decreases n
  {
    hide Feed;
    if n == 0 {
      FedNothing(th, rx);
    } else {
      var q := rx.(numBits := rx.numBits + 1);
      assert OneBits(n) == [true] + OneBits(n - 1);
      FeedOne(th, rx, true, OneBits(n - 1));
      assert PutBit(th, rx, true) == Reaction(q, []);
      OnesIgnored(th, q, n - 1);
    }
  }

  /** The buffer is full, or the frame already given up. */
  predicate Lost(th: int, rx: Rx) {
    || (rx.seen >= th && |rx.buf| == MAX_FRAME + 2 && rx.numBits == |rx.pending| < 8)
    || (rx.seen == th - 1 && rx.buf == [] && rx.pending == [])
  }

  /** Bits until a full buffer is given up. */
  function Left(th: int, rx: Rx): int {
    if rx.seen < th then 0 else 8 - |rx.pending|
  }

  lemma LostBit(th: int, rx: Rx, bit: bool)
    requires Lost(th, rx) && rx.run < 6 && (rx.run == 5 ==> bit)
    ensures var t := PutBit(th, rx, bit);
            && t.events == [] && Lost(th, t.rx) && t.rx.announced == rx.announced
            && t.rx.run == (if bit then rx.run + 1 else 0)
            && Left(th, t.rx) == if Left(th, rx) > 0 then Left(th, rx) - 1 else 0
  {
  }

  lemma LostStuffedBit(th: int, rx: Rx, bit: bool, rest: Bits) returns (q: Rx)
    requires Lost(th, rx) && rx.run <= 4
    ensures Lost(th, q) && q.announced == rx.announced
    ensures Left(th, q) == if Left(th, rx) > 0 then Left(th, rx) - 1 else 0
    ensures q.run == if bit && rx.run < 4 then rx.run + 1 else 0
    ensures Feed(th, rx, (if bit && rx.run == 4 then [true, false] else [bit]) + rest) == Feed(th, q, rest)
  {
    hide Feed;
    var t := PutBit(th, rx, bit);
    hide PutBit;
    LostBit(th, rx, bit);
    q := t.rx;
    if bit && rx.run == 4 {
      q := t.rx.(run := 0);
      FeedOne(th, rx, true, [false] + rest);
      FeedOne(th, t.rx, false, rest);
      DropsStuffed(th, t.rx);
      assert [true] + ([false] + rest) == [true, false] + rest;
    } else {
      FeedOne(th, rx, bit, rest);
    }
    assert forall e: seq<Event> :: [] + e == e;
  }

  lemma DropsStuffed(th: int, rx: Rx)
    requires rx.run == 5
    ensures PutBit(th, rx, false) == Reaction(rx.(run := 0), [])
  {
  }

  lemma {:induction false} LostStuffed(th: int, rx: Rx, x: Bits) returns (q: Rx)
    requires Lost(th, rx) && rx.run <= 4
    ensures Feed(th, rx, Stuff(x, rx.run)) == Reaction(q, []) && Lost(th, q) && q.announced == rx.announced && q.run <= 4
    ensures Left(th, q) == if Left(th, rx) > |x| then Left(th, rx) - |x| else 0
    decreases |x|
  {
    hide Feed, Lost, Left;
    if x == [] {
      FedNothing(th, rx);
      LeftAtLeast(th, rx);
      q := rx;
    } else {
      var r := LostStuffedBit(th, rx, x[0], Stuff(x[1..], if !x[0] || rx.run == 4 then 0 else rx.run + 1));
      q := LostStuffed(th, r, x[1..]);
    }
  }

  lemma LeftAtLeast(th: int, rx: Rx)
    requires Lost(th, rx)
    ensures 0 <= Left(th, rx) <= 8
  {
  }

  /** The flag behind a frame given up, or about to be, tells nothing and starts the next. */
  lemma LostFlag(th: int, rx: Rx)
    requires Lost(th, rx) && rx.run <= 4 && Left(th, rx) <= 7 && rx.announced
    ensures Feed(th, rx, Flag()) == Reaction(rx.(run := 0, seen := th, numBits := 0, pending := [], buf := []), [])
  {
    hide Feed, PutBit, Flag;
    LostBit(th, rx, false);
    var a := PutBit(th, rx, false).rx;
    var b := LostOnes(th, a, 6);
    assert Flag() == [false] + (OneBits(6) + [false]) by { assert OneBits(6) == [true, true, true, true, true, true]; FlagSpelled(); }
    FeedOne(th, rx, false, OneBits(6) + [false]);
    FeedAppend(th, a, OneBits(6), [false]);
    FeedLast(th, b, false);
    LostCloses(th, b);
    SameRest(th, rx, b);
  }

  lemma FlagSpelled()
    ensures Flag() == [false, true, true, true, true, true, true, false]
  {
  }

  lemma SameRest(th: int, a: Rx, b: Rx)
    requires a.announced == b.announced
    ensures a.(run := 0, seen := th, numBits := 0, pending := [], buf := []) == b.(run := 0, seen := th, numBits := 0, pending := [], buf := [])
  {
  }

  lemma LostCloses(th: int, rx: Rx)
    requires Lost(th, rx) && rx.run == 6 && Left(th, rx) == 0 && rx.announced
    ensures PutBit(th, rx, false) == Reaction(rx.(run := 0, seen := th, numBits := 0, pending := [], buf := []), [])
  {
  }

  lemma {:induction false} LostOnes(th: int, rx: Rx, k: nat) returns (q: Rx)
    requires Lost(th, rx) && rx.run + k <= 6
    ensures Feed(th, rx, OneBits(k)) == Reaction(q, []) && Lost(th, q) && q.announced == rx.announced && q.run == rx.run + k
    ensures Left(th, q) == if Left(th, rx) > k then Left(th, rx) - k else 0
    decreases k
  {
    hide Feed, PutBit, Lost, Left;
    if k == 0 {
      FedNothing(th, rx);
      LeftAtLeast(th, rx);
      q := rx;
    } else {
      LostBit(th, rx, true);
      assert OneBits(k) == [true] + OneBits(k - 1);
      FeedOne(th, rx, true, OneBits(k - 1));
      q := LostOnes(th, PutBit(th, rx, true).rx, k - 1);
    }
  }

  lemma {:induction false} StuffAppend(a: Bits, b: Bits, ones: nat)
    requires ones <= 4
    ensures Stuff(a + b, ones) == Stuff(a, ones) + Stuff(b, OnesAfter(a, ones))
    decreases |a|
  {
    if a == [] {
      assert a + b == b;
    } else {
      assert (a + b)[0] == a[0] && (a + b)[1..] == a[1..] + b;
      StuffAppend(a[1..], b, if !a[0] || ones == 4 then 0 else ones + 1);
    }
  }

  /** More than 402 octets between two flags: nothing is told, and the next frame is taken. */
  lemma OverlongDropped(th: int, rx: Rx, x: Bits)
    requires Idle(rx) && Sane(th, rx) && rx.seen >= th && |x| > 8 * (MAX_FRAME + 2)
    ensures Feed(th, rx, Stuff(x, 0) + Flag()) == Reaction(rx.(seen := th), [])
  {
    hide Feed, Flag, Stuff, OnesAfter, Assemble, Sane;
    SaneMeans(th, rx);
    var n := 8 * (MAX_FRAME + 2);
    assert x == x[..n] + x[n..];
    StuffAppend(x[..n], x[n..], 0);
    FeedStuffed(th, rx, x[..n]);
    FewOnes(x[..n], 0);
    AssembledSize(Fill([], []), x[..n]);
    var f := Assemble(Fill([], []), x[..n]);
    var p := rx.(run := OnesAfter(x[..n], 0), numBits := |f.pending|, pending := f.pending, buf := f.buf);
    assert |f.pending| == 0 && |f.buf| == MAX_FRAME + 2;
    var q := LostStuffed(th, p, x[n..]);
    LostFlag(th, q);
    FeedAppend(th, p, Stuff(x[n..], p.run), Flag());
    FeedAppend(th, rx, Stuff(x[..n], 0), Stuff(x[n..], p.run) + Flag());
    assert Stuff(x, 0) + Flag() == Stuff(x[..n], 0) + (Stuff(x[n..], p.run) + Flag());
  }
}
