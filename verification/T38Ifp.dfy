/** The T.38 IFP layer, version 0 (nf_t38.c): packet coding, bit reversal, and what a received
    packet does to the receiver. */
module T38Ifp {
  import opened BitIo

  type Octets = seq<Byte>

  // ---------------------------------------------------------------- bit order

  /** An octet as its bits, the lowest first. */
  type Word8 = w: Bits | |w| == 8 witness seq(8, _ => false)

  /** The three exchanges of bitrev8: halves, the pairs of each half, the bits of each pair. */
  function SwapNibbles(w: Word8): Word8 {
    w[4..] + w[..4]
  }

  function SwapPairs(w: Word8): Word8 {
    [w[2], w[3], w[0], w[1], w[6], w[7], w[4], w[5]]
  }

  function SwapBits(w: Word8): Word8 {
    [w[1], w[0], w[3], w[2], w[5], w[4], w[7], w[6]]
  }

  function BitRev8(b: Byte): Byte {
    OctetOf(SwapBits(SwapPairs(SwapNibbles(ByteBits(b)))))
  }

  /** Bit k becomes bit 7 - k, so a second reversal undoes the first. */
  lemma ReversalUndone(o: Byte)
    ensures forall k :: 0 <= k < 8 ==> ByteBits(BitRev8(o))[k] == ByteBits(o)[7 - k]
    ensures BitRev8(BitRev8(o)) == o
  {
    hide ByteBits, OctetOf;
    OctetBack(SwapBits(SwapPairs(SwapNibbles(ByteBits(o)))));
    var r := BitRev8(o);
    OctetBack(SwapBits(SwapPairs(SwapNibbles(ByteBits(r)))));
    assert ByteBits(BitRev8(r)) == ByteBits(o);
    ByteInjective(BitRev8(r), o);
  }

  function RevAll(s: Octets): (r: Octets)
    ensures |r| == |s|
  {
    seq(|s|, i requires 0 <= i < |s| => BitRev8(s[i]))
  }

  lemma RevAllUndone(s: Octets)
    ensures RevAll(RevAll(s)) == s
  {
    hide BitRev8;
    forall i | 0 <= i < |s| ensures RevAll(RevAll(s))[i] == s[i] { ReversalUndone(s[i]); }
  }

  lemma RevAllAppend(s: Octets, t: Octets)
    ensures RevAll(s + t) == RevAll(s) + RevAll(t)
  {
    hide BitRev8;
  }

  /** Image bits in octets, the first bit highest. */
  function Unpack(s: Octets): (b: Bits)
    ensures |b| == 8 * |s|
  {
    seq(8 * |s|, i requires 0 <= i < 8 * |s| => ByteBits(s[i / 8])[7 - i % 8])
  }

  function PackOne(b: Bits): Byte
    requires |b| == 8
  {
    OctetOf([b[7], b[6], b[5], b[4], b[3], b[2], b[1], b[0]])
  }

  /** The whole octets of some bits. */
  function Pack(b: Bits): (s: Octets)
    ensures |s| == |b| / 8
  {
    seq(|b| / 8, i requires 0 <= i < |b| / 8 => PackOne(b[8 * i..8 * i + 8]))
  }

  lemma UnpackPack(b: Bits)
    ensures Unpack(Pack(b)) == b[..8 * (|b| / 8)]
  {
    hide ByteBits, PackOne;
    forall i | 0 <= i < 8 * (|b| / 8) ensures Unpack(Pack(b))[i] == b[i] {
      var o := b[8 * (i / 8)..8 * (i / 8) + 8];
      PackedBit(o, i % 8);
      assert o[i % 8] == b[i];
    }
  }

  lemma PackedBit(o: Bits, k: nat)
    requires |o| == 8 && k < 8
    ensures ByteBits(PackOne(o))[7 - k] == o[k]
  {
    hide ByteBits, OctetOf;
    OctetBack([o[7], o[6], o[5], o[4], o[3], o[2], o[1], o[0]]);
  }

  // ---------------------------------------------------------------- packets

  const HDLC_DATA: nat := 0
  const HDLC_SIG_END: nat := 1
  const FCS_OK: nat := 2
  const FCS_BAD: nat := 3
  const FCS_OK_SIG_END: nat := 4
  const FCS_BAD_SIG_END: nat := 5
  const NONECM_DATA: nat := 6
  const NONECM_SIG_END: nat := 7

  datatype Packet = Indicator(ind: nat) | Data(dt: nat, ft: nat, payload: Octets)

  predicate Codable(p: Packet) {
    match p
    case Indicator(ind) => ind < 32
    case Data(dt, ft, payload) => dt < 32 && ft < 8 && |payload| <= 65536
  }

  /** ifp_indicator, ifp_data. */
  function Encode(p: Packet): (b: Octets)
    requires Codable(p)
    ensures b != []
  {
    match p
    case Indicator(ind) => [ByteOf(2 * ind)]
    case Data(dt, ft, payload) =>
      [ByteOf(192 + 2 * dt), 1] + CodeField(ft, payload)
  }

  function ByteOf(n: nat): Byte
    requires n < 256
  {
    n
  }

  function CodeField(ft: nat, payload: Octets): (b: Octets)
    requires ft < 8 && |payload| <= 65536
  {
    if payload == [] then [ByteOf(16 * ft)]
    else [ByteOf(128 + 16 * ft), ByteOf((|payload| - 1) / 256), ByteOf((|payload| - 1) % 256)] + payload
  }

  /** What rx_ifp hands on. */
  datatype Event = Ind(ind: nat) | Field(ft: nat, payload: Octets)

  /** The fields from `pos` on, up to where the packet breaks off. */
  function DecodeFields(b: Octets, pos: nat, count: nat): (out: seq<Event>)
    decreases count
  {
    if count == 0 || pos >= |b| then []
    else
      var ft := b[pos] / 16 % 8;
      if b[pos] < 128 then [Field(ft, [])] + DecodeFields(b, pos + 1, count - 1)
      else if pos + 2 >= |b| then []
      else
        var hi: int, lo: int := b[pos + 1], b[pos + 2];
        var n := hi * 256 + lo + 1;
        if pos + 3 + n > |b| then []
        else [Field(ft, b[pos + 3..pos + 3 + n])] + DecodeFields(b, pos + 3 + n, count - 1)
  }

  function Decode(b: Octets): seq<Event> {
    if b == [] then []
    else if b[0] / 64 % 2 == 0 then if b[0] >= 128 then [] else [Ind(b[0] / 2 % 64)]
    else if |b| == 1 then []
    else if b[1] >= 128 then
      if |b| == 2 then []
      else
        var hi: int, lo: int := b[1], b[2];
        var count := hi % 64 * 256 + lo;
        if count > 64 then [] else DecodeFields(b, 3, count)
    else if b[1] > 64 then [] else DecodeFields(b, 2, b[1])
  }

  function EventOf(p: Packet): Event {
    match p case Indicator(ind) => Ind(ind) case Data(_, ft, payload) => Field(ft, payload)
  }

  /** A coded packet says just what went into it. */
  lemma IfpRoundTrip(p: Packet)
    requires Codable(p)
    ensures Decode(Encode(p)) == [EventOf(p)]
  {
    match p {
      case Indicator(ind) =>
      case Data(dt, ft, payload) =>
        hide CodeField, DecodeFields;
        var b := Encode(p);
        assert b[0] == 192 + 2 * dt && b[1] == 1 && b[2..] == CodeField(ft, payload);
        OneField(b, ft, payload);
    }
  }

  lemma OneField(b: Octets, ft: nat, payload: Octets)
    requires ft < 8 && |payload| <= 65536 && |b| >= 2 && b[2..] == CodeField(ft, payload)
    ensures |b| > 2 && DecodeFields(b, 2, 1) == [Field(ft, payload)]
  {
    if payload == [] { EmptyField(b, ft); } else { FullField(b, ft, payload); }
  }

  lemma EmptyField(b: Octets, ft: nat)
    requires ft < 8 && |b| >= 2 && b[2..] == CodeField(ft, [])
    ensures |b| > 2 && DecodeFields(b, 2, 1) == [Field(ft, [])]
  {
    assert b[2] == b[2..][0];
    assert DecodeFields(b, 3, 0) == [];
  }

  lemma FullField(b: Octets, ft: nat, payload: Octets)
    requires ft < 8 && 1 <= |payload| <= 65536 && |b| >= 2 && b[2..] == CodeField(ft, payload)
    ensures |b| > 2 && DecodeFields(b, 2, 1) == [Field(ft, payload)]
  {
    hide DecodeFields;
    var t := b[2..];
    var n := |payload| - 1;
    assert b[2] == t[0] == 128 + 16 * ft && b[3] == t[1] == n / 256 && b[4] == t[2] == n % 256;
    assert b[5..] == t[3..] == payload;
    assert b[5..5 + |payload|] == payload;
    NoMoreFields(b, 5 + |payload|);
    TakeField(b, ft, n + 1);
  }

  lemma NoMoreFields(b: Octets, pos: nat)
    ensures DecodeFields(b, pos, 0) == []
  {
  }

  lemma TakeField(b: Octets, ft: nat, n: nat)
    requires ft < 8 && n >= 1 && |b| >= 5 + n && b[2] == 128 + 16 * ft && b[3] == (n - 1) / 256 && b[4] == (n - 1) % 256
    ensures DecodeFields(b, 2, 1) == [Field(ft, b[5..5 + n])] + DecodeFields(b, 5 + n, 0)
  {
  }

  // ---------------------------------------------------------------- several fields, broken off

  predicate CodableField(e: Event) {
    e.Field? && e.ft < 8 && |e.payload| <= 65536
  }

  function CodeFields(es: seq<Event>): (b: Octets)
    requires forall i :: 0 <= i < |es| ==> CodableField(es[i])
  {
    if es == [] then []
    else
      assert CodableField(es[0]);
      CodeField(es[0].ft, es[0].payload) + CodeFields(es[1..])
  }

  function LengthAt(b: Octets, pos: nat): (n: nat)
    requires pos + 2 < |b|
  {
    var hi: int, lo: int := b[pos + 1], b[pos + 2];
    hi * 256 + lo + 1
  }

  lemma ShortField(b: Octets, pos: nat, count: nat)
    requires pos < |b| && b[pos] < 128 && count > 0
    ensures DecodeFields(b, pos, count) == [Field(b[pos] / 16 % 8, [])] + DecodeFields(b, pos + 1, count - 1)
  {
  }

  lemma LongField(b: Octets, pos: nat, count: nat)
    requires pos + 2 < |b| && b[pos] >= 128 && pos + 3 + LengthAt(b, pos) <= |b| && count > 0
    ensures var end := pos + 3 + LengthAt(b, pos);
            DecodeFields(b, pos, count) == [Field(b[pos] / 16 % 8, b[pos + 3..end])] + DecodeFields(b, end, count - 1)
  {
  }

  lemma NoField(b: Octets, pos: nat, count: nat)
    requires pos >= |b| || (b[pos] >= 128 && (pos + 2 >= |b| || pos + 3 + LengthAt(b, pos) > |b|))
    ensures DecodeFields(b, pos, count) == []
  {
  }

  lemma FirstShort(b: Octets, pos: nat, ft: nat, rest: Octets, count: nat)
    requires ft < 8 && pos <= |b| && b[pos..] == CodeField(ft, []) + rest && count > 0
    ensures pos + 1 <= |b| && b[pos + 1..] == rest && DecodeFields(b, pos, count) == [Field(ft, [])] + DecodeFields(b, pos + 1, count - 1)
  {
    hide DecodeFields;
    assert b[pos..][0] == 16 * ft;
    assert b[pos + 1..] == b[pos..][1..];
    ShortField(b, pos, count);
  }

  lemma FirstLong(b: Octets, pos: nat, ft: nat, payload: Octets, rest: Octets, count: nat)
    requires ft < 8 && 1 <= |payload| <= 65536 && pos <= |b| && b[pos..] == CodeField(ft, payload) + rest && count > 0
    ensures var end := pos + 3 + |payload|;
            end <= |b| && b[end..] == rest && DecodeFields(b, pos, count) == [Field(ft, payload)] + DecodeFields(b, end, count - 1)
  {
    hide DecodeFields;
    var t, n := b[pos..], |payload| - 1;
    assert b[pos] == t[0] == 128 + 16 * ft && b[pos + 1] == t[1] == n / 256 && b[pos + 2] == t[2] == n % 256;
    assert LengthAt(b, pos) == |payload|;
    var end := pos + 3 + |payload|;
    assert b[pos + 3..end] == t[3..3 + |payload|] == payload;
    assert b[end..] == t[3 + |payload|..] == rest;
    LongField(b, pos, count);
  }

  lemma FirstField(b: Octets, pos: nat, e: Event, rest: Octets, count: nat)
    requires CodableField(e) && pos <= |b| && b[pos..] == CodeField(e.ft, e.payload) + rest && count > 0
    ensures var next := pos + |CodeField(e.ft, e.payload)|;
            next <= |b| && b[next..] == rest && DecodeFields(b, pos, count) == [e] + DecodeFields(b, next, count - 1)
  {
    FieldLength(e.ft, e.payload);
    hide DecodeFields, CodeField;
    if e.payload == [] { FirstShort(b, pos, e.ft, rest, count); } else { FirstLong(b, pos, e.ft, e.payload, rest, count); }
  }

  lemma FieldLength(ft: nat, payload: Octets)
    requires ft < 8 && |payload| <= 65536
    ensures |CodeField(ft, payload)| == if payload == [] then 1 else 3 + |payload|
  {
  }

  lemma {:induction false} FieldsFrom(b: Octets, pos: nat, es: seq<Event>, rest: Octets)
    requires forall i :: 0 <= i < |es| ==> CodableField(es[i])
    requires pos <= |b| && b[pos..] == CodeFields(es) + rest
    ensures DecodeFields(b, pos, |es|) == es
    decreases |es|
  {
    hide DecodeFields, CodeField;
    if es == [] {
      NoMoreFields(b, pos);
    } else {
      assert CodableField(es[0]);
      Assoc(CodeField(es[0].ft, es[0].payload), CodeFields(es[1..]), rest);
      FirstField(b, pos, es[0], CodeFields(es[1..]) + rest, |es|);
      FieldsFrom(b, pos + |CodeField(es[0].ft, es[0].payload)|, es[1..], rest);
      assert es == [es[0]] + es[1..];
    }
  }

  /** A packet of up to 64 fields, as peers may send, says all of them in order, whatever
      follows them. */
  lemma SeveralFields(dt: nat, es: seq<Event>, rest: Octets)
    requires dt < 32 && |es| <= 64 && forall i :: 0 <= i < |es| ==> CodableField(es[i])
    ensures Decode([ByteOf(192 + 2 * dt), ByteOf(|es|)] + CodeFields(es) + rest) == es
  {
    hide DecodeFields, CodeField, CodeFields;
    var b := [ByteOf(192 + 2 * dt), ByteOf(|es|)] + CodeFields(es) + rest;
    assert b[0] == 192 + 2 * dt && b[1] == |es| && b[2..] == CodeFields(es) + rest;
    FieldsFrom(b, 2, es, rest);
  }

  lemma {:induction false} FewerFields(b: Octets, k: nat, pos: nat, count: nat)
    requires k <= |b|
    ensures DecodeFields(b[..k], pos, count) <= DecodeFields(b, pos, count)
    decreases count
  {
    hide DecodeFields;
    if count == 0 {
      NoMoreFields(b[..k], pos);
    } else if pos >= k {
      NoField(b[..k], pos, count);
    } else if b[pos] < 128 {
      ShortField(b[..k], pos, count);
      ShortField(b, pos, count);
      FewerFields(b, k, pos + 1, count - 1);
    } else if pos + 2 >= k || pos + 3 + LengthAt(b, pos) > k {
      NoField(b[..k], pos, count);
    } else {
      var end := pos + 3 + LengthAt(b, pos);
      LongField(b[..k], pos, count);
      LongField(b, pos, count);
      assert b[..k][pos + 3..end] == b[pos + 3..end];
      FewerFields(b, k, end, count - 1);
    }
  }

  /** A packet broken off anywhere says the first of what the whole one says: its complete
      fields, and nothing made up. */
  lemma BrokenOff(b: Octets, k: nat)
    requires k <= |b|
    ensures Decode(b[..k]) <= Decode(b)
  {
    hide DecodeFields;
    if k >= 2 {
      FewerFields(b, k, 2, b[1]);
      if b[1] >= 128 && k > 2 {
        var hi: int, lo: int := b[1], b[2];
        FewerFields(b, k, 3, hi % 64 * 256 + lo);
      }
    }
  }

  // ---------------------------------------------------------------- the receiver

  const ROOM: nat := 600
  const NO_SIGNAL: nat := 0
  const CNG: nat := 1
  const CED: nat := 2
  const V21_PREAMBLE: nat := 3

  /** Reassembly buffer and carrier. */
  datatype Rx = Rx(hdlc: Octets, carrier: bool, fast: bool)

  /** What goes up to the T.30 engine. */
  datatype Output = Accept(frame: Octets, ok: bool) | Bit(b: bool) | CarrierUp | Trained | CarrierDown

  datatype Handled = Handled(rx: Rx, out: seq<Output>)

  function Drop(s: Rx): Handled {
    Handled(s.(carrier := false), if s.carrier && s.fast then [CarrierDown] else [])
  }

  function TakeFrame(s: Rx, ok: bool): Handled {
    Handled(s.(hdlc := []), if s.hdlc != [] then [Accept(s.hdlc, ok)] else [])
  }

  function TakeAndDrop(s: Rx, ok: bool): Handled {
    var t := TakeFrame(s, ok);
    var d := Drop(t.rx);
    Handled(d.rx, t.out + d.out)
  }

  function BitsUp(b: Bits): (o: seq<Output>)
    ensures |o| == |b|
  {
    seq(|b|, i requires 0 <= i < |b| => Bit(b[i]))
  }

  /** rx_indicator, rx_data_field. */
  function Handle(s: Rx, e: Event): Handled {
    match e
    case Ind(ind) =>
      var d := Drop(s);
      var t := d.rx.(hdlc := []);
      if ind == NO_SIGNAL || ind == CNG || ind == CED then Handled(t.(fast := false), d.out)
      else
        var fast := ind != V21_PREAMBLE;
        Handled(t.(fast := fast, carrier := true), d.out + if fast then [CarrierUp, Trained] else [])
    case Field(ft, p) =>
      if ft == HDLC_DATA then
        Handled(if p != [] && |s.hdlc| + |p| <= ROOM then s.(hdlc := s.hdlc + RevAll(p)) else s, [])
      else if ft == FCS_OK then TakeFrame(s, true)
      else if ft == FCS_BAD then TakeFrame(s, false)
      else if ft == FCS_OK_SIG_END || ft == HDLC_SIG_END then TakeAndDrop(s, true)
      else if ft == FCS_BAD_SIG_END then TakeAndDrop(s, false)
      else if ft == NONECM_DATA then Handled(s, BitsUp(Unpack(p)))
      else if ft == NONECM_SIG_END then Drop(s)
      else Handled(s, [])
  }

  function HandleAll(s: Rx, es: seq<Event>): Handled
    decreases |es|
  {
    if es == [] then Handled(s, [])
    else
      var h := Handle(s, es[0]);
      var t := HandleAll(h.rx, es[1..]);
      Handled(t.rx, h.out + t.out)
  }

  lemma {:induction false} HandleAllAppend(s: Rx, a: seq<Event>, b: seq<Event>)
    ensures var h := HandleAll(s, a); var t := HandleAll(h.rx, b); HandleAll(s, a + b) == Handled(t.rx, h.out + t.out)
    decreases |a|
  {
    hide Handle;
    if a == [] {
      assert a + b == b;
    } else {
      assert (a + b)[0] == a[0] && (a + b)[1..] == a[1..] + b;
      HandleAllAppend(Handle(s, a[0]).rx, a[1..], b);
    }
  }

  lemma HandleOne(s: Rx, e: Event)
    ensures HandleAll(s, [e]) == Handle(s, e)
  {
    hide Handle;
    var h := Handle(s, e);
    assert [e][1..] == [] && HandleAll(h.rx, []) == Handled(h.rx, []) && h.out + [] == h.out;
  }

  function Events(ps: seq<Packet>): (es: seq<Event>)
    ensures |es| == |ps|
  {
    seq(|ps|, i requires 0 <= i < |ps| => EventOf(ps[i]))
  }

  // ---------------------------------------------------------------- which frames go up as good

  /** A field that closes a frame as received without error. */
  predicate ClosesGood(e: Event) {
    e.Field? && (e.ft == FCS_OK || e.ft == FCS_OK_SIG_END || e.ft == HDLC_SIG_END)
  }

  /** A field that closes a frame as damaged. */
  predicate ClosesBad(e: Event) {
    e.Field? && (e.ft == FCS_BAD || e.ft == FCS_BAD_SIG_END)
  }

  function DataEvents(chunks: seq<Octets>): (es: seq<Event>)
    ensures |es| == |chunks|
  {
    seq(|chunks|, i requires 0 <= i < |chunks| => Field(HDLC_DATA, chunks[i]))
  }

  function Joined(chunks: seq<Octets>): Octets {
    if chunks == [] then [] else Joined(chunks[..|chunks| - 1]) + chunks[|chunks| - 1]
  }

  /** Chunks are collected while there is room. */
  lemma {:induction false} Collected(s: Rx, chunks: seq<Octets>)
    requires |s.hdlc| + |Joined(chunks)| <= ROOM
    ensures HandleAll(s, DataEvents(chunks)) == Handled(s.(hdlc := s.hdlc + RevAll(Joined(chunks))), [])
    decreases |chunks|
  {
    if chunks == [] {
      hide HandleAll;
      HandleNone(s);
      assert RevAll([]) == [] && s.hdlc + [] == s.hdlc && DataEvents([]) == [];
    } else {
      var n := |chunks| - 1;
      var c := chunks[n];
      var before := Joined(chunks[..n]);
      assert Joined(chunks) == before + c;
      assert DataEvents(chunks) == DataEvents(chunks[..n]) + [Field(HDLC_DATA, c)];
      hide HandleAll, Joined, DataEvents, RevAll, Handle;
      Collected(s, chunks[..n]);
      HandleAllAppend(s, DataEvents(chunks[..n]), [Field(HDLC_DATA, c)]);
      RevAllLength(before);
      ChunkTaken(s.(hdlc := s.hdlc + RevAll(before)), c);
      RevAllJoin(s.hdlc, before, c);
    }
  }

  lemma RevAllLength(p: Octets)
    ensures |RevAll(p)| == |p|
  {
  }

  lemma RevAllJoin(a: Octets, b: Octets, c: Octets)
    ensures (a + RevAll(b)) + RevAll(c) == a + RevAll(b + c)
  {
    RevAllAppend(b, c);
    Assoc(a, RevAll(b), RevAll(c));
  }

  lemma ChunkTaken(s: Rx, c: Octets)
    requires |s.hdlc| + |c| <= ROOM
    ensures HandleAll(s, [Field(HDLC_DATA, c)]) == Handled(s.(hdlc := s.hdlc + RevAll(c)), [])
  {
    HandleOne(s, Field(HDLC_DATA, c));
    hide HandleAll;
    if c == [] { assert RevAll(c) == [] && s.hdlc + [] == s.hdlc; }
  }

  lemma HandleNone(s: Rx)
    ensures HandleAll(s, []) == Handled(s, [])
  {
  }

  /** A frame in chunks and the field that closes it: it goes up once, as good exactly if the
      field says so, and nothing of it is left. */
  lemma FrameCloses(s: Rx, chunks: seq<Octets>, e: Event)
    requires s.hdlc == [] && 0 < |Joined(chunks)| <= ROOM && (ClosesGood(e) || ClosesBad(e))
    ensures var h := HandleAll(s, DataEvents(chunks) + [e]);
            var down := if e.ft == FCS_OK || e.ft == FCS_BAD || !(s.carrier && s.fast) then [] else [CarrierDown];
            h.out == [Accept(RevAll(Joined(chunks)), ClosesGood(e))] + down && h.rx.hdlc == []
  {
    hide HandleAll;
    Collected(s, chunks);
    HandleAllAppend(s, DataEvents(chunks), [e]);
    var frame := RevAll(Joined(chunks));
    assert s.hdlc + frame == frame && |frame| > 0;
    HandleOne(s.(hdlc := frame), e);
    var down: seq<Output> := [CarrierDown];
    assert [Accept(frame, ClosesGood(e))] + [] == [Accept(frame, ClosesGood(e))];
    assert forall o: seq<Output> :: [] + o == o;
  }

  function GoodCloses(es: seq<Event>): nat {
    if es == [] then 0 else (if ClosesGood(es[0]) then 1 else 0) + GoodCloses(es[1..])
  }

  /** Frames that went up as good. */
  function GoodFrames(o: seq<Output>): nat {
    if o == [] then 0 else (if o[0].Accept? && o[0].ok then 1 else 0) + GoodFrames(o[1..])
  }

  lemma {:induction false} GoodFramesAppend(a: seq<Output>, b: seq<Output>)
    ensures GoodFrames(a + b) == GoodFrames(a) + GoodFrames(b)
  {
    if a == [] {
      assert a + b == b;
    } else {
      assert (a + b)[0] == a[0] && (a + b)[1..] == a[1..] + b;
      GoodFramesAppend(a[1..], b);
    }
  }

  lemma {:induction false} NoGoodBits(b: Bits)
    ensures GoodFrames(BitsUp(b)) == 0
  {
    if b != [] {
      assert BitsUp(b)[1..] == BitsUp(b[1..]);
      NoGoodBits(b[1..]);
    }
  }

  lemma OneGoodAtMost(s: Rx, e: Event)
    ensures GoodFrames(Handle(s, e).out) <= if ClosesGood(e) then 1 else 0
  {
    hide Unpack, GoodFrames;
    if e.Field? { NoGoodBits(Unpack(e.payload)); }
    TwoOutputs(Accept(s.hdlc, true), CarrierDown);
    TwoOutputs(Accept(s.hdlc, false), CarrierDown);
    TwoOutputs(CarrierUp, Trained);
    TwoOutputs(CarrierDown, CarrierUp);
    GoodFramesAppend([], [CarrierUp, Trained]);
    GoodFramesAppend([CarrierDown], [CarrierUp, Trained]);
    GoodFramesAppend([CarrierDown], []);
    assert forall o: seq<Output> :: [] + o == o && o + [] == o;
  }

  lemma TwoOutputs(a: Output, b: Output)
    ensures GoodFrames([a]) == if a.Accept? && a.ok then 1 else 0
    ensures GoodFrames([a, b]) == (if a.Accept? && a.ok then 1 else 0) + if b.Accept? && b.ok then 1 else 0
    ensures GoodFrames([]) == 0 && [a] + [b] == [a, b] && [] + [b] == [b] && [a] + [] == [a]
  {
    assert [a][1..] == [] && [a, b][1..] == [b] && [b][1..] == [];
    assert [a] + [b] == [a, b];
    assert [] + [b] == [b];
    assert [a] + [] == [a];
  }

  /** Whatever arrives, no more frames go up as good than fields closed one as good: a frame
      closed by FCS_BAD or FCS_BAD_SIG_END never does. */
  lemma {:induction false} NoMoreGood(s: Rx, es: seq<Event>)
    ensures GoodFrames(HandleAll(s, es).out) <= GoodCloses(es)
    decreases |es|
  {
    hide Handle;
    if es != [] {
      var h := Handle(s, es[0]);
      OneGoodAtMost(s, es[0]);
      NoMoreGood(h.rx, es[1..]);
      GoodFramesAppend(h.out, HandleAll(h.rx, es[1..]).out);
    }
  }
}
