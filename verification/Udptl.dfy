/** The UDPTL redundancy transport (ITU-T T.38, Annex B; nf_udptl.c) as functions: the length
    and open-type codec, the datagram, and the receiver's recovery of gaps in 16-bit sequence
    space, with the proof of what a losing, duplicating and reordering network delivers. */
module Udptl {
  import opened Arithmetic
  import opened BitIo

  const HISTORY: nat := 16
  const MAX_IFP: nat := 512
  const MAX_DATAGRAM: nat := 1400
  const SEQ: nat := 0x1_0000
  const HALF: nat := 0x8000

  type Octets = seq<Byte>

  // ---------------------------------------------------------------- length and open type

  /** One octet below 128, two below 16384; longer values are not sent. */
  function EncLength(v: nat): (b: Octets)
    requires v < 0x4000
    ensures 1 <= |b| <= 2
  {
    if v < 0x80 then [v] else [0x80 + v / 256, v % 256]
  }

  /** A length and as many octets; nothing is sent as a single zero octet. */
  function EncOpen(d: Octets): (b: Octets)
    requires |d| < 0x4000
  {
    if d == [] then [1, 0] else EncLength(|d|) + d
  }

  datatype Length = NoLength | Length(value: nat, pos: nat, more: bool)

  function DecLength(buf: Octets, pos: nat): (r: Length)
    ensures r.Length? ==> pos < r.pos <= |buf| && (r.more ==> r.value % 0x4000 == 0)
  {
    if pos >= |buf| then NoLength
    else
      var b: int := buf[pos];
      if b < 0x80 then Length(b, pos + 1, false)
      else if b < 0xC0 then
        if pos + 1 >= |buf| then NoLength
        else
          var c: int := buf[pos + 1];
          Length((b - 0x80) * 256 + c, pos + 2, false)
      else Length((b - 0xC0) * 0x4000, pos + 1, true)
  }

  datatype Open = NoOpen | Open(data: Octets, pos: nat)

  /** Fragmented values are refused. */
  function DecOpen(buf: Octets, pos: nat): (r: Open)
    ensures r.Open? ==> pos < r.pos <= |buf|
  {
    var n := DecLength(buf, pos);
    if n.NoLength? || n.more || n.pos + n.value > |buf| then NoOpen
    else Open(buf[n.pos..n.pos + n.value], n.pos + n.value)
  }

  /** `x` occurs in `buf` at `pos`. */
  predicate Has(buf: Octets, pos: nat, x: Octets) {
    pos + |x| <= |buf| && buf[pos..pos + |x|] == x
  }

  lemma HasSplit(buf: Octets, pos: nat, x: Octets, y: Octets)
    ensures Has(buf, pos, x + y) <==> Has(buf, pos, x) && Has(buf, pos + |x|, y)
  {
    if Has(buf, pos, x + y) {
      assert buf[pos..pos + |x|] == buf[pos..pos + |x + y|][..|x|];
      assert buf[pos + |x|..pos + |x| + |y|] == buf[pos..pos + |x + y|][|x|..];
    }
    if Has(buf, pos, x) && Has(buf, pos + |x|, y) {
      assert buf[pos..pos + |x + y|] == buf[pos..pos + |x|] + buf[pos + |x|..pos + |x| + |y|];
    }
  }

  lemma LengthRoundTrip(buf: Octets, pos: nat, v: nat)
    requires v < 0x4000 && Has(buf, pos, EncLength(v))
    ensures DecLength(buf, pos) == Length(v, pos + |EncLength(v)|, false)
  {
    var e := EncLength(v);
    assert buf[pos] == buf[pos..pos + |e|][0] == e[0];
    if v >= 0x80 {
      assert buf[pos + 1] == buf[pos..pos + |e|][1] == e[1];
      assert v / 256 < 0x40;
    }
  }

  /** Non-empty packets come back as sent; an empty one as one zero octet. */
  lemma OpenRoundTrip(buf: Octets, pos: nat, d: Octets)
    requires |d| < 0x4000 && Has(buf, pos, EncOpen(d))
    ensures DecOpen(buf, pos) == Open(if d == [] then [0] else d, pos + |EncOpen(d)|)
  {
    var x: Octets := if d == [] then [0] else d;
    assert EncOpen(d) == EncLength(|x|) + x;
    HasSplit(buf, pos, EncLength(|x|), x);
    LengthRoundTrip(buf, pos, |x|);
  }

  // ---------------------------------------------------------------- the datagram

  /** A packet that can be carried. */
  predicate Packet(d: Octets) {
    1 <= |d| <= MAX_IFP
  }

  predicate Packets(ds: seq<Octets>) {
    forall i :: 0 <= i < |ds| ==> Packet(ds[i])
  }

  function EncList(ds: seq<Octets>): Octets
    requires Packets(ds)
  {
    if ds == [] then []
    else
      assert Packet(ds[0]);
      EncOpen(ds[0]) + EncList(ds[1..])
  }

  /** Sequence number, primary, redundancy marker, secondaries, the latest first. */
  function Head(seqNo: nat, primary: Octets): Octets
    requires seqNo < SEQ && Packet(primary)
  {
    [seqNo / 256, seqNo % 256] + EncOpen(primary) + [0]
  }

  function Encode(seqNo: nat, primary: Octets, secs: seq<Octets>): Octets
    requires seqNo < SEQ && Packet(primary) && Packets(secs) && |secs| < HISTORY
  {
    Head(seqNo, primary) + EncLength(|secs|) + EncList(secs)
  }

  datatype Parsed = Malformed | Parsed(seqNo: nat, primary: Octets, secs: seq<Octets>)

  datatype List = NoList | List(secs: seq<Octets>, pos: nat)

  /** `n` open types. */
  function DecList(buf: Octets, pos: nat, n: nat): (r: List)
    ensures r.List? ==> |r.secs| == n && pos <= r.pos && (pos <= |buf| ==> r.pos <= |buf|)
    decreases n
  {
    if n == 0 then List([], pos)
    else
      var x := DecOpen(buf, pos);
      if x.NoOpen? then NoList
      else
        var rest := DecList(buf, x.pos, n - 1);
        if rest.NoList? then NoList else List([x.data] + rest.secs, rest.pos)
  }

  /** Counted secondaries, at most sixteen in all; a fragmented count announces another. */
  function DecSecs(buf: Octets, pos: nat, secs: seq<Octets>): (r: List)
    requires |secs| <= HISTORY && pos <= |buf|
    ensures r.List? ==> |r.secs| <= HISTORY
    decreases |buf| - pos
  {
    var n := DecLength(buf, pos);
    if n.NoLength? || |secs| + n.value > HISTORY then NoList
    else
      var x := DecList(buf, n.pos, n.value);
      if x.NoList? then NoList
      else if n.more then DecSecs(buf, x.pos, secs + x.secs)
      else List(secs + x.secs, x.pos)
  }

  function Parse(buf: Octets): (r: Parsed)
    ensures r.Parsed? ==> r.seqNo < SEQ && |r.secs| <= HISTORY
  {
    if |buf| < 2 then Malformed
    else
      var p := DecOpen(buf, 2);
      if p.NoOpen? || |p.data| > MAX_IFP || p.pos >= |buf| then Malformed
      else
        var high: int, low: int := buf[0], buf[1];
        var s := high * 256 + low;
        if buf[p.pos] >= 0x80 then Parsed(s, p.data, [])
        else
          var x := DecSecs(buf, p.pos + 1, []);
          if x.NoList? then Malformed else Parsed(s, p.data, x.secs)
  }

  lemma {:induction false} ListRoundTrip(buf: Octets, pos: nat, ds: seq<Octets>)
    requires Packets(ds) && Has(buf, pos, EncList(ds))
    ensures DecList(buf, pos, |ds|) == List(ds, pos + |EncList(ds)|)
    decreases |ds|
  {
    hide EncOpen, DecOpen, Has;
    if ds != [] {
      assert Packet(ds[0]);
      HasSplit(buf, pos, EncOpen(ds[0]), EncList(ds[1..]));
      OpenRoundTrip(buf, pos, ds[0]);
      ListRoundTrip(buf, pos + |EncOpen(ds[0])|, ds[1..]);
      assert ds == [ds[0]] + ds[1..];
    }
  }

  /** A datagram is parsed into what it was built from. */
  lemma DatagramRoundTrip(seqNo: nat, primary: Octets, secs: seq<Octets>)
    requires seqNo < SEQ && Packet(primary) && Packets(secs) && |secs| < HISTORY
    ensures Parse(Encode(seqNo, primary, secs)) == Parsed(seqNo, primary, secs)
  {
    hide EncOpen, EncLength, EncList, DecOpen, DecLength, DecList, Has;
    var buf := Encode(seqNo, primary, secs);
    var n, l := EncLength(|secs|), EncList(secs);
    var h: Octets := [seqNo / 256, seqNo % 256];
    var p := 2 + |EncOpen(primary)|;
    assert buf == h + (EncOpen(primary) + ([0] + (n + l)));
    HasWhole(buf);
    HasSplit(buf, 0, h, EncOpen(primary) + ([0] + (n + l)));
    HasSplit(buf, 2, EncOpen(primary), [0] + (n + l));
    HasSplit(buf, p, [0], n + l);
    HasSplit(buf, p + 1, n, l);
    HasFirst(buf, p, [0]);
    OpenRoundTrip(buf, 2, primary);
    LengthRoundTrip(buf, p + 1, |secs|);
    ListRoundTrip(buf, p + 1 + |n|, secs);
    assert [] + secs == secs;
  }

  lemma HasWhole(buf: Octets)
    ensures Has(buf, 0, buf)
  {
  }

  lemma HasFirst(buf: Octets, pos: nat, x: Octets)
    requires Has(buf, pos, x) && x != []
    ensures pos < |buf| && buf[pos] == x[0]
  {
    assert buf[pos] == buf[pos..pos + |x|][0];
  }

  // ---------------------------------------------------------------- the sender

  /** The `m` packets before packet `n`, the latest first. */
  function Previous(sent: seq<Octets>, n: nat, m: nat): (ds: seq<Octets>)
    requires m <= n <= |sent|
    ensures |ds| == m
  {
    seq(m, i requires 0 <= i < m => sent[n - 1 - i])
  }

  /** How many of the `want` earlier packets fit: up to the buffer and the peer's limit, the
      first that does not fit ends it. */
  function Fitting(sent: seq<Octets>, n: nat, want: nat, cap: int, limit: int, len: nat, m: nat): (k: nat)
    requires m <= want <= n <= |sent| && Packets(sent)
    ensures m <= k <= want
    decreases want - m
  {
    if m == want then m
    else
      assert Packet(sent[n - 1 - m]);
      var d := sent[n - 1 - m];
      var next := len + |EncOpen(d)|;
      if len + 3 + |d| > cap || next > limit then m else Fitting(sent, n, want, cap, limit, next, m + 1)
  }

  function Least(a: nat, b: nat): (c: nat)
    ensures c <= a && c <= b && (c == a || c == b)
  {
    if a > b then b else a
  }

  /** Secondaries of the datagram that carries packet `n`. */
  function Redundancy(sent: seq<Octets>, n: nat, red: nat, cap: int, limit: int): (k: nat)
    requires n < |sent| && Packets(sent)
    ensures k <= red && k <= n
  {
    assert Packet(sent[n]);
    Fitting(sent, n, Least(n, red), cap, limit, |Head(n % SEQ, sent[n])| + 1, 0)
  }

  // ---------------------------------------------------------------- the receiver

  datatype Rx = Rx(started: bool, expected: nat)

  datatype Delivery = Delivery(ifp: Octets, seqNo: nat)

  datatype Handled = Handled(rx: Rx, out: seq<Delivery>)

  /** Secondaries `m`, `m` - 1 ... 1 back from `s`: empty ones are passed over. */
  function Recovered(secs: seq<Octets>, s: nat, m: nat): seq<Delivery>
    requires m <= |secs|
    decreases m
  {
    if m == 0 then []
    else (if |secs[m - 1]| > 0 then [Delivery(secs[m - 1], (s - m) % SEQ)] else []) + Recovered(secs, s, m - 1)
  }

  /** The part of nf_udptl_rx behind the parsing: old numbers are dropped, a gap is filled oldest first. */
  function Handle(rx0: Rx, p: Parsed): Handled
    requires p.Parsed?
  {
    var rx := if rx0.started then rx0 else Rx(true, p.seqNo);
    var fwd := (p.seqNo - rx.expected) % SEQ;
    if fwd >= HALF then Handled(rx, [])
    else
      var gap := if fwd > |p.secs| then |p.secs| else fwd;
      Handled(rx.(expected := (p.seqNo + 1) % SEQ), Recovered(p.secs, p.seqNo, gap) + [Delivery(p.primary, p.seqNo)])
  }

  /** nf_udptl_rx: a malformed datagram changes nothing. */
  function Receive(rx: Rx, buf: Octets): Handled {
    var p := Parse(buf);
    if p.Malformed? then Handled(rx, []) else Handle(rx, p)
  }

  /** Whatever octets arrive, one datagram after another: all that is handed over. */
  function ReceiveAll(rx: Rx, bufs: seq<Octets>): seq<Delivery>
    decreases |bufs|
  {
    if bufs == [] then []
    else
      var t := Receive(rx, bufs[0]);
      t.out + ReceiveAll(t.rx, bufs[1..])
  }

  // ---------------------------------------------------------------- over the network

  lemma EarlierPackets(sent: seq<Octets>, n: nat, k: nat)
    requires n < |sent| && k <= n && Packets(sent)
    ensures Packet(sent[n]) && Packets(Previous(sent, n, k))
  {
    forall i | 0 <= i < k ensures Packet(Previous(sent, n, k)[i]) { assert Packet(sent[n - 1 - i]); }
  }

  /** The octets that carry packet `n` and the `k` packets before it. */
  function Datagram(sent: seq<Octets>, n: nat, k: nat): (b: Octets)
    requires n < |sent| && k <= n && k < HISTORY && Packets(sent)
  {
    EarlierPackets(sent, n, k);
    Encode(n % SEQ, sent[n], Previous(sent, n, k))
  }

  lemma SmallCount(k: nat)
    requires k < HISTORY
    ensures EncLength(k) == [k]
  {
  }

  lemma NoSecondaries(sent: seq<Octets>, n: nat)
    requires n <= |sent|
    ensures Packets(Previous(sent, n, 0)) && EncList(Previous(sent, n, 0)) == []
  {
  }

  lemma OneMore(sent: seq<Octets>, n: nat, m: nat)
    requires m < n <= |sent| && Packets(sent)
    ensures Packets(Previous(sent, n, m)) && Packets(Previous(sent, n, m + 1)) && Packet(sent[n - 1 - m])
    ensures EncList(Previous(sent, n, m + 1)) == EncList(Previous(sent, n, m)) + EncOpen(sent[n - 1 - m])
  {
    assert Packet(sent[n - 1 - m]);
    assert Previous(sent, n, m + 1) == Previous(sent, n, m) + [sent[n - 1 - m]];
    ListSnoc(Previous(sent, n, m), sent[n - 1 - m]);
  }

  lemma {:induction false} ListSnoc(ds: seq<Octets>, d: Octets)
    requires Packets(ds) && Packet(d)
    ensures Packets(ds + [d]) && EncList(ds + [d]) == EncList(ds) + EncOpen(d)
  {
    hide EncOpen;
    if ds != [] {
      ListSnoc(ds[1..], d);
      assert (ds + [d])[0] == ds[0] && (ds + [d])[1..] == ds[1..] + [d];
    } else {
      assert (ds + [d])[1..] == [];
    }
  }

  lemma FittingStep(sent: seq<Octets>, n: nat, want: nat, cap: int, limit: int, len: nat, m: nat)
    requires m <= want <= n <= |sent| && Packets(sent)
    ensures Fitting(sent, n, want, cap, limit, len, m)
         == if m == want then m
            else
              assert Packet(sent[n - 1 - m]);
              var d := sent[n - 1 - m];
              if len + 3 + |d| > cap || len + |EncOpen(d)| > limit then m
              else Fitting(sent, n, want, cap, limit, len + |EncOpen(d)|, m + 1)
  {
    hide EncOpen;
  }

  // ---------------------------------------------------------------- how much is sent along

  /** The `j`-th packet back has room: with it the datagram is within the peer's limit, and the
      buffer has three octets to spare for its length before it is put in. */
  predicate Room(sent: seq<Octets>, n: nat, j: nat, cap: int, limit: int)
    requires n < |sent| && 0 < j <= n && j < HISTORY && Packets(sent)
  {
    |Datagram(sent, n, j)| <= limit && |Datagram(sent, n, j - 1)| + 3 + |sent[n - j]| <= cap
  }

  /** `k` of the `want` packets asked for, and no more have room. */
  ghost predicate AsManyAsFit(sent: seq<Octets>, n: nat, want: nat, cap: int, limit: int, k: nat)
    requires n < |sent| && Packets(sent) && want < HISTORY
  {
    && k <= want && want <= n
    && (forall j :: 0 < j <= k ==> Room(sent, n, j, cap, limit))
    && (k < want ==> !Room(sent, n, k + 1, cap, limit))
  }

  lemma DatagramIs(sent: seq<Octets>, n: nat, k: nat)
    requires n < |sent| && k <= n && k < HISTORY && Packets(sent)
    ensures Packet(sent[n]) && Packets(Previous(sent, n, k))
    ensures |Datagram(sent, n, k)| == |Head(n % SEQ, sent[n])| + 1 + |EncList(Previous(sent, n, k))|
  {
    EarlierPackets(sent, n, k);
    SmallCount(k);
    hide EncLength, EncList, Head, Previous;
  }

  /** With one more the datagram is longer by its open type. */
  lemma DatagramGrows(sent: seq<Octets>, n: nat, m: nat)
    requires n < |sent| && m + 1 <= n && m + 1 < HISTORY && Packets(sent)
    ensures Packet(sent[n - 1 - m]) && |Datagram(sent, n, m + 1)| == |Datagram(sent, n, m)| + |EncOpen(sent[n - 1 - m])|
  {
    hide EncOpen, EncList, Head, Previous, Datagram;
    DatagramIs(sent, n, m);
    DatagramIs(sent, n, m + 1);
    OneMore(sent, n, m);
  }

  lemma {:induction false} FittingIsMost(sent: seq<Octets>, n: nat, want: nat, cap: int, limit: int, m: nat)
    requires n < |sent| && m <= want <= n && want < HISTORY && Packets(sent)
    requires forall j :: 0 < j <= m ==> Room(sent, n, j, cap, limit)
    ensures AsManyAsFit(sent, n, want, cap, limit, Fitting(sent, n, want, cap, limit, |Datagram(sent, n, m)|, m))
    decreases want - m
  {
    hide EncOpen, Datagram, Fitting, Packets;
    FittingStep(sent, n, want, cap, limit, |Datagram(sent, n, m)|, m);
    if m < want {
      DatagramGrows(sent, n, m);
      if Room(sent, n, m + 1, cap, limit) { FittingIsMost(sent, n, want, cap, limit, m + 1); }
    }
  }

  /** As many packets are sent along as the depth asks for, and there are, and have room. */
  lemma RedundancyIsMost(sent: seq<Octets>, n: nat, red: nat, cap: int, limit: int)
    requires n < |sent| && red < HISTORY && Packets(sent)
    ensures AsManyAsFit(sent, n, Least(n, red), cap, limit, Redundancy(sent, n, red, cap, limit))
  {
    hide Datagram, Fitting, EncList, Head, AsManyAsFit;
    DatagramIs(sent, n, 0);
    NoSecondaries(sent, n);
    FittingIsMost(sent, n, Least(n, red), cap, limit, 0);
  }

  /** All that the depth asks for has room, in every datagram. */
  ghost predicate AllFit(sent: seq<Octets>, red: nat, cap: int, limit: int)
    requires Packets(sent) && red < HISTORY
  {
    forall n, j :: 0 <= n < |sent| && 0 < j <= n && j <= red ==> Room(sent, n, j, cap, limit)
  }

  lemma FullDepth(sent: seq<Octets>, n: nat, red: nat, cap: int, limit: int)
    requires n < |sent| && red < HISTORY && Packets(sent) && AllFit(sent, red, cap, limit)
    ensures Redundancy(sent, n, red, cap, limit) == Least(n, red)
  {
    hide Room, Redundancy, Packets;
    RedundancyIsMost(sent, n, red, cap, limit);
  }

  /** Packets of at most `s` octets have room for a depth `red` in buffers and datagrams of
      five octets and two more than `s` for each of `red` + 1 packets. */
  lemma ShortPacketsFit(sent: seq<Octets>, s: nat, red: nat, cap: int, limit: int)
    requires Packets(sent) && red < HISTORY && (forall i :: 0 <= i < |sent| ==> |sent[i]| <= s)
    requires 5 + (red + 1) * (s + 2) <= cap && 5 + (red + 1) * (s + 2) <= limit
    ensures AllFit(sent, red, cap, limit)
  {
    hide Datagram, Packets;
    forall n, j | 0 <= n < |sent| && 0 < j <= n && j <= red ensures Room(sent, n, j, cap, limit) {
      ShortDatagram(sent, s, n, j);
      ShortDatagram(sent, s, n, j - 1);
      MulMonotone(j + 1, red + 1, s + 2);
      assert (j + 1) * (s + 2) == j * (s + 2) + (s + 2);
      assert |sent[n - j]| <= s;
    }
  }

  lemma {:induction false} ShortDatagram(sent: seq<Octets>, s: nat, n: nat, k: nat)
    requires n < |sent| && k <= n && k < HISTORY && Packets(sent) && (forall i :: 0 <= i < |sent| ==> |sent[i]| <= s)
    ensures |Datagram(sent, n, k)| <= 4 + (k + 1) * (s + 2)
    decreases k
  {
    hide Datagram, Previous;
    if k == 0 {
      DatagramIs(sent, n, 0);
      NoSecondaries(sent, n);
    } else {
      ShortDatagram(sent, s, n, k - 1);
      hide EncOpen;
      DatagramGrows(sent, n, k - 1);
      OpenSize(sent[n - k]);
      assert (k + 1) * (s + 2) == k * (s + 2) + (s + 2);
    }
  }

  lemma OpenSize(d: Octets)
    requires Packet(d)
    ensures |EncOpen(d)| <= |d| + 2
  {
  }

  /** What such a datagram carries. */
  function Carried(sent: seq<Octets>, n: nat, k: nat): (p: Parsed)
    requires n < |sent| && k <= n
    ensures p.Parsed?
  {
    Parsed(n % SEQ, sent[n], Previous(sent, n, k))
  }

  /** A built datagram is parsed as what it carries. */
  lemma BuiltIsCarried(sent: seq<Octets>, n: nat, k: nat)
    requires n < |sent| && k <= n && k < HISTORY && Packets(sent)
    ensures Parse(Datagram(sent, n, k)) == Carried(sent, n, k)
  {
    hide Encode, Parse;
    EarlierPackets(sent, n, k);
    DatagramRoundTrip(n % SEQ, sent[n], Previous(sent, n, k));
  }

  /** The receiver with its expected number unwrapped. */
  datatype Unwrapped = Unwrapped(started: bool, next: nat)

  ghost predicate Agrees(rx: Rx, u: Unwrapped) {
    rx.started == u.started && (u.started ==> rx.expected == u.next % SEQ)
  }

  /** Arrival of packet `n`'s datagram within half the number space of what is expected. */
  predicate Plausible(u: Unwrapped, n: nat) {
    u.started ==> n < u.next + HALF && u.next <= n + HALF
  }

  /** Numbers delivered on the arrival of packet `n` with `k` secondaries. */
  function Numbers(u: Unwrapped, n: nat, k: nat): (r: seq<nat>)
    requires k <= n
  {
    if u.started && n < u.next then []
    else
      var gap := if !u.started then 0 else if n - u.next > k then k else n - u.next;
      Span(n - gap, gap + 1)
  }

  function After(u: Unwrapped, n: nat): Unwrapped {
    if u.started && n < u.next then u else Unwrapped(true, n + 1)
  }

  function Deliveries(sent: seq<Octets>, numbers: seq<nat>): (out: seq<Delivery>)
    requires forall i :: 0 <= i < |numbers| ==> numbers[i] < |sent|
    ensures |out| == |numbers|
  {
    seq(|numbers|, i requires 0 <= i < |numbers| => Delivery(sent[numbers[i]], numbers[i] % SEQ))
  }

  lemma ModDiff(n: nat, e: nat)
    ensures (n % SEQ - e % SEQ) % SEQ == (n - e) % SEQ
  {
  }

  function Span(from: nat, m: nat): (r: seq<nat>)
    ensures |r| == m && forall i :: 0 <= i < m ==> r[i] == from + i
  {
    seq(m, i requires 0 <= i < m => from + i)
  }

  lemma {:induction false} RecoversInOrder(sent: seq<Octets>, n: nat, k: nat, m: nat)
    requires m <= k <= n < |sent| && Packets(sent)
    ensures Recovered(Previous(sent, n, k), n % SEQ, m) == Deliveries(sent, Span(n - m, m))
    decreases m
  {
    hide *;
    if m == 0 {
      NoneRecovered(sent, n, k);
    } else {
      RecoversInOrder(sent, n, k, m - 1);
      OneRecovered(sent, n, k, m);
      DeliversFirst(sent, n - m, m);
    }
  }

  lemma NoneRecovered(sent: seq<Octets>, n: nat, k: nat)
    requires k <= n < |sent|
    ensures Recovered(Previous(sent, n, k), n % SEQ, 0) == [] == Deliveries(sent, Span(n, 0))
  {
  }

  lemma OneRecovered(sent: seq<Octets>, n: nat, k: nat, m: nat)
    requires 0 < m <= k <= n < |sent| && Packets(sent)
    ensures Recovered(Previous(sent, n, k), n % SEQ, m)
         == [Delivery(sent[n - m], (n - m) % SEQ)] + Recovered(Previous(sent, n, k), n % SEQ, m - 1)
  {
    BackInSequence(n, m);
    assert Packet(sent[n - m]) && Previous(sent, n, k)[m - 1] == sent[n - m];
    hide Previous;
  }

  lemma BackInSequence(n: nat, m: nat)
    requires m <= n
    ensures (n % SEQ - m) % SEQ == (n - m) % SEQ
  {
  }

  lemma DeliversFirst(sent: seq<Octets>, from: nat, m: nat)
    requires m > 0 && from + m <= |sent|
    ensures Deliveries(sent, Span(from, m)) == [Delivery(sent[from], from % SEQ)] + Deliveries(sent, Span(from + 1, m - 1))
  {
  }

  /** The 16-bit distance tells earlier from later. */
  lemma Distance(n: nat, e: nat)
    requires n < e + HALF && e <= n + HALF
    ensures var fwd := (n % SEQ - e % SEQ) % SEQ; if n < e then fwd >= HALF else fwd == n - e
  {
    ModDiff(n, e);
    var d: int := n - e;
    assert n < e ==> d % SEQ == d + SEQ;
  }

  /** One arrival: what is delivered are the right packets under their numbers. */
  lemma ArrivalDelivers(sent: seq<Octets>, rx: Rx, u: Unwrapped, n: nat, k: nat)
    requires n < |sent| && k <= n && Packets(sent) && Agrees(rx, u) && Plausible(u, n)
    ensures var t := Handle(rx, Carried(sent, n, k)); var ns := Numbers(u, n, k);
            && (forall i :: 0 <= i < |ns| ==> ns[i] <= n)
            && Agrees(t.rx, After(u, n)) && t.out == Deliveries(sent, ns)
  {
    hide Recovered, Previous, Packets, Deliveries;
    Distance(n, if u.started then u.next else n);
    NextNumber(n);
    if !(u.started && n < u.next) {
      var gap := if !u.started then 0 else if n - u.next > k then k else n - u.next;
      RecoversInOrder(sent, n, k, gap);
      DeliversLast(sent, n, gap);
    } else {
      DeliversNothing(sent);
    }
  }

  lemma NextNumber(n: nat)
    ensures (n % SEQ + 1) % SEQ == (n + 1) % SEQ
  {
  }

  lemma DeliversNothing(sent: seq<Octets>)
    ensures Deliveries(sent, []) == []
  {
  }

  lemma DeliversLast(sent: seq<Octets>, n: nat, gap: nat)
    requires gap <= n < |sent|
    ensures Deliveries(sent, Span(n - gap, gap + 1)) == Deliveries(sent, Span(n - gap, gap)) + [Delivery(sent[n], n % SEQ)]
  {
  }

  // ---------------------------------------------------------------- any network

  /** A datagram reaching the receiver: any that was built, any number of times, in any order. */
  datatype Arrival = Arrival(n: nat, k: nat)

  ghost predicate WasBuilt(sent: seq<Octets>, arrivals: seq<Arrival>) {
    && Packets(sent)
    && forall i :: 0 <= i < |arrivals| ==> arrivals[i].n < |sent| && arrivals[i].k <= arrivals[i].n && arrivals[i].k < HISTORY
  }

  /** The octets that arrive. */
  ghost function Datagrams(sent: seq<Octets>, arrivals: seq<Arrival>): (bufs: seq<Octets>)
    requires WasBuilt(sent, arrivals)
    ensures |bufs| == |arrivals|
  {
    seq(|arrivals|, i requires 0 <= i < |arrivals| => Datagram(sent, arrivals[i].n, arrivals[i].k))
  }

  lemma DatagramsSplit(sent: seq<Octets>, arrivals: seq<Arrival>)
    requires WasBuilt(sent, arrivals) && arrivals != []
    ensures WasBuilt(sent, arrivals[1..])
    ensures Datagrams(sent, arrivals) == [Datagram(sent, arrivals[0].n, arrivals[0].k)] + Datagrams(sent, arrivals[1..])
  {
    hide Datagram, Packets;
  }

  ghost predicate AllPlausible(u: Unwrapped, arrivals: seq<Arrival>)
    decreases |arrivals|
  {
    arrivals == [] || (Plausible(u, arrivals[0].n) && AllPlausible(After(u, arrivals[0].n), arrivals[1..]))
  }

  function AllNumbers(u: Unwrapped, arrivals: seq<Arrival>): (ns: seq<nat>)
    requires forall i :: 0 <= i < |arrivals| ==> arrivals[i].k <= arrivals[i].n
    decreases |arrivals|
  {
    if arrivals == [] then []
    else
      assert arrivals[0].k <= arrivals[0].n;
      Numbers(u, arrivals[0].n, arrivals[0].k) + AllNumbers(After(u, arrivals[0].n), arrivals[1..])
  }

  ghost predicate Rising(ns: seq<nat>) {
    forall i, j :: 0 <= i < j < |ns| ==> ns[i] < ns[j]
  }

  /** No run of losses is longer than the secondaries of the datagram that ends it. */
  ghost predicate LossesCovered(u: Unwrapped, arrivals: seq<Arrival>)
    decreases |arrivals|
  {
    arrivals == [] ||
    ((u.started && arrivals[0].n >= u.next ==> arrivals[0].n - u.next <= arrivals[0].k)
     && LossesCovered(After(u, arrivals[0].n), arrivals[1..]))
  }

  /** Datagrams `ns` arrive, and no run of losses between them is longer than `depth`. */
  ghost predicate RunsWithin(u: Unwrapped, ns: seq<nat>, depth: nat)
    decreases |ns|
  {
    ns == [] || ((u.started && ns[0] >= u.next ==> ns[0] - u.next <= depth) && RunsWithin(After(u, ns[0]), ns[1..], depth))
  }

  /** Every datagram carries the packets before it up to a depth. */
  ghost predicate FullyLoaded(arrivals: seq<Arrival>, depth: nat) {
    forall i :: 0 <= i < |arrivals| ==> arrivals[i].k == Least(arrivals[i].n, depth)
  }

  /** Loss runs up to the depth are covered by datagrams loaded up to it. */
  lemma {:induction false} ShortRunsCovered(u: Unwrapped, ns: seq<nat>, arrivals: seq<Arrival>, depth: nat)
    requires |ns| == |arrivals| && (forall i :: 0 <= i < |ns| ==> arrivals[i].n == ns[i])
    requires FullyLoaded(arrivals, depth) && RunsWithin(u, ns, depth)
    ensures LossesCovered(u, arrivals)
    decreases |ns|
  {
    if ns != [] { ShortRunsCovered(After(u, ns[0]), ns[1..], arrivals[1..], depth); }
  }

  ghost predicate CountsFrom(ns: seq<nat>, from: nat) {
    forall i :: 0 <= i < |ns| ==> ns[i] == from + i
  }

  /** Numbers delivered only ever rise, from the expected one on. */
  lemma {:induction false} NumbersRise(u: Unwrapped, arrivals: seq<Arrival>)
    requires forall i :: 0 <= i < |arrivals| ==> arrivals[i].k <= arrivals[i].n
    ensures var ns := AllNumbers(u, arrivals);
            Rising(ns) && (u.started ==> forall i :: 0 <= i < |ns| ==> ns[i] >= u.next)
    decreases |arrivals|
  {
    if arrivals != [] {
      NumbersRise(After(u, arrivals[0].n), arrivals[1..]);
    }
  }

  /** Nothing is missing exactly if every run of losses is covered. */
  lemma {:induction false} NothingMissing(u: Unwrapped, arrivals: seq<Arrival>)
    requires forall i :: 0 <= i < |arrivals| ==> arrivals[i].k <= arrivals[i].n
    requires u.started
    ensures CountsFrom(AllNumbers(u, arrivals), u.next) <==> LossesCovered(u, arrivals)
    decreases |arrivals|
  {
    if arrivals != [] {
      var n, k := arrivals[0].n, arrivals[0].k;
      var a, b := Numbers(u, n, k), AllNumbers(After(u, n), arrivals[1..]);
      NothingMissing(After(u, n), arrivals[1..]);
      if n < u.next {
        assert a + b == b;
      } else {
        var ns := AllNumbers(u, arrivals);
        assert ns == a + b && ns[0] == a[0];
        if CountsFrom(ns, u.next) {
          forall i | 0 <= i < |b| ensures b[i] == n + 1 + i { assert b[i] == ns[|a| + i]; }
        }
      }
    }
  }

  /** The arrival of a built datagram, octets first. */
  lemma ArrivalReceived(sent: seq<Octets>, rx: Rx, n: nat, k: nat)
    requires n < |sent| && k <= n && k < HISTORY && Packets(sent)
    ensures Receive(rx, Datagram(sent, n, k)) == Handle(rx, Carried(sent, n, k))
  {
    hide Parse, Datagram, Handle, Carried;
    BuiltIsCarried(sent, n, k);
  }

  lemma ReceiveFirst(rx: Rx, buf: Octets, bufs: seq<Octets>)
    ensures ReceiveAll(rx, [buf] + bufs) == Receive(rx, buf).out + ReceiveAll(Receive(rx, buf).rx, bufs)
  {
    hide Receive;
    assert ([buf] + bufs)[1..] == bufs;
  }

  /** Every delivery is a packet that was sent, under its own number. */
  lemma {:induction false} DeliveriesAreSent(sent: seq<Octets>, rx: Rx, u: Unwrapped, arrivals: seq<Arrival>)
    requires WasBuilt(sent, arrivals) && Agrees(rx, u) && AllPlausible(u, arrivals)
    ensures forall i :: 0 <= i < |arrivals| ==> arrivals[i].k <= arrivals[i].n
    ensures var ns := AllNumbers(u, arrivals);
            (forall i :: 0 <= i < |ns| ==> ns[i] < |sent|) && ReceiveAll(rx, Datagrams(sent, arrivals)) == Deliveries(sent, ns)
    decreases |arrivals|
  {
    hide Receive, Handle, Datagram, Datagrams, Carried, Numbers, Packets, Agrees;
    if arrivals != [] {
      var n, k := arrivals[0].n, arrivals[0].k;
      assert arrivals[0].n < |sent| && arrivals[0].k <= arrivals[0].n;
      DatagramsSplit(sent, arrivals);
      ReceiveFirst(rx, Datagram(sent, n, k), Datagrams(sent, arrivals[1..]));
      ArrivalReceived(sent, rx, n, k);
      ArrivalDelivers(sent, rx, u, n, k);
      var t := Handle(rx, Carried(sent, n, k));
      DeliveriesAreSent(sent, t.rx, After(u, n), arrivals[1..]);
      DeliveriesAppend(sent, Numbers(u, n, k), AllNumbers(After(u, n), arrivals[1..]));
    }
  }

  lemma DeliveriesAppend(sent: seq<Octets>, a: seq<nat>, b: seq<nat>)
    requires forall i :: 0 <= i < |a| ==> a[i] < |sent|
    requires forall i :: 0 <= i < |b| ==> b[i] < |sent|
    ensures var c := a + b; forall i :: 0 <= i < |c| ==> c[i] < |sent|
    ensures Deliveries(sent, a + b) == Deliveries(sent, a) + Deliveries(sent, b)
  {
  }

  /** What a losing, duplicating and reordering network delivers of the octets built: numbers rise strictly across
      wraps of the 16-bit field, each packet is the one built with its number, and from the
      first datagram on nothing is missing exactly if each loss run is covered. */
  lemma NetworkDelivers(sent: seq<Octets>, arrivals: seq<Arrival>)
    requires WasBuilt(sent, arrivals) && |arrivals| > 0
    requires AllPlausible(Unwrapped(false, 0), arrivals)
    ensures forall i :: 0 <= i < |arrivals| ==> arrivals[i].k <= arrivals[i].n
    ensures var ns := AllNumbers(Unwrapped(false, 0), arrivals);
            && Rising(ns) && (forall i :: 0 <= i < |ns| ==> ns[i] < |sent|)
            && ReceiveAll(Rx(false, 0), Datagrams(sent, arrivals)) == Deliveries(sent, ns)
            && |ns| > 0 && ns[0] == arrivals[0].n
            && (CountsFrom(ns, arrivals[0].n) <==> LossesCovered(Unwrapped(false, 0), arrivals))
  {
    hide Receive, ReceiveAll, Datagrams, Packets;
    var u := Unwrapped(false, 0);
    DeliveriesAreSent(sent, Rx(false, 0), u, arrivals);
    NumbersRise(u, arrivals);
    var n, k := arrivals[0].n, arrivals[0].k;
    var rest := AllNumbers(After(u, n), arrivals[1..]);
    NothingMissing(After(u, n), arrivals[1..]);
    var ns := AllNumbers(u, arrivals);
    assert ns == [n] + rest;
    if CountsFrom(ns, n) {
      forall i | 0 <= i < |rest| ensures rest[i] == n + 1 + i { assert rest[i] == ns[1 + i]; }
    }
  }
}
