/** What the UDPTL receiver makes of other senders' datagrams (nf_udptl.c: nf_udptl_rx): up to
    sixteen secondaries, empty ones among them, parity redundancy, and datagrams cut short. */
module UdptlForeign {
  import opened BitIo
  import opened Udptl

  /** An open type as it may come: length and octets, none at all included. */
  function Raw(d: Octets): (b: Octets)
    requires |d| < 0x4000
  {
    EncLength(|d|) + d
  }

  predicate Sendable(d: Octets) {
    |d| < 0x4000
  }

  predicate AllSendable(ds: seq<Octets>) {
    forall i :: 0 <= i < |ds| ==> Sendable(ds[i])
  }

  function RawList(ds: seq<Octets>): Octets
    requires AllSendable(ds)
  {
    if ds == [] then []
    else
      assert Sendable(ds[0]);
      Raw(ds[0]) + RawList(ds[1..])
  }

  lemma RawBack(buf: Octets, pos: nat, d: Octets)
    requires |d| < 0x4000 && Has(buf, pos, Raw(d))
    ensures DecOpen(buf, pos) == Open(d, pos + |Raw(d)|)
  {
    HasSplit(buf, pos, EncLength(|d|), d);
    LengthRoundTrip(buf, pos, |d|);
  }

  lemma {:induction false} RawListBack(buf: Octets, pos: nat, ds: seq<Octets>)
    requires AllSendable(ds) && Has(buf, pos, RawList(ds))
    ensures DecList(buf, pos, |ds|) == List(ds, pos + |RawList(ds)|)
    decreases |ds|
  {
    hide Raw, DecOpen, Has;
    if ds != [] {
      assert Sendable(ds[0]);
      HasSplit(buf, pos, Raw(ds[0]), RawList(ds[1..]));
      RawBack(buf, pos, ds[0]);
      RawListBack(buf, pos + |Raw(ds[0])|, ds[1..]);
      assert ds == [ds[0]] + ds[1..];
    }
  }

  /** Number and primary. */
  function Opening(seqNo: nat, primary: Octets): (b: Octets)
    requires seqNo < SEQ && Sendable(primary)
    ensures |b| == 2 + |Raw(primary)|
  {
    var h: Octets := [seqNo / 256, seqNo % 256];
    h + Raw(primary)
  }

  lemma Opened(buf: Octets, seqNo: nat, primary: Octets, rest: Octets)
    requires seqNo < SEQ && Sendable(primary) && buf == Opening(seqNo, primary) + rest
    ensures var p := |Opening(seqNo, primary)|;
            && |buf| >= 2 && buf[0] == seqNo / 256 && buf[1] == seqNo % 256 && DecOpen(buf, 2) == Open(primary, p)
            && p <= |buf| && Has(buf, p, rest) && buf[p..] == rest
  {
    hide Raw, DecOpen;
    var h: Octets := [seqNo / 256, seqNo % 256];
    assert buf == h + (Raw(primary) + rest);
    assert Has(buf, 2, Raw(primary)) && buf[2..2 + |Raw(primary)|] == Raw(primary);
    RawBack(buf, 2, primary);
  }

  /** A primary longer than a packet may be: refused whatever follows. */
  lemma LongPrimaryRefused(seqNo: nat, primary: Octets, rest: Octets)
    requires seqNo < SEQ && MAX_IFP < |primary| < 0x4000
    ensures Parse(Opening(seqNo, primary) + rest).Malformed?
  {
    hide DecOpen, DecSecs, Opening;
    Opened(Opening(seqNo, primary) + rest, seqNo, primary, rest);
  }

  /** A datagram with parity redundancy: the primary is taken, the parity passed over. */
  lemma ParityPassedOver(seqNo: nat, primary: Octets, marker: Byte, rest: Octets)
    requires seqNo < SEQ && |primary| <= MAX_IFP && marker >= 0x80
    ensures Parse(Opening(seqNo, primary) + ([marker] + rest)) == Parsed(seqNo, primary, [])
  {
    hide DecOpen, DecSecs, Opening, Has;
    var buf := Opening(seqNo, primary) + ([marker] + rest);
    Opened(buf, seqNo, primary, [marker] + rest);
    assert buf[|Opening(seqNo, primary)|] == marker;
    SequenceBack(seqNo);
  }

  lemma SequenceBack(seqNo: nat)
    requires seqNo < SEQ
    ensures seqNo / 256 * 256 + seqNo % 256 == seqNo
  {
  }

  lemma ParsedAt(buf: Octets, p: nat, primary: Octets)
    requires |buf| >= 2 && DecOpen(buf, 2) == Open(primary, p) && |primary| <= MAX_IFP && p < |buf| && buf[p] < 0x80
    ensures var high: int, low: int := buf[0], buf[1];
            Parse(buf) == if DecSecs(buf, p + 1, []).NoList? then Malformed
                          else Parsed(high * 256 + low, primary, DecSecs(buf, p + 1, []).secs)
  {
    hide DecOpen, DecSecs;
  }

  lemma Behind(buf: Octets, p: nat, marker: Byte, rest: Octets)
    requires p <= |buf| && buf[p..] == [marker] + rest
    ensures p < |buf| && buf[p] == marker && Has(buf, p + 1, rest)
  {
    assert buf[p] == buf[p..][0];
    assert buf[p + 1..] == buf[p..][1..] == rest;
  }

  /** The parser at the count of secondaries. */
  lemma AtCount(seqNo: nat, primary: Octets, marker: Byte, buf: Octets, rest: Octets)
    requires seqNo < SEQ && |primary| <= MAX_IFP && marker < 0x80 && buf == Opening(seqNo, primary) + ([marker] + rest)
    ensures var p := |Opening(seqNo, primary)| + 1;
            && p <= |buf| && Has(buf, p, rest)
            && Parse(buf) == if DecSecs(buf, p, []).NoList? then Malformed else Parsed(seqNo, primary, DecSecs(buf, p, []).secs)
  {
    hide DecOpen, DecSecs, Opening, Parse, Has;
    Opened(buf, seqNo, primary, [marker] + rest);
    var p := |Opening(seqNo, primary)|;
    Behind(buf, p, marker, rest);
    ParsedAt(buf, p, primary);
    SequenceBack(seqNo);
  }

  /** Up to sixteen secondaries of any length are parsed as they were put in, whatever follows
      them. */
  lemma SixteenParsed(seqNo: nat, primary: Octets, marker: Byte, secs: seq<Octets>, rest: Octets)
    requires seqNo < SEQ && |primary| <= MAX_IFP && marker < 0x80 && AllSendable(secs) && |secs| <= HISTORY
    ensures Parse(Opening(seqNo, primary) + ([marker] + (EncLength(|secs|) + (RawList(secs) + rest)))) == Parsed(seqNo, primary, secs)
  {
    hide Opening, EncLength, RawList, DecLength, DecList, Has, Parse;
    var n, l := EncLength(|secs|), RawList(secs);
    var buf := Opening(seqNo, primary) + ([marker] + (n + (l + rest)));
    var p := |Opening(seqNo, primary)| + 1;
    AtCount(seqNo, primary, marker, buf, n + (l + rest));
    HasSplit(buf, p, n, l + rest);
    HasSplit(buf, p + |n|, l, rest);
    LengthRoundTrip(buf, p, |secs|);
    RawListBack(buf, p + |n|, secs);
    assert [] + secs == secs;
  }

  /** More than sixteen are refused. */
  lemma SeventeenRefused(seqNo: nat, primary: Octets, marker: Byte, n: nat, rest: Octets)
    requires seqNo < SEQ && |primary| <= MAX_IFP && marker < 0x80 && HISTORY < n < 0x4000
    ensures Parse(Opening(seqNo, primary) + ([marker] + (EncLength(n) + rest))).Malformed?
  {
    hide Opening, EncLength, DecLength, DecList, Has, Parse;
    var buf := Opening(seqNo, primary) + ([marker] + (EncLength(n) + rest));
    var p := |Opening(seqNo, primary)| + 1;
    AtCount(seqNo, primary, marker, buf, EncLength(n) + rest);
    HasSplit(buf, p, EncLength(n), rest);
    LengthRoundTrip(buf, p, n);
  }

  // ---------------------------------------------------------------- cut short

  lemma LengthCut(buf: Octets, k: nat, pos: nat)
    requires k <= |buf|
    ensures DecLength(buf[..k], pos).Length? ==> DecLength(buf[..k], pos) == DecLength(buf, pos)
  {
  }

  lemma OpenCut(buf: Octets, k: nat, pos: nat)
    requires k <= |buf|
    ensures DecOpen(buf[..k], pos).Open? ==> DecOpen(buf[..k], pos) == DecOpen(buf, pos)
  {
    hide DecLength;
    LengthCut(buf, k, pos);
    var n := DecLength(buf[..k], pos);
    if n.Length? && n.pos + n.value <= k { assert buf[..k][n.pos..n.pos + n.value] == buf[n.pos..n.pos + n.value]; }
  }

  lemma {:induction false} ListCut(buf: Octets, k: nat, pos: nat, n: nat)
    requires k <= |buf|
    ensures DecList(buf[..k], pos, n).List? ==> DecList(buf[..k], pos, n) == DecList(buf, pos, n)
    decreases n
  {
    hide DecOpen;
    if n > 0 {
      OpenCut(buf, k, pos);
      var x := DecOpen(buf[..k], pos);
      if x.Open? { ListCut(buf, k, x.pos, n - 1); }
    }
  }

  /** A datagram with redundancy that is cut short anywhere is refused as a whole. */
  lemma CutRefused(seqNo: nat, primary: Octets, marker: Byte, secs: seq<Octets>, k: nat)
    requires seqNo < SEQ && |primary| <= MAX_IFP && marker < 0x80 && AllSendable(secs) && |secs| <= HISTORY
    requires k < |Opening(seqNo, primary) + ([marker] + (EncLength(|secs|) + RawList(secs)))|
    ensures Parse((Opening(seqNo, primary) + ([marker] + (EncLength(|secs|) + RawList(secs))))[..k]).Malformed?
  {
    hide Opening, EncLength, RawList, DecLength, DecOpen, DecList, DecSecs, Has;
    var n, l := EncLength(|secs|), RawList(secs);
    var buf := Opening(seqNo, primary) + ([marker] + (n + l));
    var p := |Opening(seqNo, primary)|;
    Opened(buf, seqNo, primary, [marker] + (n + l));
    AtCount(seqNo, primary, marker, buf, n + l);
    assert buf[p] == marker;
    OpenCut(buf, k, 2);
    HasSplit(buf, p + 1, n, l);
    LengthRoundTrip(buf, p + 1, |secs|);
    RawListBack(buf, p + 1 + |n|, secs);
    assert |buf| == p + 1 + |n| + |l|;
    if p < k { SecondariesCut(buf, k, p + 1, secs); }
  }

  lemma SecondariesCut(buf: Octets, k: nat, pos: nat, secs: seq<Octets>)
    requires pos <= k < |buf| && |secs| <= HISTORY
    requires var n := DecLength(buf, pos); n.Length? && n.value == |secs| && !n.more && DecList(buf, n.pos, |secs|) == List(secs, |buf|)
    ensures DecSecs(buf[..k], pos, []).NoList?
  {
    hide DecLength, DecList;
    LengthCut(buf, k, pos);
    var n := DecLength(buf[..k], pos);
    if n.Length? { ListCut(buf, k, n.pos, n.value); }
  }

  // ---------------------------------------------------------------- what is handed over

  /** Empty secondaries are passed over: all packets recovered have content. */
  lemma {:induction false} NothingEmpty(secs: seq<Octets>, s: nat, m: nat)
    requires m <= |secs|
    ensures forall i :: 0 <= i < |Recovered(secs, s, m)| ==> Recovered(secs, s, m)[i].ifp != []
    decreases m
  {
    if m > 0 {
      NothingEmpty(secs, s, m - 1);
      var r := Recovered(secs, s, m - 1);
      forall i | 0 <= i < |Recovered(secs, s, m)| ensures Recovered(secs, s, m)[i].ifp != [] {
        if |secs[m - 1]| == 0 {
          assert Recovered(secs, s, m) == r;
        } else if i > 0 {
          assert Recovered(secs, s, m)[i] == r[i - 1];
        }
      }
    }
  }

  /** Whatever datagram arrives: what it hands over beyond its primary has content, and its
      primary comes last and only if its number is not behind the expected one. */
  lemma HandedOver(rx: Rx, p: Parsed)
    requires p.Parsed?
    ensures var out := Handle(rx, p).out;
            && (forall i :: 0 <= i < |out| - 1 ==> out[i].ifp != [])
            && (out != [] ==> out[|out| - 1] == Delivery(p.primary, p.seqNo))
            && (out == [] <==> rx.started && (p.seqNo - rx.expected) % SEQ >= HALF)
  {
    var first := if rx.started then rx else Rx(true, p.seqNo);
    var fwd := (p.seqNo - first.expected) % SEQ;
    if fwd < HALF {
      var gap := if fwd > |p.secs| then |p.secs| else fwd;
      NothingEmpty(p.secs, p.seqNo, gap);
    }
  }
}
