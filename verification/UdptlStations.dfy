/** The UDPTL sender and receiver as objects (nf_udptl.c: nf_udptl_t): a circular history of
    sixteen packets and a datagram assembled in the caller's buffer on one side, sequence
    state on the other, proved against Udptl. */
module UdptlStations {
  import opened BitIo
  import opened Udptl

  /** The last fifteen of the first `n` packets stand in the slots of their numbers. */
  ghost predicate Stored(tx: seq<Octets>, sent: seq<Octets>, n: nat) {
    |tx| == HISTORY && n <= |sent| && forall i :: 0 <= i < n && n < i + HISTORY ==> tx[i % HISTORY] == sent[i]
  }

  lemma StoredSlot(tx: seq<Octets>, sent: seq<Octets>, n: nat, m: nat)
    requires Stored(tx, sent, n) && m + 1 <= n && m + 1 < HISTORY
    ensures tx[(n % HISTORY - m - 1) % HISTORY] == sent[n - 1 - m]
  {
    assert (n % HISTORY - m - 1) % HISTORY == (n - 1 - m) % HISTORY;
  }

  lemma StoredNext(tx: seq<Octets>, sent: seq<Octets>, n: nat, d: Octets)
    requires Stored(tx, sent, n) && n == |sent|
    ensures Stored(tx[n % HISTORY := d], sent + [d], n) && Stored(tx[n % HISTORY := d], sent + [d], n + 1)
  {
    forall i | 0 <= i < n && n < i + HISTORY
      ensures i % HISTORY != n % HISTORY
    {
    }
  }

  /** The depth asked for, clamped to what the history holds beside the packet sent. */
  function Depth(asked: int): (d: nat)
    ensures d < HISTORY && (0 <= asked < HISTORY ==> d == asked)
  {
    if asked < 0 then 0 else if asked > HISTORY - 1 then HISTORY - 1 else asked
  }

  /** The largest datagram the peer takes, 1400 octets when it says nothing usable. */
  function Limit(asked: int): (l: nat)
    ensures 0 < l <= MAX_DATAGRAM && (0 < asked <= MAX_DATAGRAM ==> l == asked)
  {
    if 0 < asked <= MAX_DATAGRAM then asked else MAX_DATAGRAM
  }

  class UdptlTx {
    var txSeqNo: nat
    var redEntries: nat
    var farMaxDatagram: int
    /** The circular history. */
    const tx: array<Octets>
    /** All packets carried so far. */
    ghost var sent: seq<Octets>

    /** The last fifteen packets stand where their numbers say. */
    ghost predicate Valid()
      reads this, tx
    {
      && tx.Length == HISTORY && redEntries < HISTORY
      && |sent| == txSeqNo && Packets(sent)
      && Stored(tx[..], sent, txSeqNo)
    }

    /** nf_udptl_init. */
    constructor (redundancyDepth: int, farMaxDatagram: int)
      ensures Valid() && fresh(tx) && sent == []
      ensures redEntries == Depth(redundancyDepth)
      ensures this.farMaxDatagram == Limit(farMaxDatagram)
    {
      txSeqNo := 0;
      redEntries := if redundancyDepth < 0 then 0 else if redundancyDepth > HISTORY - 1 then HISTORY - 1 else redundancyDepth;
      this.farMaxDatagram := if 0 < farMaxDatagram <= MAX_DATAGRAM then farMaxDatagram else MAX_DATAGRAM;
      tx := new Octets[HISTORY](_ => []);
      sent := [];
    }

    /** nf_udptl_build: a packet of wrong length is refused; otherwise the datagram carries it
        and as many earlier ones as depth, buffer and peer allow. */
    method Build(ifp: Octets, out: array<Byte>) returns (len: int)
      requires Valid() && (Packet(ifp) ==> out.Length >= |ifp| + 7)
      modifies this`txSeqNo, this`sent, tx, out
      ensures Valid()
      ensures !Packet(ifp) ==> len == -1 && sent == old(sent)
      ensures Packet(ifp) ==>
                var n := |old(sent)|;
                && sent == old(sent) + [ifp] && 0 <= len <= out.Length
                && var k := Redundancy(sent, n, redEntries, out.Length, farMaxDatagram);
                   k < HISTORY && Packets(Previous(sent, n, k))
                   && out[..len] == Encode(n % SEQ, ifp, Previous(sent, n, k))
      ensures Packet(ifp) ==>
                var n := |old(sent)|; var p := Parse(out[..len]);
                && p.Parsed? && p.seqNo == n % SEQ && p.primary == ifp
                && |p.secs| <= n && p.secs == Previous(sent, n, |p.secs|)
                && AsManyAsFit(sent, n, Least(n, redEntries), out.Length, farMaxDatagram, |p.secs|)
    {
      hide EncOpen, EncLength, EncList, Encode, Previous, Fitting, Stored, AsManyAsFit, Parse;
      if |ifp| < 1 || |ifp| > MAX_IFP { return -1; }
      var seqNo := txSeqNo % SEQ;
      var entry := seqNo % HISTORY;
      EntryIs(txSeqNo);
      StoredNext(tx[..], sent, txSeqNo, ifp);
      ghost var slots := tx[..];
      tx[entry] := ifp;
      assert tx[..] == slots[txSeqNo % HISTORY := ifp];
      sent := sent + [ifp];
      HeadSize(seqNo, ifp);
      out[0], out[1] := seqNo / 256, seqNo % 256;
      var ok;
      ok, len := PutOpen(out, 2, ifp);
      assert ok;
      out[len] := 0;
      len := len + 1;
      assert out[..len] == Head(seqNo, ifp);
      var entries := if txSeqNo > redEntries then redEntries else txSeqNo;
      ghost var head := Head(seqNo, ifp);
      var count := PutSecondaries(out, len, entry, entries);
      len := count.1;
      SmallCount(count.0);
      EncodeIs(seqNo, ifp, Previous(sent, txSeqNo, count.0));
      BuiltParses(sent, txSeqNo, redEntries, out.Length, farMaxDatagram);
      txSeqNo := txSeqNo + 1;
    }

    /** The count and the secondaries behind `at` octets: one that does not fit is taken back
        and ends the list. */
    method PutSecondaries(out: array<Byte>, at: nat, entry: nat, entries: nat) returns (count: (nat, nat))
      requires tx.Length == HISTORY && |sent| == txSeqNo + 1 && Packets(sent) && entry == txSeqNo % HISTORY
      requires entries < HISTORY && entries <= txSeqNo && at < out.Length
      requires Stored(tx[..], sent, txSeqNo)
      modifies out
      ensures var n := txSeqNo;
              && count.0 == Fitting(sent, n, entries, out.Length, farMaxDatagram, at + 1, 0)
              && Packets(Previous(sent, n, count.0)) && count.1 <= out.Length
              && out[..count.1] == old(out[..at]) + [count.0] + EncList(Previous(sent, n, count.0))
    {
      hide EncOpen, EncLength, EncList, Previous, Fitting, Packets, Stored;
      ghost var n := txSeqNo;
      ghost var head := out[..at];
      out[at] := entries;
      var len: nat := at + 1;
      var m: nat := 0;
      NoSecondaries(sent, n);
      while m < entries
        invariant m <= entries && len <= out.Length
        invariant Packets(Previous(sent, n, m))
        invariant out[..len] == head + [entries] + EncList(Previous(sent, n, m))
        invariant Fitting(sent, n, entries, out.Length, farMaxDatagram, len, m)
               == Fitting(sent, n, entries, out.Length, farMaxDatagram, at + 1, 0)
      {
        var j := (entry - m - 1) % HISTORY;
        StoredSlot(tx[..], sent, n, m);
        var d := tx[j];
        OneMore(sent, n, m);
        FittingStep(sent, n, entries, out.Length, farMaxDatagram, len, m);
        ghost var done := out[..len];
        var ok, next := PutOpen(out, len, d);
        if !ok || next > farMaxDatagram {
          assert out[..len] == done;
          var fewer: Byte := m;
          CountReplaced(done, head, entries, fewer, EncList(Previous(sent, n, m)));
          out[at] := fewer;
          assert out[..len] == done[at := fewer];
          return (m, len);
        }
        assert head + [entries] + (EncList(Previous(sent, n, m)) + EncOpen(d)) == done + EncOpen(d);
        len := next;
        m := m + 1;
      }
      FittingStep(sent, n, entries, out.Length, farMaxDatagram, len, m);
      count := (m, len);
    }
  }

  class UdptlRx {
    var rxStarted: bool
    var rxSeqNo: nat

    ghost function State(): Rx
      reads this
    {
      Udptl.Rx(rxStarted, rxSeqNo)
    }

    constructor ()
      ensures State() == Udptl.Rx(false, 0)
    {
      rxStarted, rxSeqNo := false, 0;
    }

    /** nf_udptl_rx: 0, or -1 for a malformed datagram; the packets handed over. */
    method Receive(buf: Octets) returns (r: int, out: seq<Delivery>)
      modifies this
      ensures Handled(State(), out) == Udptl.Receive(old(State()), buf)
      ensures r == if Parse(buf).Malformed? then -1 else 0
    {
      hide DecOpen, DecSecs, Recovered;
      out := [];
      if |buf| < 2 { return -1, out; }
      var high: int, low: int := buf[0], buf[1];
      var seqNo := high * 256 + low;
      var primary := DecOpen(buf, 2);
      if primary.NoOpen? || |primary.data| > MAX_IFP || primary.pos >= |buf| { return -1, out; }
      var secs: seq<Octets> := [];
      if buf[primary.pos] < 0x80 {
        var ok;
        ok, secs := ReadSecondaries(buf, primary.pos + 1);
        if !ok { return -1, out; }
      }
      if !rxStarted {
        rxStarted := true;
        rxSeqNo := seqNo;
      }
      r := 0;
      var fwd := (seqNo - rxSeqNo) % SEQ;
      if fwd >= HALF { return; }
      var gap := fwd;
      if gap > |secs| { gap := |secs|; }
      var m := gap;
      NoneLeft(secs, seqNo);
      while m >= 1
        invariant 0 <= m <= gap && rxStarted
        invariant out + Recovered(secs, seqNo, m) == Recovered(secs, seqNo, gap)
      {
        RecoverOne(secs, seqNo, m, out);
        if |secs[m - 1]| > 0 { out := out + [Delivery(secs[m - 1], (seqNo - m) % SEQ)]; }
        m := m - 1;
      }
      out := out + [Delivery(primary.data, seqNo)];
      rxSeqNo := (seqNo + 1) % SEQ;
    }
  }

  // ---------------------------------------------------------------- sender to receiver

  /** The arrivals of a schedule: which datagram comes when, each with what was built into it. */
  ghost function Scheduled(sent: seq<Octets>, red: nat, cap: int, limit: int, schedule: seq<nat>): (arrivals: seq<Arrival>)
    requires Packets(sent) && forall i :: 0 <= i < |schedule| ==> schedule[i] < |sent|
    ensures |arrivals| == |schedule|
  {
    seq(|schedule|, i requires 0 <= i < |schedule| => Arrival(schedule[i], Redundancy(sent, schedule[i], red, cap, limit)))
  }

  lemma ScheduledAreBuilt(sent: seq<Octets>, red: nat, cap: int, limit: int, schedule: seq<nat>)
    requires Packets(sent) && red < HISTORY && forall i :: 0 <= i < |schedule| ==> schedule[i] < |sent|
    ensures WasBuilt(sent, Scheduled(sent, red, cap, limit, schedule))
  {
    hide Redundancy;
  }

  lemma ScheduledAreLoaded(sent: seq<Octets>, red: nat, cap: int, limit: int, schedule: seq<nat>)
    requires Packets(sent) && red < HISTORY && forall i :: 0 <= i < |schedule| ==> schedule[i] < |sent|
    requires AllFit(sent, red, cap, limit)
    ensures FullyLoaded(Scheduled(sent, red, cap, limit, schedule), red)
  {
    hide Redundancy, AllFit;
    forall i | 0 <= i < |schedule| ensures Redundancy(sent, schedule[i], red, cap, limit) == Least(schedule[i], red) {
      FullDepth(sent, schedule[i], red, cap, limit);
    }
  }

  /** What fits is decided by the packets before. */
  lemma {:induction false} FittingAmong(a: seq<Octets>, b: seq<Octets>, n: nat, want: nat, cap: int, limit: int, len: nat, m: nat)
    requires m <= want <= n <= |a| && Packets(a + b)
    ensures Packets(a) && Fitting(a + b, n, want, cap, limit, len, m) == Fitting(a, n, want, cap, limit, len, m)
    decreases want - m
  {
    hide EncOpen;
    PacketsBefore(a, b);
    if m < want {
      assert Packet(a[n - 1 - m]) && (a + b)[n - 1 - m] == a[n - 1 - m];
      FittingAmong(a, b, n, want, cap, limit, len + |EncOpen(a[n - 1 - m])|, m + 1);
    }
  }

  lemma PacketsBefore(a: seq<Octets>, b: seq<Octets>)
    requires Packets(a + b)
    ensures Packets(a)
  {
    forall i | 0 <= i < |a| ensures Packet(a[i]) { assert Packet((a + b)[i]); }
  }

  /** A datagram is fixed by the packets up to its own. */
  lemma DatagramAmong(a: seq<Octets>, b: seq<Octets>, n: nat, red: nat, cap: int, limit: int)
    requires n < |a| && Packets(a + b) && red < HISTORY
    ensures Packets(a)
    ensures var k := Redundancy(a, n, red, cap, limit);
            Redundancy(a + b, n, red, cap, limit) == k && Datagram(a + b, n, k) == Datagram(a, n, k)
  {
    hide Fitting, Encode, Head;
    PacketsBefore(a, b);
    FittingAmong(a, b, n, Least(n, red), cap, limit, |Head(n % SEQ, a[n])| + 1, 0);
    var k := Redundancy(a, n, red, cap, limit);
    assert Previous(a + b, n, k) == Previous(a, n, k);
  }

  /** A sender's datagrams through a network that loses, repeats and reorders them as
      `schedule` says, to a receiver: while no datagram is overtaken by half the number space,
      numbers rise, packets are the ones sent, and from the first arrival on nothing is missing
      exactly if each loss run is covered.  When all that the depth asks for has room, it is
      enough that no loss run is longer than the depth. */
  method Transfer(redundancyDepth: int, farMaxDatagram: int, capacity: nat, ifps: seq<Octets>, schedule: seq<nat>)
    returns (out: seq<Delivery>)
    requires Packets(ifps) && capacity >= MAX_IFP + 7
    requires forall i :: 0 <= i < |schedule| ==> schedule[i] < |ifps|
    ensures var arrivals := Scheduled(ifps, Depth(redundancyDepth), capacity, Limit(farMaxDatagram), schedule);
            && WasBuilt(ifps, arrivals)
            && out == ReceiveAll(Udptl.Rx(false, 0), Datagrams(ifps, arrivals))
            && (schedule != [] && AllPlausible(Unwrapped(false, 0), arrivals) ==>
                  var ns := AllNumbers(Unwrapped(false, 0), arrivals);
                  && Rising(ns) && (forall i :: 0 <= i < |ns| ==> ns[i] < |ifps|) && out == Deliveries(ifps, ns)
                  && (CountsFrom(ns, schedule[0]) <==> LossesCovered(Unwrapped(false, 0), arrivals))
                  && (AllFit(ifps, Depth(redundancyDepth), capacity, Limit(farMaxDatagram)) ==>
                        RunsWithin(Unwrapped(false, 0), schedule, Depth(redundancyDepth)) ==> CountsFrom(ns, schedule[0])))
  {
    hide Depth, Limit, Packets, Encode, Previous, Redundancy, Datagram, Stored, AllFit, RunsWithin, AllPlausible, LossesCovered, AllNumbers, Udptl.Receive, ReceiveAll;
    var wire := BuildAll(redundancyDepth, farMaxDatagram, capacity, ifps);
    var rx := new UdptlRx();
    ghost var red, limit := Depth(redundancyDepth), Limit(farMaxDatagram);
    ghost var arrivals := Scheduled(ifps, red, capacity, limit, schedule);
    ScheduledAreBuilt(ifps, red, capacity, limit, schedule);
    ghost var bufs := Datagrams(ifps, arrivals);
    out := [];
    assert bufs[|schedule|..] == [] && bufs[0..] == bufs;
    for i := 0 to |schedule|
      invariant out + ReceiveAll(rx.State(), bufs[i..]) == ReceiveAll(Udptl.Rx(false, 0), bufs)
    {
      ghost var was := rx.State();
      assert bufs[i..] == [bufs[i]] + bufs[i + 1..];
      ReceiveFirst(was, bufs[i], bufs[i + 1..]);
      var r, ds := rx.Receive(wire[schedule[i]]);
      Assoc(out, ds, ReceiveAll(rx.State(), bufs[i + 1..]));
      out := out + ds;
    }
    ReceiveNone(rx.State());
    if schedule != [] && AllPlausible(Unwrapped(false, 0), arrivals) {
      NetworkDelivers(ifps, arrivals);
      if AllFit(ifps, red, capacity, limit) && RunsWithin(Unwrapped(false, 0), schedule, red) {
        ScheduledAreLoaded(ifps, red, capacity, limit, schedule);
        ShortRunsCovered(Unwrapped(false, 0), schedule, arrivals, red);
      }
    }
  }

  lemma ReceiveNone(rx: Rx)
    ensures ReceiveAll(rx, []) == []
  {
  }

  /** All the datagrams of a sender that starts afresh. */
  method BuildAll(redundancyDepth: int, farMaxDatagram: int, capacity: nat, ifps: seq<Octets>)
    returns (wire: seq<Octets>)
    requires Packets(ifps) && capacity >= MAX_IFP + 7
    ensures |wire| == |ifps|
    ensures forall n :: 0 <= n < |ifps| ==>
              wire[n] == Datagram(ifps, n, Redundancy(ifps, n, Depth(redundancyDepth), capacity, Limit(farMaxDatagram)))
  {
    hide Encode, Previous, Redundancy, Stored, Depth, Limit;
    var tx := new UdptlTx(redundancyDepth, farMaxDatagram);
    var out := new Byte[capacity];
    wire := [];
    ghost var red, limit := Depth(redundancyDepth), Limit(farMaxDatagram);
    for i := 0 to |ifps|
      invariant tx.Valid() && tx.sent == ifps[..i] && |wire| == i && fresh(tx) && fresh(tx.tx) && fresh(out)
      invariant tx.redEntries == red && tx.farMaxDatagram == limit && red < HISTORY
      invariant forall n :: 0 <= n < i ==> wire[n] == Datagram(ifps, n, Redundancy(ifps, n, red, capacity, limit))
    {
      assert Packet(ifps[i]);
      var len := tx.Build(ifps[i], out);
      assert ifps[..i] + [ifps[i]] == ifps[..i + 1] && ifps[..i + 1] + ifps[i + 1..] == ifps;
      DatagramAmong(ifps[..i + 1], ifps[i + 1..], i, red, capacity, limit);
      wire := wire + [out[..len]];
    }
  }

  // ---------------------------------------------------------------- pieces of the two

  /** The counted lists of secondaries, sixteen at most. */
  method ReadSecondaries(buf: Octets, start: nat) returns (ok: bool, secs: seq<Octets>)
    requires start <= |buf|
    ensures ok == DecSecs(buf, start, []).List?
    ensures ok ==> secs == DecSecs(buf, start, []).secs && |secs| <= HISTORY
  {
    hide DecLength, DecOpen;
    secs := [];
    var pos: nat, more := start, true;
    while more
      invariant pos <= |buf| && |secs| <= HISTORY
      invariant if more then DecSecs(buf, start, []) == DecSecs(buf, pos, secs) else DecSecs(buf, start, []) == List(secs, pos)
      decreases more, |buf| - pos
    {
      var n := DecLength(buf, pos);
      if n.NoLength? || |secs| + n.value > HISTORY { return false, secs; }
      var at := n.pos;
      ghost var had := secs;
      assert had + [] == had;
      ghost var list: seq<Octets> := [];
      for i := 0 to n.value
        invariant n.pos <= at <= |buf| && secs == had + list && |list| == i
        invariant var whole := DecList(buf, n.pos, n.value); var rest := DecList(buf, at, n.value - i);
                  if rest.NoList? then whole.NoList? else whole == List(list + rest.secs, rest.pos)
      {
        var x := DecOpen(buf, at);
        if x.NoOpen? { return false, secs; }
        ghost var rest := DecList(buf, x.pos, n.value - i - 1);
        if rest.List? { Assoc(list, [x.data], rest.secs); }
        at := x.pos;
        Assoc(had, list, [x.data]);
        secs := secs + [x.data];
        list := list + [x.data];
      }
      assert list + [] == list;
      pos := at;
      more := n.more;
    }
    ok := true;
  }

  lemma NoneLeft(secs: seq<Octets>, s: nat)
    ensures Recovered(secs, s, 0) == []
  {
  }

  lemma RecoverOne(secs: seq<Octets>, s: nat, m: nat, out: seq<Delivery>)
    requires 0 < m <= |secs|
    ensures var one := if |secs[m - 1]| > 0 then [Delivery(secs[m - 1], (s - m) % SEQ)] else [];
            out + Recovered(secs, s, m) == out + one + Recovered(secs, s, m - 1)
  {
    var one := if |secs[m - 1]| > 0 then [Delivery(secs[m - 1], (s - m) % SEQ)] else [];
    Assoc(out, one, Recovered(secs, s, m - 1));
  }

  /** enc_length at `at`. */
  method PutLength(out: array<Byte>, at: nat, v: nat) returns (next: nat)
    requires v < 0x4000 && at + 2 <= out.Length
    modifies out
    ensures next == at + |EncLength(v)| && out[..next] == old(out[..at]) + EncLength(v)
  {
    if v < 0x80 {
      out[at] := v;
      next := at + 1;
    } else {
      out[at] := 0x80 + v / 256;
      out[at + 1] := v % 256;
      next := at + 2;
    }
  }

  /** enc_open_type at `at`: refused, and nothing written, unless three octets and the data
      have room. */
  method PutOpen(out: array<Byte>, at: nat, d: Octets) returns (ok: bool, next: nat)
    requires 1 <= |d| < 0x4000 && at <= out.Length
    modifies out
    ensures ok == (at + 3 + |d| <= out.Length)
    ensures next == if ok then at + |EncOpen(d)| else at
    ensures next <= out.Length && out[..next] == old(out[..at]) + (if ok then EncOpen(d) else [])
    ensures out[..at] == old(out[..at])
  {
    hide EncLength;
    if at + 3 + |d| > out.Length { return false, at; }
    next := PutLength(out, at, |d|);
    ghost var was, from := out[..next], next;
    for i := 0 to |d|
      invariant next == from + i <= out.Length && out[..next] == was + d[..i]
    {
      out[next] := d[i];
      next := next + 1;
    }
    assert d[..|d|] == d;
    assert out[..at] == out[..next][..at];
    ok := true;
  }

  /** What a built datagram says, and that no packet more would have had room in it. */
  lemma BuiltParses(sent: seq<Octets>, n: nat, red: nat, cap: int, limit: int)
    requires n < |sent| && red < HISTORY && Packets(sent)
    ensures var k := Redundancy(sent, n, red, cap, limit);
            && AsManyAsFit(sent, n, Least(n, red), cap, limit, k) && Packet(sent[n]) && Packets(Previous(sent, n, k))
            && Parse(Encode(n % SEQ, sent[n], Previous(sent, n, k))) == Parsed(n % SEQ, sent[n], Previous(sent, n, k))
  {
    hide Encode, Parse, Redundancy, AsManyAsFit;
    RedundancyIsMost(sent, n, red, cap, limit);
    var k := Redundancy(sent, n, red, cap, limit);
    EarlierPackets(sent, n, k);
    DatagramRoundTrip(n % SEQ, sent[n], Previous(sent, n, k));
  }

  lemma HeadSize(seqNo: nat, ifp: Octets)
    requires seqNo < SEQ && Packet(ifp)
    ensures |EncOpen(ifp)| <= |ifp| + 2 && Head(seqNo, ifp) == [seqNo / 256, seqNo % 256] + EncOpen(ifp) + [0]
    ensures seqNo / 256 < 256
  {
  }

  lemma EncodeIs(seqNo: nat, ifp: Octets, secs: seq<Octets>)
    requires seqNo < SEQ && Packet(ifp) && Packets(secs) && |secs| < HISTORY
    ensures Encode(seqNo, ifp, secs) == Head(seqNo, ifp) + EncLength(|secs|) + EncList(secs)
  {
    hide EncLength, EncList, Head;
  }

  lemma EntryIs(n: nat)
    ensures n % SEQ % HISTORY == n % HISTORY
  {
  }

  lemma CountReplaced(done: Octets, head: Octets, a: Byte, b: Byte, tail: Octets)
    requires done == head + [a] + tail
    ensures done[|head| := b] == head + [b] + tail
  {
  }
}
