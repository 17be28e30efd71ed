/** What every run of the error correction mode keeps: the receiver holds exactly the blocks
    the sender has seen acknowledged, or one more. */
module EcmDelivery {
  import opened BitIo
  import opened EcmProtocol

  // ---------------------------------------------------------------- pages

  function PaddedLength(n: nat): (r: nat)
    ensures r >= n && r >= 256 && r % 256 == 0 && (r > n ==> r < n + 256 || n == 0)
  {
    if n == 0 then 256 else (n + 255) / 256 * 256
  }

  /** A page as it is delivered: zeros up to a whole number of frames, at least one. */
  function Padded(enc: Page): (p: Page)
    ensures |p| == PaddedLength(|enc|)
  {
    seq(PaddedLength(|enc|), i requires 0 <= i => if i < |enc| then enc[i] else 0)
  }

  function Pads(doc: seq<Page>): (p: seq<Page>)
    ensures |p| == |doc|
  {
    seq(|doc|, i requires 0 <= i < |doc| => Padded(doc[i]))
  }

  lemma PayloadIsSlice(enc: Page, base: nat, i: nat)
    requires base + 256 * i + 256 <= |Padded(enc)|
    ensures Payload(enc, base, i) == Padded(enc)[base + 256 * i..base + 256 * i + 256]
  {
  }

  /** Appending all frames of a block extends the page by the block. */
  lemma {:induction false} AppendsBlock(enc: Page, base: nat, have: seq<Option<seq<Byte>>>, n: nat)
    requires n <= |have| && base + 256 * n <= |Padded(enc)| <= MAX_PAGE
    requires forall i :: 0 <= i < n ==> have[i] == Some(Payload(enc, base, i))
    ensures AppendFrames(Padded(enc)[..base], have, n) == Padded(enc)[..base + 256 * n]
  {
    hide Padded, Payload;
    if n > 0 {
      AppendsBlock(enc, base, have, n - 1);
      PayloadIsSlice(enc, base, n - 1);
    }
  }

  ghost predicate DocOk(doc: seq<Page>) {
    |doc| > 0 && forall p :: 0 <= p < |doc| ==> |doc[p]| <= MAX_PAGE
  }

  lemma PaddedFits(n: nat)
    requires n <= MAX_PAGE
    ensures PaddedLength(n) <= MAX_PAGE
  {
  }

  // ---------------------------------------------------------------- what holds of each station

  ghost predicate AllSend(s: Sender)
    requires s.frames <= |s.send|
  {
    forall i :: 0 <= i < s.frames ==> s.send[i]
  }

  ghost predicate Polling(s: Sender) {
    s.sub.SendPps? || s.sub.WaitPpsResponse?
  }

  ghost predicate Falling(s: Sender) {
    s.sub.SendCtc? || s.sub.WaitCtr?
  }

  ghost predicate GivingUp(s: Sender) {
    s.sub.SendEor? || s.sub.WaitEor?
  }

  /** The current block lies in the current page and says whether it ends it. */
  ghost predicate Placed(doc: seq<Page>, s: Sender) {
    && Able(doc, s)
    && s.base % 256 == 0 && 1 <= s.frames
    && s.base + 256 * s.frames <= PaddedLength(|doc[s.page]|)
    && (s.atPageEnd <==> s.base + 256 * s.frames == PaddedLength(|doc[s.page]|))
    && s.step == (if s.page + 1 < |doc| then Mps else Eop)
  }

  ghost predicate SenderOk(doc: seq<Page>, s: Sender) {
    && Placed(doc, s)
    && (AllSend(s) ==> s.burst == s.cursor)
    && (Polling(s) ==> s.cursor == s.frames)
  }

  /** Pages complete at the receiver, one about to be written included. */
  function DonePages(r: Receiver): seq<Page> {
    if r.sub.SendMcf? && !r.lastPost.Null? then r.finished + [r.buf] else r.finished
  }

  /** What it has of the page after those. */
  function Current(r: Receiver): Page {
    if r.sub.SendMcf? && !r.lastPost.Null? then [] else r.buf
  }

  ghost predicate ReceiverOk(r: Receiver) {
    |r.have| == 256 && -1 <= r.frames <= 256
  }

  ghost predicate HoldsFrames(enc: Page, s: Sender, r: Receiver)
    requires |r.have| == 256
  {
    forall i :: 0 <= i < 256 && r.have[i].Some? ==> i < s.frames && r.have[i].value == Payload(enc, s.base, i)
  }

  ghost predicate Acked(s: Sender, r: Receiver) {
    r.ackedPage == s.page % 256 && r.ackedBlock == s.block % 256
  }

  ghost function PpsOf(s: Sender): Frame {
    PutPps(s).out.value
  }

  // ---------------------------------------------------------------- the phases of a run

  /** The receiver has not taken the sender's current block yet. */
  ghost predicate PendingStations(doc: seq<Page>, s: Sender, r: Receiver)
    requires SenderOk(doc, s) && ReceiverOk(r)
  {
    && (s.sub.SendEcm? || Polling(s) || Falling(s) || GivingUp(s))
    && DonePages(r) == Pads(doc)[..s.page] && Current(r) == Padded(doc[s.page])[..s.base]
    && HoldsFrames(doc[s.page], s, r)
    && (r.frames == -1 || r.frames == s.frames)
    && (r.frames == -1 ==> AllSend(s))
    && (forall i :: 0 <= i < s.frames && !s.send[i] ==> r.have[i].Some?)
    && !Acked(s, r)
    && (!Falling(s) ==> r.fallback == s.fallback)
    && match r.sub
       case SendMcf => r.have == NoFrames() && r.frames == -1 && (r.lastPost.Null? || r.lastPost.Mps?)
       case Reack => r.reackReturn.RecvEcm?
       case _ => !r.sub.WaitDcn? && !r.sub.SendDis? && !r.sub.SendErr?
  }

  ghost predicate PendingWire(doc: seq<Page>, sys: System)
    requires SenderOk(doc, sys.s) && ReceiverOk(sys.r)
  {
    var s, r := sys.s, sys.r;
    match sys.wire
    case Quiet => true
    case Down(f) =>
      (match f
       case Fcd(no, data) => s.sub.SendEcm? && no < s.frames && data == Payload(doc[s.page], s.base, no)
       case Rcp => s.sub.SendEcm?
       case Pps(_, _, _, last) => Polling(s) && f == PpsOf(s) && last < 256 && (r.frames == -1 ==> last + 1 == s.frames)
       case Ctc(speed) => Falling(s) && speed == Dcs(s.fallback)
       case Eor(_) => GivingUp(s)
       case _ => false)
    case Up(f) =>
      (match f
       case Ppr(missing) => Polling(s) && r.frames == s.frames && missing == Missing(r.have)
       case Ctr => Falling(s) && r.fallback == s.fallback
       case Dcn => r.sub.ReceiverDone?
       case _ => false)
  }

  /** The receiver has taken it; the sender has not seen the MCF. */
  ghost predicate AcceptedStations(doc: seq<Page>, s: Sender, r: Receiver)
    requires SenderOk(doc, s) && ReceiverOk(r)
  {
    && Polling(s)
    && DonePages(r) == Pads(doc)[..if s.atPageEnd then s.page + 1 else s.page]
    && Current(r) == (if s.atPageEnd then [] else Padded(doc[s.page])[..s.base + 256 * s.frames])
    && r.have == NoFrames() && r.frames == -1
    && Acked(s, r) && r.fallback == s.fallback && r.lastPost == PostOf(s)
    && match r.sub
       case SendMcf => true
       case ReceiverDone => true
       case Reack => if r.lastPost.Eop? then r.reackReturn.WaitDcn? else r.reackReturn.RecvEcm?
       case WaitDcn => r.lastPost.Eop?
       case _ => (r.sub.RecvEcm? || r.sub.WaitPps?) && !r.lastPost.Eop?
  }

  ghost predicate AcceptedWire(sys: System) {
    match sys.wire
    case Quiet => true
    case Down(f) => f == PpsOf(sys.s)
    case Up(f) => f.Mcf? || (f.Dcn? && sys.r.sub.ReceiverDone?)
  }

  /** The sender gave the block up and the receiver knows. */
  ghost predicate Abandoned(doc: seq<Page>, sys: System)
    requires SenderOk(doc, sys.s) && ReceiverOk(sys.r)
  {
    && GivingUp(sys.s) && sys.r.finished == Pads(doc)[..sys.s.page] && sys.r.fallback == sys.s.fallback
    && (sys.r.sub.SendErr? || sys.r.sub.WaitPps? || sys.r.sub.ReceiverDone?)
    && (sys.wire.Quiet? || sys.wire == Up(Err) || sys.wire == Up(Dcn))
  }

  /** The sender has seen everything acknowledged. */
  ghost predicate Complete(doc: seq<Page>, sys: System)
    requires SenderOk(doc, sys.s) && ReceiverOk(sys.r)
  {
    var r := sys.r;
    && (sys.s.sub.SendDcn? || sys.s.sub == SenderDone(true))
    && DonePages(r) == Pads(doc) && Current(r) == []
    && (r.sub.SendMcf? ==> r.lastPost.Eop?) && (r.sub.Reack? ==> r.reackReturn.WaitDcn?)
    && (r.sub.SendMcf? || r.sub.Reack? || r.sub.WaitDcn? || r.sub.ReceiverDone?)
    && (sys.wire.Quiet? || sys.wire == Down(Dcn) || sys.wire == Up(Dcn))
  }

  /** The sender has disconnected early. */
  ghost predicate Stopped(doc: seq<Page>, sys: System)
    requires SenderOk(doc, sys.s) && ReceiverOk(sys.r)
  {
    && sys.s.sub == SenderDone(false)
    && DonePages(sys.r) <= Pads(doc) && |DonePages(sys.r)| >= sys.s.page
    && (sys.wire.Quiet? || sys.wire == Down(Dcn) || sys.wire == Up(Dcn))
  }

  ghost predicate Pending(doc: seq<Page>, sys: System)
    requires SenderOk(doc, sys.s) && ReceiverOk(sys.r)
  {
    PendingStations(doc, sys.s, sys.r) && PendingWire(doc, sys)
  }

  ghost predicate Accepted(doc: seq<Page>, sys: System)
    requires SenderOk(doc, sys.s) && ReceiverOk(sys.r)
  {
    AcceptedStations(doc, sys.s, sys.r) && AcceptedWire(sys)
  }

  ghost predicate Inv(doc: seq<Page>, sys: System) {
    && DocOk(doc) && SenderOk(doc, sys.s) && ReceiverOk(sys.r)
    && (Pending(doc, sys) || Accepted(doc, sys) || Abandoned(doc, sys) || Complete(doc, sys) || Stopped(doc, sys))
  }

  lemma InvIsRunnable(doc: seq<Page>, sys: System)
    requires Inv(doc, sys)
    ensures Runnable(doc, sys)
  {
  }

  // ---------------------------------------------------------------- blocks and bursts

  /** A freshly built block lies within the page and starts with every frame to be sent. */
  lemma BlockBuilt(doc: seq<Page>, s: Sender, cap: nat)
    requires s.page < |doc| && |s.send| == 256 && s.fallback < LADDER && 1 <= cap <= 256
    requires s.base % 256 == 0 && (s.base == 0 || s.base < |doc[s.page]|)
    requires s.step == if s.page + 1 < |doc| then Mps else Eop
    ensures var t := StartBurst(BuildBlock(doc[s.page], s, cap));
            && SenderOk(doc, t) && AllSend(t) && t.sub.SendEcm?
            && t.page == s.page && t.base == s.base && t.block == s.block && t.fallback == s.fallback
  {
    var t := StartBurst(BuildBlock(doc[s.page], s, cap));
    var remaining: nat := |doc[s.page]| - s.base;
    var octets := if remaining < cap * 256 then remaining else cap * 256;
    BlockSize(|doc[s.page]|, s.base, cap, octets);
    assert t.cursor == 0 && t.burst == 0;
  }

  /** The frames of a block end at the padded end of the page exactly for the last block. */
  lemma BlockSize(n: nat, base: nat, cap: nat, octets: nat)
    requires base % 256 == 0 && (base == 0 || base < n) && base <= n && 1 <= cap <= 256
    requires octets == if n - base < cap * 256 then n - base else cap * 256
    ensures var f := (octets + 255) / 256; var frames := if f < 1 then 1 else f;
            && 1 <= frames <= 256
            && base + 256 * frames <= PaddedLength(n)
            && (base + octets >= n <==> base + 256 * frames == PaddedLength(n))
            && (base + octets < n ==> base + 256 * frames < n)
  {
  }

  lemma StartIsPending(doc: seq<Page>, cap: nat, fallback: nat, v34: bool)
    requires DocOk(doc) && 1 <= cap <= 256 && fallback < LADDER
    ensures Inv(doc, Start(doc, cap, fallback, v34))
  {
    var z := Sender(SendEcm, 0, 0, 0, 0, seq(256, _ => false), 0, 0, 0, false, if 0 + 1 < |doc| then Mps else Eop, 0, 0, 0, fallback, v34);
    BlockBuilt(doc, z, cap);
    var sys := Start(doc, cap, fallback, v34);
    assert sys.s == StartBurst(BuildBlock(doc[0], z, cap));
    assert Pads(doc)[..0] == [] && Padded(doc[0])[..0] == [];
    assert PendingStations(doc, sys.s, sys.r);
  }

  // ---------------------------------------------------------------- events at the stations

  lemma LoseKeepsInv(doc: seq<Page>, sys: System)
    requires Inv(doc, sys)
    ensures Inv(doc, sys.(wire := Quiet))
  {
    hide PendingStations, AcceptedStations, SenderOk;
  }

  lemma CarrierDownKeepsInv(doc: seq<Page>, sys: System)
    requires Inv(doc, sys)
    ensures Inv(doc, sys.(r := ReceiverCarrierDown(sys.r)))
  {
    hide Pads, Padded, SenderOk, PutPps;
    var r := ReceiverCarrierDown(sys.r);
    assert Missing(r.have) == Missing(sys.r.have);
  }

  lemma ReceiverTimerKeepsInv(doc: seq<Page>, sys: System)
    requires Inv(doc, sys) && sys.wire.Quiet?
    ensures var t := ReceiverOnTimer(sys.r); Inv(doc, sys.(r := t.r, wire := PutUp(t.out)))
  {
    hide Pads, Padded, SenderOk, PutPps;
  }

  lemma NeverEom(doc: seq<Page>, s: Sender)
    requires SenderOk(doc, s)
    ensures !PostOf(s).Eom?
  {
  }

  lemma ReceiverStepKeepsInv(doc: seq<Page>, sys: System)
    requires Inv(doc, sys)
    ensures Inv(doc, sys.(r := ReceiverStepDone(sys.r)))
  {
    hide Pads, Padded, SenderOk, PutPps, PostOf;
    NeverEom(doc, sys.s);
    var q := sys.(r := ReceiverStepDone(sys.r));
    assert DonePages(q.r) == DonePages(sys.r);
    if Pending(doc, sys) {
      assert PendingStations(doc, q.s, q.r);
    }
  }

  /** A sender that merely repeats or waits stays where it is in the document. */
  lemma StaysPut(doc: seq<Page>, s: Sender, t: Sender, r: Receiver)
    requires SenderOk(doc, s) && ReceiverOk(r)
    requires t == s.(sub := t.sub, postRetries := t.postRetries, ctcRetries := t.ctcRetries)
    requires Polling(s) == Polling(t) && Falling(s) == Falling(t) && GivingUp(s) == GivingUp(t) && s.sub.SendEcm? == t.sub.SendEcm?
    ensures SenderOk(doc, t) && PpsOf(t) == PpsOf(s) && PostOf(t) == PostOf(s)
    ensures PendingStations(doc, t, r) == PendingStations(doc, s, r)
    ensures AcceptedStations(doc, t, r) == AcceptedStations(doc, s, r)
  {
    hide Pads, Padded, HoldsFrames;
    assert AllSend(t) == AllSend(s);
    assert HoldsFrames(doc[t.page], t, r) == HoldsFrames(doc[s.page], s, r) by { SameHolding(doc[s.page], s, t, r); }
  }

  lemma SameHolding(enc: Page, s: Sender, t: Sender, r: Receiver)
    requires |r.have| == 256 && t.base == s.base && t.frames == s.frames
    ensures HoldsFrames(enc, t, r) == HoldsFrames(enc, s, r)
  {
  }

  lemma SenderStepKeepsInv(doc: seq<Page>, sys: System)
    requires Inv(doc, sys) && !sys.s.sub.SendEcm?
    ensures Inv(doc, sys.(s := SenderStepDone(sys.s).s))
  {
    hide PendingStations, AcceptedStations, SenderOk, Pads, PutPps, PostOf;
    if !sys.s.sub.SendDcn? {
      StaysPut(doc, sys.s, SenderStepDone(sys.s).s, sys.r);
    } else {
      Finishing(doc, sys);
    }
  }

  lemma Finishing(doc: seq<Page>, sys: System)
    requires Inv(doc, sys) && sys.s.sub.SendDcn?
    ensures Complete(doc, sys)
    ensures SenderOk(doc, sys.s.(sub := SenderDone(true)))
  {
    hide Pads, Padded;
    assert AllSend(sys.s.(sub := SenderDone(true))) == AllSend(sys.s);
  }

  /** The PPS of a burst carries the number of frames the burst had. */
  lemma PpsFits(doc: seq<Page>, s: Sender)
    requires SenderOk(doc, s) && Polling(s)
    ensures PpsOf(s).last < 256 && (AllSend(s) ==> PpsOf(s).last + 1 == s.frames)
  {
  }

  lemma SenderTimerKeepsInv(doc: seq<Page>, sys: System)
    requires Inv(doc, sys) && sys.wire.Quiet? && Waiting(sys.s)
    ensures var t := SenderOnTimer(sys.s); Inv(doc, sys.(s := t.s, wire := PutDown(t.out)))
  {
    hide PendingStations, AcceptedStations, SenderOk, Pads, PutPps, PostOf;
    InvIsRunnable(doc, sys);
    var t := SenderOnTimer(sys.s);
    PollsAgain(sys.s.(postRetries := sys.s.postRetries + 1));
    if sys.s.sub.SenderDone? {
    } else if t.s.sub.SenderDone? {
      Disconnects(doc, sys);
    } else {
      StaysPut(doc, sys.s, t.s, sys.r);
      PhaseMeans(doc, t.s, sys.r);
      if Polling(t.s) { PpsFits(doc, t.s); }
    }
  }

  lemma PhaseMeans(doc: seq<Page>, s: Sender, r: Receiver)
    requires SenderOk(doc, s) && ReceiverOk(r)
    ensures PendingStations(doc, s, r) ==> r.frames == s.frames || (r.frames == -1 && AllSend(s))
    ensures AcceptedStations(doc, s, r) ==> Polling(s)
  {
  }

  lemma PollsAgain(s: Sender)
    ensures PutPps(s) == Sent(s.(sub := SendPps), Some(PpsOf(s)))
    ensures PpsOf(s).Pps? && PpsOf(s.(sub := SendPps)) == PpsOf(s)
  {
  }

  /** Whatever the receiver holds, a disconnect leaves it with whole pages in order. */
  lemma Disconnects(doc: seq<Page>, sys: System)
    requires Inv(doc, sys) && !sys.s.sub.SendDcn? && !sys.s.sub.SenderDone?
    ensures SenderOk(doc, sys.s.(sub := SenderDone(false)))
    ensures DonePages(sys.r) <= Pads(doc) && |DonePages(sys.r)| >= sys.s.page
  {
    hide Padded, Pads;
    var t := sys.s.(sub := SenderDone(false));
    assert AllSend(t) == AllSend(sys.s);
  }

  // ---------------------------------------------------------------- the burst

  /** Streaming changes nothing about the block. */
  lemma BurstStaysPut(doc: seq<Page>, s: Sender, t: Sender, r: Receiver)
    requires SenderOk(doc, s) && SenderOk(doc, t) && ReceiverOk(r)
    requires t == s.(sub := t.sub, cursor := t.cursor, burst := t.burst, rcpLeft := t.rcpLeft, postRetries := t.postRetries)
    requires s.sub.SendEcm? && (t.sub.SendEcm? || Polling(t))
    requires PendingStations(doc, s, r)
    ensures PendingStations(doc, t, r)
  {
    hide Pads, Padded, HoldsFrames, Acked;
    assert AllSend(t) == AllSend(s);
    SameHolding(doc[s.page], s, t, r);
    assert Acked(t, r) == Acked(s, r) by { SameBlock(s, t, r); }
  }

  lemma SameBlock(s: Sender, t: Sender, r: Receiver)
    requires t.page == s.page && t.block == s.block
    ensures Acked(t, r) == Acked(s, r)
  {
  }

  /** Sending the next frame of a burst, or its PPS. */
  lemma StreamKeepsInv(doc: seq<Page>, allowed: seq<bool>, sys: System)
    requires Inv(doc, sys) && sys.s.sub.SendEcm? && sys.wire.Quiet? && |allowed| == LADDER
    ensures Runnable(doc, sys) && Inv(doc, Happen(doc, allowed, sys, StreamFrame))
  {
    hide PendingStations, AcceptedStations, SenderOk, Pads, PutPps, PostOf, Payload;
    InvIsRunnable(doc, sys);
    OnlyPending(doc, sys);
    var s := sys.s;
    var t := GetFrame(doc[s.page], s);
    StreamedOk(doc, s);
    if t.out.None? {
      var u := t.s.(postRetries := 0);
      PollsAgain(u);
      BurstStaysPut(doc, s, PutPps(u).s, sys.r);
      PpsFits(doc, PutPps(u).s);
      PhaseMeans(doc, PutPps(u).s, sys.r);
    } else {
      BurstStaysPut(doc, s, t.s, sys.r);
    }
  }

  lemma OnlyPending(doc: seq<Page>, sys: System)
    requires Inv(doc, sys)
    ensures !Polling(sys.s) && !GivingUp(sys.s) && !sys.s.sub.SendDcn? && !sys.s.sub.SenderDone? ==> Pending(doc, sys)
  {
    hide Pads, Padded, PendingWire;
  }

  lemma StreamedOk(doc: seq<Page>, s: Sender)
    requires SenderOk(doc, s) && s.sub.SendEcm?
    ensures var t := GetFrame(doc[s.page], s);
            && SenderOk(doc, t.s) && t.s.sub.SendEcm? && t.s == s.(cursor := t.s.cursor, burst := t.s.burst, rcpLeft := t.s.rcpLeft)
            && (t.out.None? ==> t.s.cursor == t.s.frames && SenderOk(doc, t.s.(postRetries := 0, sub := SendPps)))
  {
    hide Payload, NextToSend, AllSend;
    var t := GetFrame(doc[s.page], s);
    NextIsHere(s);
    SameMarks(s, t.s);
    SameMarks(s, t.s.(postRetries := 0, sub := SendPps));
  }

  lemma NextIsHere(s: Sender)
    requires s.cursor <= s.frames <= |s.send|
    ensures AllSend(s) ==> NextToSend(s.send, s.frames, s.cursor) == s.cursor
  {
  }

  lemma SameMarks(s: Sender, t: Sender)
    requires s.frames <= |s.send| && t.frames == s.frames && t.send == s.send
    ensures AllSend(t) == AllSend(s)
  {
  }

  // ---------------------------------------------------------------- frames reaching the receiver

  /** A frame of the block is stored, and only as what it is. */
  lemma StoresFrame(doc: seq<Page>, s: Sender, r: Receiver, no: nat)
    requires SenderOk(doc, s) && ReceiverOk(r) && PendingStations(doc, s, r) && r.sub.RecvEcm? && no < s.frames
    ensures PendingStations(doc, s, StoreFcd(r, no, Payload(doc[s.page], s.base, no)))
  {
    hide Pads, Padded, Payload;
    var d := Payload(doc[s.page], s.base, no);
    var q := StoreFcd(r, no, d);
    assert q.have == r.have[no := Some(d)];
    assert Acked(s, q) == Acked(s, r);
  }

  /** The PPS of a block all of whose frames are there: the block is appended. */
  lemma AcceptsBlock(doc: seq<Page>, s: Sender, r: Receiver)
    requires DocOk(doc) && SenderOk(doc, s) && ReceiverOk(r) && PendingStations(doc, s, r) && Polling(s)
    requires (r.sub.RecvEcm? || r.sub.WaitPps?) && r.frames == s.frames && HasAll(r.have, r.frames)
    ensures AcceptedStations(doc, s, r.(lastPost := PostOf(s), buf := AppendFrames(r.buf, r.have, r.frames), have := NoFrames(),
                                        frames := -1, ackedPage := s.page % 256, ackedBlock := s.block % 256, sub := SendMcf))
  {
    hide Padded, Pads, Payload, AppendFrames;
    var enc := doc[s.page];
    PaddedFits(|enc|);
    AppendsBlock(enc, s.base, r.have, s.frames);
    assert Padded(enc)[..|Padded(enc)|] == Padded(enc);
    PadsNext(doc, s.page);
  }

  lemma PadsNext(doc: seq<Page>, p: nat)
    requires p < |doc|
    ensures Pads(doc)[..p + 1] == Pads(doc)[..p] + [Padded(doc[p])]
  {
    hide Padded;
  }

  lemma PpsSpelled(s: Sender)
    ensures PpsOf(s) == Pps(PostOf(s), s.page % 256, s.block % 256, PpsOf(s).last)
  {
  }

  lemma DeliverPpsPending(doc: seq<Page>, sys: System)
    requires Inv(doc, sys) && Pending(doc, sys) && sys.wire.Down? && sys.wire.f.Pps? && (sys.r.sub.RecvEcm? || sys.r.sub.WaitPps?)
    requires sys.wire.f.last < 256
    ensures var t := ReceiverOnFrame(sys.r, sys.wire.f); Inv(doc, sys.(r := t.r, wire := PutUp(t.out)))
  {
    hide SenderOk, Pads, Padded, AppendFrames, Payload, PutPps, PostOf, AcceptedStations;
    var s, r := sys.s, sys.r;
    PpsSpelled(s);
    PhaseMeans(doc, s, r);
    FrameCount(doc, s);
    var q := r.(frames := s.frames, lastPost := PostOf(s));
    assert Acked(s, q) == Acked(s, r);
    assert PendingStations(doc, s, q);
    if HasAll(r.have, s.frames) {
      AcceptsBlock(doc, s, q);
    } else {
      assert PendingStations(doc, s, q.(sub := SendPpr));
    }
  }

  lemma FrameCount(doc: seq<Page>, s: Sender)
    requires SenderOk(doc, s)
    ensures 1 <= s.frames <= 256
  {
  }

  lemma DeliverDownKeepsInv(doc: seq<Page>, sys: System)
    requires Inv(doc, sys) && sys.wire.Down? && Listening(sys.r)
    ensures Runnable(doc, sys)
    ensures var t := ReceiverOnFrame(sys.r, sys.wire.f); Inv(doc, sys.(r := t.r, wire := PutUp(t.out)))
  {
    hide SenderOk, Pads, Padded, Payload, AppendFrames, HoldsFrames, OnPps;
    InvIsRunnable(doc, sys);
    var s, r, f := sys.s, sys.r, sys.wire.f;
    if Pending(doc, sys) {
      match f {
        case Fcd(no, d) => if r.sub.RecvEcm? { StoresFrame(doc, s, r, no); }
        case Pps(_, _, _, _) => if r.sub.RecvEcm? || r.sub.WaitPps? { DeliverPpsPending(doc, sys); }
        case Ctc(_) => DeliverCtc(doc, sys);
        case Eor(_) => DeliverEor(doc, sys);
        case _ =>
      }
    } else if Accepted(doc, sys) {
      DeliverPpsAgain(doc, sys);
    }
  }

  /** A repeated PPS for a block already taken is answered by an MCF and nothing else. */
  lemma DeliverPpsAgain(doc: seq<Page>, sys: System)
    requires Inv(doc, sys) && Accepted(doc, sys) && sys.wire.Down? && Listening(sys.r)
    ensures Runnable(doc, sys)
    ensures var t := ReceiverOnFrame(sys.r, sys.wire.f); Inv(doc, sys.(r := t.r, wire := PutUp(t.out)))
  {
    hide SenderOk, Pads, Padded, PutPps, PostOf, AppendFrames;
    InvIsRunnable(doc, sys);
    PpsSpelled(sys.s);
    var t := ReceiverOnFrame(sys.r, sys.wire.f);
    assert Acked(sys.s, t.r);
  }

  lemma DeliverCtc(doc: seq<Page>, sys: System)
    requires Inv(doc, sys) && Pending(doc, sys) && sys.wire.Down? && sys.wire.f.Ctc? && Listening(sys.r)
    ensures var t := ReceiverOnFrame(sys.r, sys.wire.f); Inv(doc, sys.(r := t.r, wire := PutUp(t.out)))
  {
    hide SenderOk, Pads, Padded, Payload, HoldsFrames, Dcs, FromDcs;
    InvIsRunnable(doc, sys);
    SpeedRoundTrip(sys.s.fallback);
    var t := ReceiverOnFrame(sys.r, sys.wire.f);
    SameHave(doc[sys.s.page], sys.s, sys.r, t.r);
    assert Acked(sys.s, t.r) == Acked(sys.s, sys.r);
  }

  lemma SameHave(enc: Page, s: Sender, r: Receiver, q: Receiver)
    requires |r.have| == 256 && q.have == r.have
    ensures HoldsFrames(enc, s, q) == HoldsFrames(enc, s, r)
  {
  }

  lemma DeliverEor(doc: seq<Page>, sys: System)
    requires Inv(doc, sys) && Pending(doc, sys) && sys.wire.Down? && sys.wire.f.Eor? && Listening(sys.r)
    ensures var t := ReceiverOnFrame(sys.r, sys.wire.f); Inv(doc, sys.(r := t.r, wire := PutUp(t.out)))
  {
    hide SenderOk, Pads, Padded, Payload, HoldsFrames, AppendFrames;
    InvIsRunnable(doc, sys);
  }

  // ---------------------------------------------------------------- frames reaching the sender

  /** A sender that restarts, falls back or gives up keeps its place; what it will not resend
      the receiver has. */
  lemma RetriesInPlace(doc: seq<Page>, s: Sender, t: Sender, r: Receiver)
    requires SenderOk(doc, s) && SenderOk(doc, t) && ReceiverOk(r) && PendingStations(doc, s, r)
    requires t.page == s.page && t.base == s.base && t.block == s.block && t.frames == s.frames
    requires t.sub.SendEcm? || Falling(t) || GivingUp(t)
    requires r.frames == s.frames || t.send == s.send
    requires forall i :: 0 <= i < s.frames && !t.send[i] ==> r.have[i].Some?
    requires Falling(t) || r.fallback == t.fallback
    ensures PendingStations(doc, t, r)
  {
    hide Pads, Padded, HoldsFrames, Acked;
    SameHolding(doc[s.page], s, t, r);
    SameBlock(s, t, r);
    FrameCount(doc, s);
    assert t.send == s.send ==> AllSend(t) == AllSend(s);
  }

  /** After a PPR the frames marked for sending are exactly those the receiver lacks. */
  lemma ResendsExactlyTheMissing(doc: seq<Page>, sys: System, allowed: seq<bool>, cap: nat)
    requires Inv(doc, sys) && |allowed| == LADDER && 1 <= cap <= 256
    requires sys.wire.Up? && sys.wire.f.Ppr? && sys.s.sub.WaitPpsResponse?
    ensures Runnable(doc, sys)
    ensures var t := SenderOnFrame(doc, sys.s, sys.wire.f, cap, allowed).s;
            |t.send| == 256 && t.frames == sys.s.frames <= 256 &&
            forall i :: 0 <= i < t.frames ==> (t.send[i] <==> sys.r.have[i].None?)
  {
    hide Pads, Padded, HoldsFrames, SenderOk, NextAllowed, Dcs, PendingStations;
    InvIsRunnable(doc, sys);
    FrameCount(doc, sys.s);
  }

  lemma AfterPpr(doc: seq<Page>, s0: Sender, r: Receiver, allowed: seq<bool>)
    requires SenderOk(doc, s0) && ReceiverOk(r) && |allowed| == LADDER && s0.sub.WaitPpsResponse?
    requires forall i :: 0 <= i < s0.frames && i < 256 && !s0.send[i] ==> r.have[i].Some?
    ensures var s := OnPpr(s0, Missing(r.have), allowed).s;
            && SenderOk(doc, s) && |s.send| == 256 && s.frames == s0.frames && s.page == s0.page && s.base == s0.base && s.block == s0.block
            && (forall i :: 0 <= i < s.frames && !s.send[i] ==> r.have[i].Some?)
            && (s.sub.SendEcm? || Falling(s) || GivingUp(s) || s.sub == SenderDone(false))
            && (Falling(s) || s.fallback == s0.fallback)
  {
    hide NextAllowed, Dcs;
    var a := ApplyPpr(s0, Missing(r.have));
    assert forall i :: 0 <= i < a.frames ==> a.send[i] == r.have[i].None?;
    var s := OnPpr(s0, Missing(r.have), allowed).s;
    assert s.send == a.send && s.frames == s0.frames;
    if AllSend(s) {
      forall i | 0 <= i < s0.frames ensures s0.send[i] { assert s.send[i]; }
      assert AllSend(s0);
    }
  }

  lemma DeliverPpr(doc: seq<Page>, sys: System, allowed: seq<bool>, cap: nat)
    requires Inv(doc, sys) && Pending(doc, sys) && |allowed| == LADDER && 1 <= cap <= 256
    requires sys.wire.Up? && sys.wire.f.Ppr? && sys.s.sub.WaitPpsResponse?
    ensures Runnable(doc, sys)
    ensures var t := SenderOnFrame(doc, sys.s, sys.wire.f, cap, allowed); Inv(doc, sys.(s := t.s, wire := PutDown(t.out)))
  {
    hide Pads, Padded, HoldsFrames, SenderOk, NextAllowed, AllSend, Acked, Dcs;
    InvIsRunnable(doc, sys);
    var s := sys.s;
    FrameCount(doc, s);
    AfterPpr(doc, s, sys.r, allowed);
    var t := OnPpr(s, sys.wire.f.missing, allowed);
    if t.s.sub.SenderDone? {
      StopsWhilePending(doc, sys);
    } else {
      RetriesInPlace(doc, s, t.s, sys.r);
    }
  }

  lemma StopsWhilePending(doc: seq<Page>, sys: System)
    requires Inv(doc, sys) && Pending(doc, sys)
    ensures DonePages(sys.r) <= Pads(doc) && |DonePages(sys.r)| == sys.s.page
  {
    hide Pads, Padded;
  }

  /** A block built behind what the receiver holds is what it waits for. */
  lemma NextBlockPends(doc: seq<Page>, u: Sender, cap: nat, r: Receiver)
    requires u.page < |doc| && |u.send| == 256 && u.fallback < LADDER && 1 <= cap <= 256
    requires u.base % 256 == 0 && (u.base == 0 || u.base < |doc[u.page]|)
    requires u.step == if u.page + 1 < |doc| then Mps else Eop
    requires ReceiverOk(r) && r.have == NoFrames() && r.frames == -1 && !Acked(u, r) && r.fallback == u.fallback
    requires DonePages(r) == Pads(doc)[..u.page] && Current(r) == Padded(doc[u.page])[..u.base]
    requires match r.sub
             case SendMcf => r.lastPost.Null? || r.lastPost.Mps?
             case Reack => r.reackReturn.RecvEcm?
             case _ => !r.sub.WaitDcn? && !r.sub.SendDis? && !r.sub.SendErr?
    ensures var t := StartBurst(BuildBlock(doc[u.page], u, cap)); SenderOk(doc, t) && PendingStations(doc, t, r)
  {
    hide Pads, Padded, BuildBlock, Acked;
    BlockBuilt(doc, u, cap);
    SameBlock(u, StartBurst(BuildBlock(doc[u.page], u, cap)), r);
  }

  lemma NotAckedYet(s: Sender, u: Sender, r: Receiver)
    requires Acked(s, r)
    requires (u.page == s.page && u.block == s.block + 1) || u.page == s.page + 1
    ensures !Acked(u, r)
  {
  }

  /** After an MCF the next block, or the end, is what the receiver waits for. */
  lemma DeliverMcf(doc: seq<Page>, sys: System, allowed: seq<bool>, cap: nat)
    requires Inv(doc, sys) && Accepted(doc, sys) && |allowed| == LADDER && 1 <= cap <= 256
    requires sys.s.sub.WaitPpsResponse? && sys.wire == Up(Mcf)
    ensures Runnable(doc, sys)
    ensures var t := SenderOnFrame(doc, sys.s, sys.wire.f, cap, allowed); Inv(doc, sys.(s := t.s, wire := PutDown(t.out)))
  {
    hide Pads, Padded, BuildBlock, Acked, PendingStations;
    InvIsRunnable(doc, sys);
    var s := sys.s;
    if !s.atPageEnd {
      var u := s.(base := s.base + s.frames * OCTETS, block := s.block + 1);
      BlockEnds(doc, s);
      NotAckedYet(s, u, sys.r);
      NextBlockPends(doc, u, cap, sys.r);
    } else if s.step.Mps? {
      var u := s.(page := s.page + 1, block := 0, base := 0, step := if s.page + 1 + 1 < |doc| then Mps else Eop);
      NotAckedYet(s, u, sys.r);
      assert Padded(doc[s.page + 1])[..0] == [];
      NextBlockPends(doc, u, cap, sys.r);
    } else {
      assert Pads(doc)[..|doc|] == Pads(doc);
      assert AllSend(s.(sub := SendDcn)) == AllSend(s);
    }
  }

  lemma BlockEnds(doc: seq<Page>, s: Sender)
    requires Placed(doc, s) && !s.atPageEnd
    ensures s.base + 256 * s.frames < |doc[s.page]|
  {
  }

  lemma DeliverUpKeepsInv(doc: seq<Page>, sys: System, allowed: seq<bool>, cap: nat)
    requires Inv(doc, sys) && sys.wire.Up? && Waiting(sys.s) && |allowed| == LADDER && 1 <= cap <= 256
    ensures Runnable(doc, sys)
    ensures var t := SenderOnFrame(doc, sys.s, sys.wire.f, cap, allowed); Inv(doc, sys.(s := t.s, wire := PutDown(t.out)))
  {
    hide SenderOk, Pads, Padded, HoldsFrames, BuildBlock, OnPpr, OnMcf, Acked;
    InvIsRunnable(doc, sys);
    var s, f := sys.s, sys.wire.f;
    if s.sub.WaitPpsResponse? {
      if f.Ppr? && Pending(doc, sys) { DeliverPpr(doc, sys, allowed, cap); }
      if f.Mcf? && Accepted(doc, sys) { DeliverMcf(doc, sys, allowed, cap); }
    } else if s.sub.WaitCtr? {
      if f.Ctr? { DeliverCtr(doc, sys); }
    } else if s.sub.WaitEor? {
      Disconnects(doc, sys);
    }
  }

  lemma DeliverCtr(doc: seq<Page>, sys: System)
    requires Inv(doc, sys) && sys.wire == Up(Ctr) && sys.s.sub.WaitCtr?
    ensures Inv(doc, sys.(s := StartBurst(sys.s), wire := Quiet))
  {
    hide Pads, Padded, HoldsFrames, Acked;
    var t := StartBurst(sys.s);
    assert AllSend(t) == AllSend(sys.s);
    RetriesInPlace(doc, sys.s, t, sys.r);
  }

  // ---------------------------------------------------------------- runs

  lemma EventKeepsInv(doc: seq<Page>, allowed: seq<bool>, sys: System, e: Event)
    requires Inv(doc, sys) && |allowed| == LADDER && Enabled(sys, e)
    ensures Runnable(doc, sys) && Inv(doc, Happen(doc, allowed, sys, e))
  {
    hide Inv, ReceiverOnFrame, SenderOnFrame, ReceiverStepDone, SenderStepDone, SenderOnTimer, ReceiverOnTimer, GetFrame;
    InvIsRunnable(doc, sys);
    match e
    case StreamFrame => StreamKeepsInv(doc, allowed, sys);
    case SenderStep => SenderStepKeepsInv(doc, sys);
    case SenderTimer => SenderTimerKeepsInv(doc, sys);
    case Deliver(cap) => if sys.wire.Down? { DeliverDownKeepsInv(doc, sys); } else { DeliverUpKeepsInv(doc, sys, allowed, cap); }
    case Lose => LoseKeepsInv(doc, sys);
    case ReceiverStep => ReceiverStepKeepsInv(doc, sys);
    case CarrierDown => CarrierDownKeepsInv(doc, sys);
    case ReceiverTimer => ReceiverTimerKeepsInv(doc, sys);
  }

  /** `runs` is a run: it starts at the first page and each state follows by an event. */
  ghost predicate IsRun(doc: seq<Page>, allowed: seq<bool>, start: System, events: seq<Event>, run: seq<System>)
    requires |allowed| == LADDER
  {
    && |run| == |events| + 1 && run[0] == start
    && forall i :: 0 <= i < |events| ==>
         Runnable(doc, run[i]) && Enabled(run[i], events[i]) && run[i + 1] == Happen(doc, allowed, run[i], events[i])
  }

  lemma {:induction false} RunKeepsInv(doc: seq<Page>, allowed: seq<bool>, start: System, events: seq<Event>, run: seq<System>, n: nat)
    requires |allowed| == LADDER && IsRun(doc, allowed, start, events, run) && Inv(doc, start) && n < |run|
    ensures Inv(doc, run[n])
  {
    hide Inv, Happen, Runnable, Enabled;
    if n > 0 {
      RunKeepsInv(doc, allowed, start, events, run, n - 1);
      EventKeepsInv(doc, allowed, run[n - 1], events[n - 1]);
    }
  }

  /** Exactly-once delivery, over every run with any frame lost: the pages written are the
      document's padded pages in order; the pages the sender has moved past are all there;
      unless the block was given up, the current page is what precedes the sender's block, or
      that and the block; and a sender that has finished has had the whole document taken. */
  lemma ExactlyOnce(doc: seq<Page>, allowed: seq<bool>, cap: nat, fallback: nat, v34: bool, events: seq<Event>, run: seq<System>, n: nat)
    requires DocOk(doc) && 1 <= cap <= 256 && fallback < LADDER && |allowed| == LADDER
    requires IsRun(doc, allowed, Start(doc, cap, fallback, v34), events, run) && n < |run|
    ensures var s, r := run[n].s, run[n].r;
            && s.page < |doc|
            && r.finished <= DonePages(r) <= Pads(doc) && |DonePages(r)| >= s.page
            && (s.sub.SendDcn? || s.sub == SenderDone(true) ==> DonePages(r) == Pads(doc))
            && (s.sub.SendEcm? || Polling(s) || Falling(s) ==>
                  || (DonePages(r) == Pads(doc)[..s.page] && s.base <= |Padded(doc[s.page])| && Current(r) == Padded(doc[s.page])[..s.base])
                  || (if s.atPageEnd then DonePages(r) == Pads(doc)[..s.page + 1] && Current(r) == []
                      else DonePages(r) == Pads(doc)[..s.page] && s.base + 256 * s.frames <= |Padded(doc[s.page])|
                           && Current(r) == Padded(doc[s.page])[..s.base + 256 * s.frames]))
  {
    hide IsRun, Happen, Start;
    StartIsPending(doc, cap, fallback, v34);
    RunKeepsInv(doc, allowed, Start(doc, cap, fallback, v34), events, run, n);
    InvMeans(doc, run[n]);
  }

  lemma InvMeans(doc: seq<Page>, sys: System)
    requires Inv(doc, sys)
    ensures var s, r := sys.s, sys.r;
            && s.page < |doc|
            && r.finished <= DonePages(r) <= Pads(doc) && |DonePages(r)| >= s.page
            && (s.sub.SendDcn? || s.sub == SenderDone(true) ==> DonePages(r) == Pads(doc))
            && (s.sub.SendEcm? || Polling(s) || Falling(s) ==>
                  || (DonePages(r) == Pads(doc)[..s.page] && s.base <= |Padded(doc[s.page])| && Current(r) == Padded(doc[s.page])[..s.base])
                  || (if s.atPageEnd then DonePages(r) == Pads(doc)[..s.page + 1] && Current(r) == []
                      else DonePages(r) == Pads(doc)[..s.page] && s.base + 256 * s.frames <= |Padded(doc[s.page])|
                           && Current(r) == Padded(doc[s.page])[..s.base + 256 * s.frames]))
  {
    hide Pads, Padded, HoldsFrames, PendingWire, AcceptedWire;
  }

  /** Image frames are only ever sent at the rate the receiver listens at. */
  lemma SameRate(doc: seq<Page>, allowed: seq<bool>, cap: nat, fallback: nat, v34: bool, events: seq<Event>, run: seq<System>, n: nat)
    requires DocOk(doc) && 1 <= cap <= 256 && fallback < LADDER && |allowed| == LADDER
    requires IsRun(doc, allowed, Start(doc, cap, fallback, v34), events, run) && n < |run|
    requires run[n].s.sub.SendEcm?
    ensures run[n].r.fallback == run[n].s.fallback
  {
    hide IsRun, Happen, Start, Pads, Padded, HoldsFrames;
    StartIsPending(doc, cap, fallback, v34);
    RunKeepsInv(doc, allowed, Start(doc, cap, fallback, v34), events, run, n);
  }

  /** Some run leads from one state to the other. */
  ghost predicate Leads(doc: seq<Page>, allowed: seq<bool>, a: System, b: System)
    requires |allowed| == LADDER
  {
    exists events, run :: IsRun(doc, allowed, a, events, run) && run[|events|] == b
  }

  lemma LeadsNowhere(doc: seq<Page>, allowed: seq<bool>, a: System)
    requires |allowed| == LADDER
    ensures Leads(doc, allowed, a, a)
  {
    hide Happen, Enabled, Runnable;
    assert IsRun(doc, allowed, a, [], [a]);
  }

  lemma LeadsOn(doc: seq<Page>, allowed: seq<bool>, a: System, b: System, e: Event)
    requires |allowed| == LADDER && Leads(doc, allowed, a, b) && Runnable(doc, b) && Enabled(b, e)
    ensures Leads(doc, allowed, a, Happen(doc, allowed, b, e))
  {
    hide Happen, Enabled, Runnable;
    var events, run :| IsRun(doc, allowed, a, events, run) && run[|events|] == b;
    var c := Happen(doc, allowed, b, e);
    assert IsRun(doc, allowed, a, events + [e], run + [c]);
    assert (run + [c])[|events + [e]|] == c;
  }
}
