/** Progress of the error correction mode, and the limit of its acknowledgements. */
module EcmProgress {
  import opened EcmProtocol
  import opened EcmDelivery

  /** A burst under way: the receiver listens and has every frame up to the cursor. */
  ghost predicate UnderWay(doc: seq<Page>, sys: System) {
    && Inv(doc, sys) && sys.s.sub.SendEcm? && sys.wire.Quiet? && sys.r.sub.RecvEcm?
    && forall i :: 0 <= i < sys.s.cursor && i < 256 ==> sys.r.have[i].Some?
  }

  /** What a line that loses nothing makes of a frame: it is sent and it arrives. */
  ghost function SendOne(doc: seq<Page>, allowed: seq<bool>, sys: System): System
    requires UnderWay(doc, sys) && |allowed| == LADDER
  {
    hide Happen, Inv, Runnable;
    EventKeepsInv(doc, allowed, sys, StreamFrame);
    var a := Happen(doc, allowed, sys, StreamFrame);
    StillListening(doc, allowed, sys);
    EventKeepsInv(doc, allowed, a, Deliver(1));
    Happen(doc, allowed, a, Deliver(1))
  }

  lemma StillListening(doc: seq<Page>, allowed: seq<bool>, sys: System)
    requires UnderWay(doc, sys) && |allowed| == LADDER && Runnable(doc, sys)
    ensures var a := Happen(doc, allowed, sys, StreamFrame); a.wire.Down? && a.r == sys.r && Enabled(a, Deliver(1))
  {
    hide Inv, Payload, NextToSend;
  }

  /** Frames and RCPs still to come in a burst. */
  function ToCome(s: Sender): nat
    requires s.cursor <= s.frames
  {
    s.frames - s.cursor + s.rcpLeft
  }

  /** The burst's PPS is answered by an MCF. */
  lemma LastOn(doc: seq<Page>, allowed: seq<bool>, sys: System)
    requires UnderWay(doc, sys) && |allowed| == LADDER && sys.s.cursor <= sys.s.frames <= |sys.s.send|
    requires NextToSend(sys.s.send, sys.s.frames, sys.s.cursor) == sys.s.frames && sys.s.rcpLeft == 0
    ensures var b := SendOne(doc, allowed, sys);
            b.wire == Up(Mcf) && b.s == sys.s.(cursor := b.s.cursor, burst := b.s.burst, sub := SendPps, postRetries := 0)
  {
    hide Inv, Payload, AppendFrames;
    EventKeepsInv(doc, allowed, sys, StreamFrame);
    StillListening(doc, allowed, sys);
    var a := Happen(doc, allowed, sys, StreamFrame);
    EventKeepsInv(doc, allowed, a, Deliver(1));
    PendingNow(doc, sys);
    PendingNow(doc, a);
    assert forall j :: 0 <= j < sys.s.frames ==> sys.r.have[j].Some?;
  }

  /** A frame or RCP on. */
  lemma FrameOn(doc: seq<Page>, allowed: seq<bool>, sys: System)
    requires UnderWay(doc, sys) && |allowed| == LADDER && sys.s.cursor <= sys.s.frames <= |sys.s.send|
    requires NextToSend(sys.s.send, sys.s.frames, sys.s.cursor) < sys.s.frames || sys.s.rcpLeft > 0
    ensures var b := SendOne(doc, allowed, sys);
            && UnderWay(doc, b) && b.s.cursor <= b.s.frames && ToCome(b.s) < ToCome(sys.s)
            && b.s == sys.s.(cursor := b.s.cursor, burst := b.s.burst, rcpLeft := b.s.rcpLeft)
  {
    hide Inv, Payload, AppendFrames;
    EventKeepsInv(doc, allowed, sys, StreamFrame);
    StillListening(doc, allowed, sys);
    var a := Happen(doc, allowed, sys, StreamFrame);
    EventKeepsInv(doc, allowed, a, Deliver(1));
    PendingNow(doc, sys);
    var s := sys.s;
    var i := NextToSend(s.send, s.frames, s.cursor);
    var b := SendOne(doc, allowed, sys);
    forall j | 0 <= j < b.s.cursor && j < 256 ensures b.r.have[j].Some? {
      assert j < s.cursor || !s.send[j] || j == i;
    }
  }

  /** One frame on: either the burst goes on, shorter, or its PPS is answered by an MCF. */
  lemma OneFrameOn(doc: seq<Page>, allowed: seq<bool>, sys: System)
    requires UnderWay(doc, sys) && |allowed| == LADDER
    ensures sys.s.cursor <= sys.s.frames
    ensures var b := SendOne(doc, allowed, sys);
            if b.wire.Up? then b.wire.f.Mcf? && b.s == sys.s.(cursor := b.s.cursor, burst := b.s.burst, sub := SendPps, postRetries := 0)
            else UnderWay(doc, b) && b.s.cursor <= b.s.frames && ToCome(b.s) < ToCome(sys.s)
                 && b.s == sys.s.(cursor := b.s.cursor, burst := b.s.burst, rcpLeft := b.s.rcpLeft)
  {
    hide Inv, SendOne, NextToSend;
    PendingNow(doc, sys);
    var s := sys.s;
    if NextToSend(s.send, s.frames, s.cursor) == s.frames && s.rcpLeft == 0 {
      LastOn(doc, allowed, sys);
    } else {
      FrameOn(doc, allowed, sys);
    }
  }

  /** What the invariant says of the stations while a block is pending. */
  lemma PendingNow(doc: seq<Page>, sys: System)
    requires Inv(doc, sys) && (sys.s.sub.SendEcm? || (sys.s.sub.SendPps? && sys.wire.Down? && sys.r.sub.RecvEcm? && !Acked(sys.s, sys.r)))
    ensures 1 <= sys.s.frames <= 256 && sys.s.cursor <= sys.s.frames && |sys.s.send| == 256 && |sys.r.have| == 256
    ensures (sys.r.frames == -1 || sys.r.frames == sys.s.frames) && !Acked(sys.s, sys.r)
    ensures forall i :: 0 <= i < sys.s.frames && !sys.s.send[i] ==> sys.r.have[i].Some?
    ensures sys.s.sub.SendPps? && sys.wire.f.Pps? ==>
              sys.wire.f == PpsOf(sys.s) && (sys.r.frames == -1 ==> sys.wire.f.last + 1 == sys.s.frames)
  {
    hide Pads, Padded, HoldsFrames;
  }

  /** The rest of a burst on a line that loses nothing, up to the receiver's answer. */
  ghost function CleanBurst(doc: seq<Page>, allowed: seq<bool>, sys: System): System
    requires UnderWay(doc, sys) && |allowed| == LADDER
    decreases sys.s.frames + sys.s.rcpLeft - sys.s.cursor
  {
    OneFrameOn(doc, allowed, sys);
    var b := SendOne(doc, allowed, sys);
    if b.wire.Up? then b else CleanBurst(doc, allowed, b)
  }

  /** Whatever was lost before, one burst that loses nothing gets the block taken. */
  lemma {:induction false} CleanBurstIsTaken(doc: seq<Page>, allowed: seq<bool>, sys: System)
    requires UnderWay(doc, sys) && |allowed| == LADDER
    ensures var b := CleanBurst(doc, allowed, sys); b.wire == Up(Mcf) && b.s.page == sys.s.page && b.s.block == sys.s.block
    decreases sys.s.frames + sys.s.rcpLeft - sys.s.cursor
  {
    hide UnderWay, SendOne;
    OneFrameOn(doc, allowed, sys);
    var b := SendOne(doc, allowed, sys);
    if !b.wire.Up? { CleanBurstIsTaken(doc, allowed, b); }
  }

  /** Acknowledgements carry no block number: an MCF that the receiver did not send for the
      pending block, such as a delayed copy, moves the sender past data the receiver lacks, to
      the next block, to the next page, or to the end of the call.  Delivery therefore rests on
      the line carrying one frame at a time. */
  lemma StaleMcfLosesABlock(doc: seq<Page>, allowed: seq<bool>, s: Sender, r: Receiver, cap: nat)
    requires SenderOk(doc, s) && ReceiverOk(r) && PendingStations(doc, s, r) && |allowed| == LADDER && 1 <= cap <= 256
    requires s.sub.WaitPpsResponse?
    ensures var t := SenderOnFrame(doc, s, Mcf, cap, allowed).s;
            if !s.atPageEnd then t.page == s.page == |DonePages(r)| && t.base > |Current(r)|
            else if s.page + 1 < |doc| then t.page > |DonePages(r)|
            else t.sub.SendDcn? && DonePages(r) != Pads(doc)
  {
    hide BuildBlock, HoldsFrames, Pads;
    if !s.atPageEnd {
      BuiltInPlace(doc, s.(base := s.base + s.frames * OCTETS, block := s.block + 1), cap);
    } else if s.page + 1 < |doc| {
      var u := s.(page := s.page + 1, block := 0, base := 0, step := if s.page + 2 < |doc| then Mps else Eop);
      BuiltInPlace(doc, u, cap);
    }
  }

  lemma BuiltInPlace(doc: seq<Page>, u: Sender, cap: nat)
    requires u.page < |doc| && |u.send| == 256 && u.base <= |doc[u.page]| && 1 <= cap <= 256
    ensures var t := BuildBlock(doc[u.page], u, cap); t.page == u.page && t.base == u.base
  {
  }
}
