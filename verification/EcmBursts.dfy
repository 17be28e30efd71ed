/** What one burst puts on the line, and how a block that is given up ends (nf_t30.c:
    on_get_frame, ecm_send_pps, ecm_process_eor). */
module EcmBursts {
  import opened BitIo
  import opened EcmProtocol
  import opened EcmDelivery

  // ---------------------------------------------------------------- a burst

  /** All that streaming puts out from here on, and the sender then. */
  datatype Streamed = Streamed(frames: seq<Frame>, s: Sender)

  predicate Streaming(s: Sender) {
    s.cursor <= s.frames <= |s.send| && s.burst <= s.cursor
  }

  function Emitted(enc: Page, s: Sender): Streamed
    requires Streaming(s)
    decreases s.frames + s.rcpLeft - s.cursor
  {
    var t := GetFrame(enc, s);
    if t.out.None? then Streamed([], t.s)
    else
      var r := Emitted(enc, t.s);
      Streamed([t.out.value] + r.frames, r.s)
  }

  /** The frames marked for sending, by rising number. */
  function Marked(enc: Page, s: Sender, i: nat): seq<Frame>
    requires i <= s.frames <= |s.send|
    decreases s.frames - i
  {
    if i == s.frames then [] else (if s.send[i] then [Fcd(i, Payload(enc, s.base, i))] else []) + Marked(enc, s, i + 1)
  }

  function Rcps(n: nat): seq<Frame> {
    if n == 0 then [] else [Rcp] + Rcps(n - 1)
  }

  lemma NextMarked(enc: Page, s: Sender, i: nat)
    requires i < s.frames <= |s.send|
    ensures Marked(enc, s, i) == (if s.send[i] then [Fcd(i, Payload(enc, s.base, i))] else []) + Marked(enc, s, i + 1)
  {
  }

  lemma {:induction false} Skips(enc: Page, s: Sender, i: nat)
    requires i <= s.frames <= |s.send|
    ensures var j := NextToSend(s.send, s.frames, i);
            Marked(enc, s, i) == if j < s.frames then [Fcd(j, Payload(enc, s.base, j))] + Marked(enc, s, j + 1) else []
    decreases s.frames - i
  {
    hide Payload, Marked;
    if i == s.frames {
      NothingLeft(enc, s);
    } else {
      NextMarked(enc, s, i);
      if !s.send[i] { Skips(enc, s, i + 1); }
    }
  }

  lemma {:induction false} MarkedOnly(enc: Page, s: Sender, t: Sender, i: nat)
    requires i <= s.frames <= |s.send| && t.frames == s.frames && t.send == s.send && t.base == s.base
    ensures Marked(enc, s, i) == Marked(enc, t, i)
    decreases s.frames - i
  {
    hide Payload;
    if i < s.frames { MarkedOnly(enc, s, t, i + 1); }
  }

  /** What one call of on_get_frame does. */
  lemma OneOut(enc: Page, s: Sender)
    requires Streaming(s)
    ensures var i := NextToSend(s.send, s.frames, s.cursor); var t := GetFrame(enc, s);
            if i < s.frames then
              && t == Sent(s.(cursor := i + 1, burst := s.burst + 1), Some(Fcd(i, Payload(enc, s.base, i)))) && Streaming(t.s)
              && Emitted(enc, s) == Streamed([Fcd(i, Payload(enc, s.base, i))] + Emitted(enc, t.s).frames, Emitted(enc, t.s).s)
            else if s.rcpLeft > 0 then
              && t == Sent(s.(cursor := s.frames, rcpLeft := s.rcpLeft - 1), Some(Rcp)) && Streaming(t.s)
              && Emitted(enc, s) == Streamed([Rcp] + Emitted(enc, t.s).frames, Emitted(enc, t.s).s)
            else Emitted(enc, s) == Streamed([], s.(cursor := s.frames))
  {
    hide Payload, NextToSend;
  }

  lemma {:induction false} EmitsRest(enc: Page, s: Sender)
    requires Streaming(s)
    ensures var e := Emitted(enc, s); var m := Marked(enc, s, s.cursor);
            && e.frames == m + Rcps(s.rcpLeft)
            && e.s == s.(cursor := s.frames, burst := s.burst + |m|, rcpLeft := 0)
    decreases s.frames + s.rcpLeft - s.cursor
  {
    hide Payload, NextToSend, GetFrame, Emitted, Marked;
    Skips(enc, s, s.cursor);
    OneOut(enc, s);
    var t := GetFrame(enc, s);
    var i := NextToSend(s.send, s.frames, s.cursor);
    if i < s.frames {
      EmitsRest(enc, t.s);
      MarkedOnly(enc, s, t.s, i + 1);
      assert [Fcd(i, Payload(enc, s.base, i))] + (Marked(enc, s, i + 1) + Rcps(s.rcpLeft))
          == [Fcd(i, Payload(enc, s.base, i))] + Marked(enc, s, i + 1) + Rcps(s.rcpLeft);
    } else if s.rcpLeft > 0 {
      EmitsRest(enc, t.s);
      NothingLeft(enc, t.s);
      RcpFirst(s.rcpLeft);
    } else {
      assert Rcps(0) == [];
    }
  }

  lemma RcpFirst(n: nat)
    requires n > 0
    ensures [] + Rcps(n) == [Rcp] + ([] + Rcps(n - 1))
  {
  }

  lemma NothingLeft(enc: Page, s: Sender)
    requires s.frames <= |s.send|
    ensures Marked(enc, s, s.frames) == []
  {
  }

  /** A burst is the frames marked for sending, by rising number, and three RCPs; the PPS behind
      it names page, block and the number of those frames less one. */
  lemma BurstIs(enc: Page, s: Sender)
    requires s.frames <= |s.send|
    ensures var b := StartBurst(s); var e := Emitted(enc, b); var m := Marked(enc, s, 0);
            && e.frames == m + [Rcp, Rcp, Rcp]
            && SenderStepDone(e.s).out == Some(Pps(PostOf(s), s.page % 256, s.block % 256, if m == [] then 0 else (|m| - 1) % 256))
  {
    hide Payload;
    EmitsRest(enc, StartBurst(s));
    MarkedOnly(enc, s, StartBurst(s), 0);
    assert Rcps(3) == [Rcp] + ([Rcp] + ([Rcp] + [])) by { assert Rcps(2) == [Rcp] + Rcps(1); }
  }

  // ---------------------------------------------------------------- a block given up

  /** The frames of a block that came, in order. */
  function Came(enc: Page, s: Sender, r: Receiver, n: nat): seq<Byte>
    requires n <= |r.have|
  {
    if n == 0 then [] else Came(enc, s, r, n - 1) + if r.have[n - 1].Some? then Payload(enc, s.base, n - 1) else []
  }

  lemma {:induction false} AppendsWhatCame(enc: Page, s: Sender, r: Receiver, n: nat)
    requires n <= s.frames <= 256 && |r.have| == 256 && HoldsFrames(enc, s, r)
    requires s.base + 256 * n <= |Padded(enc)| <= MAX_PAGE
    ensures |Came(enc, s, r, n)| <= 256 * n
    ensures AppendFrames(Padded(enc)[..s.base], r.have, n) == Padded(enc)[..s.base] + Came(enc, s, r, n)
    decreases n
  {
    hide Padded, Payload;
    if n > 0 {
      AppendsWhatCame(enc, s, r, n - 1);
      if r.have[n - 1].Some? {
        Assoc(Padded(enc)[..s.base], Came(enc, s, r, n - 1), Payload(enc, s.base, n - 1));
      }
    } else {
      assert Padded(enc)[..s.base] + [] == Padded(enc)[..s.base];
    }
  }

  /** An EOR that arrives: the receiver's page is the blocks before and, if any PPS of this one
      came, those of its frames that came; it is answered by ERR. */
  lemma EorAnswered(doc: seq<Page>, sys: System)
    requires Inv(doc, sys) && sys.s.sub.SendEor? && sys.wire.Down? && Listening(sys.r) && !sys.r.sub.ReceiverDone?
    ensures sys.s.page < |doc| && sys.s.base <= |Padded(doc[sys.s.page])| && sys.s.frames <= |sys.r.have| == 256 && sys.wire.f.Eor?
    ensures var t := ReceiverOnFrame(sys.r, sys.wire.f);
            && t.out == Some(Err) && t.r.sub.SendErr?
            && t.r.buf == Padded(doc[sys.s.page])[..sys.s.base] + Came(doc[sys.s.page], sys.s, sys.r, if sys.r.frames < 0 then 0 else sys.s.frames)
  {
    EorArrives(doc, sys);
    var n := if sys.r.frames < 0 then 0 else sys.s.frames;
    AppendsWhatCame(doc[sys.s.page], sys.s, sys.r, n);
    hide Inv, AppendFrames, Came, Padded, HoldsFrames;
  }

  /** The answer arrives, and the sender disconnects with the transfer failed. */
  lemma EorEndsIt(doc: seq<Page>, allowed: seq<bool>, sys: System, cap: nat)
    requires Inv(doc, sys) && |allowed| == LADDER && 1 <= cap <= 256
    requires sys.s.sub.SendEor? && sys.wire.Down? && Listening(sys.r) && !sys.r.sub.ReceiverDone?
    ensures Runnable(doc, sys) && Enabled(sys, Deliver(cap))
    ensures var a := Happen(doc, allowed, sys, Deliver(cap));
            && a.wire == Up(Err) && Runnable(doc, a) && Enabled(a, SenderStep)
            && var b := Happen(doc, allowed, a, SenderStep);
            && Runnable(doc, b) && Enabled(b, Deliver(cap))
            && var c := Happen(doc, allowed, b, Deliver(cap));
            c.s.sub == SenderDone(false) && c.wire == Down(Dcn) && ReceiverStepDone(c.r).sub.WaitPps?
  {
    EorAnswered(doc, sys);
    EventKeepsInv(doc, allowed, sys, Deliver(cap));
    var a := Happen(doc, allowed, sys, Deliver(cap));
    InvIsRunnable(doc, a);
    EventKeepsInv(doc, allowed, a, SenderStep);
    InvIsRunnable(doc, Happen(doc, allowed, a, SenderStep));
    hide Inv, Came, Padded, Runnable, ReceiverOnFrame;
  }

  lemma EorArrives(doc: seq<Page>, sys: System)
    requires Inv(doc, sys) && sys.s.sub.SendEor? && sys.wire.Down? && Listening(sys.r) && !sys.r.sub.ReceiverDone?
    ensures sys.wire.f.Eor? && (sys.r.sub.RecvEcm? || sys.r.sub.WaitPps?) && |sys.r.have| == 256 && sys.s.frames <= 256
    ensures (sys.r.frames == -1 || sys.r.frames == sys.s.frames) && HoldsFrames(doc[sys.s.page], sys.s, sys.r)
    ensures sys.s.page < |doc| && sys.s.base + 256 * sys.s.frames <= |Padded(doc[sys.s.page])| <= MAX_PAGE
    ensures sys.r.buf == Padded(doc[sys.s.page])[..sys.s.base]
  {
    PaddedFits(|doc[sys.s.page]|);
    hide Pads, Payload, HoldsFrames;
  }
}
