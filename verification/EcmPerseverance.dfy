/** Perseverance of the error correction mode (nf_t30.c: on_timer, ecm_apply_ppr): how often a
    sender that hears nothing asks again, what so many losses cannot stop, and when it steps
    down. */
module EcmPerseverance {
  import opened EcmProtocol
  import opened EcmDelivery
  import opened EcmProgress

  // ---------------------------------------------------------------- asking again

  /** The sender hears nothing in the run. */
  ghost predicate Unheard(events: seq<Event>, run: seq<System>)
    requires |run| == |events| + 1
  {
    forall i :: 0 <= i < |events| && events[i].Deliver? ==> !run[i].wire.Up?
  }

  /** Event `i` puts a PPS, or a CTC, on the line. */
  ghost predicate Puts(events: seq<Event>, run: seq<System>, i: nat, ctc: bool)
    requires |run| == |events| + 1 && i < |events|
  {
    && (events[i].StreamFrame? || events[i].SenderTimer?)
    && run[i + 1].wire.Down? && if ctc then run[i + 1].wire.f.Ctc? else run[i + 1].wire.f.Pps?
  }

  /** How often in the first `n` events. */
  ghost function Times(events: seq<Event>, run: seq<System>, n: nat, ctc: bool): nat
    requires |run| == |events| + 1 && n <= |events|
  {
    if n == 0 then 0 else Times(events, run, n - 1, ctc) + if Puts(events, run, n - 1, ctc) then 1 else 0
  }

  /** What an unheard event does to a sender that is sending a block or asking about it. */
  lemma UnheardStep(doc: seq<Page>, allowed: seq<bool>, sys: System, e: Event)
    requires Runnable(doc, sys) && |allowed| == LADDER && Enabled(sys, e) && (e.Deliver? ==> !sys.wire.Up?)
    requires sys.s.sub.SendEcm? || Polling(sys.s) || sys.s.sub == SenderDone(false)
    ensures var t := Happen(doc, allowed, sys, e);
            var put := (e.StreamFrame? || e.SenderTimer?) && t.wire.Down? && t.wire.f.Pps?;
            && (sys.s.sub.SendEcm? ==> if put then t.s.sub.SendPps? && t.s.postRetries == 0 else t.s.sub.SendEcm?)
            && (Polling(sys.s) ==>
                  && PpsOf(t.s) == PpsOf(sys.s)
                  && if put then Polling(t.s) && t.s.postRetries == sys.s.postRetries + 1 <= 3
                     else (Polling(t.s) && t.s.postRetries == sys.s.postRetries)
                          || (t.s.sub == SenderDone(false) && sys.s.postRetries >= 3))
            && (sys.s.sub.SenderDone? ==> t.s == sys.s && !put)
            && (put ==> t.wire == Down(PpsOf(t.s)))
  {
    hide NextToSend, Payload;
  }

  /** A sender that hears nothing after its burst: the same PPS goes out four times in all
      before it gives up. */
  lemma {:induction false} PpsFourTimes(doc: seq<Page>, allowed: seq<bool>, start: System, events: seq<Event>, run: seq<System>, n: nat)
    requires |allowed| == LADDER && IsRun(doc, allowed, start, events, run) && Unheard(events, run) && n < |run|
    requires start.s.sub.SendEcm?
    ensures var s := run[n].s; var times := Times(events, run, n, false);
            && (s.sub.SendEcm? || Polling(s) || s.sub == SenderDone(false))
            && (s.sub.SendEcm? ==> times == 0)
            && (Polling(s) ==> times == s.postRetries + 1 <= 4)
            && (s.sub == SenderDone(false) ==> times == 4)
            && forall i :: 0 <= i < n && Puts(events, run, i, false) ==> run[i + 1].wire == Down(PpsOf(s))
  {
    hide Happen, Runnable, Enabled, PpsOf;
    if n > 0 {
      PpsFourTimes(doc, allowed, start, events, run, n - 1);
      UnheardStep(doc, allowed, run[n - 1], events[n - 1]);
      NonePut(events, run, n - 1);
    }
  }

  lemma {:induction false} NonePut(events: seq<Event>, run: seq<System>, n: nat)
    requires |run| == |events| + 1 && n <= |events|
    ensures Times(events, run, n, false) == 0 ==> forall i :: 0 <= i < n ==> !Puts(events, run, i, false)
  {
    hide Puts;
    if n > 0 { NonePut(events, run, n - 1); }
  }

  lemma UnheardCorrection(doc: seq<Page>, allowed: seq<bool>, sys: System, e: Event)
    requires Runnable(doc, sys) && |allowed| == LADDER && Enabled(sys, e) && (e.Deliver? ==> !sys.wire.Up?)
    requires Falling(sys.s) || sys.s.sub == SenderDone(false)
    ensures var t := Happen(doc, allowed, sys, e);
            var put := (e.StreamFrame? || e.SenderTimer?) && t.wire.Down? && t.wire.f.Ctc?;
            && t.s.fallback == sys.s.fallback
            && (Falling(sys.s) ==>
                  if put then Falling(t.s) && t.s.ctcRetries == sys.s.ctcRetries + 1 <= 3
                  else (Falling(t.s) && t.s.ctcRetries == sys.s.ctcRetries) || (t.s.sub == SenderDone(false) && sys.s.ctcRetries >= 3))
            && (sys.s.sub.SenderDone? ==> t.s == sys.s && !put)
            && (put ==> t.wire == Down(Ctc(Dcs(t.s.fallback))))
  {
  }

  /** The same with a CTC: behind the first it goes out three times more, for the same rate,
      before the sender gives up. */
  lemma {:induction false} CtcThreeTimesMore(doc: seq<Page>, allowed: seq<bool>, start: System, events: seq<Event>, run: seq<System>, n: nat)
    requires |allowed| == LADDER && IsRun(doc, allowed, start, events, run) && Unheard(events, run) && n < |run|
    requires start.s.sub.SendCtc? && start.s.ctcRetries == 0
    ensures var s := run[n].s; var times := Times(events, run, n, true);
            && (Falling(s) || s.sub == SenderDone(false)) && s.fallback == start.s.fallback
            && (Falling(s) ==> times == s.ctcRetries <= 3)
            && (s.sub == SenderDone(false) ==> times == 3)
            && forall i :: 0 <= i < n && Puts(events, run, i, true) ==>
                 start.s.fallback < LADDER && run[i + 1].wire == Down(Ctc(Dcs(start.s.fallback)))
  {
    hide Happen, Enabled;
    if n > 0 {
      CtcThreeTimesMore(doc, allowed, start, events, run, n - 1);
      UnheardCorrection(doc, allowed, run[n - 1], events[n - 1]);
    }
  }

  // ---------------------------------------------------------------- losses that do not stop a block

  /** A question or its answer gets lost. */
  datatype Loss = PpsLost | AnswerLost

  /** A receiver that listens has the whole block, accepted or not. */
  ghost predicate Ready(s: Sender, r: Receiver) {
    && (r.sub.RecvEcm? || r.sub.WaitPps? || r.sub.WaitDcn?)
    && (!Acked(s, r) ==> !r.sub.WaitDcn? && forall i :: 0 <= i < s.frames && i < |r.have| ==> r.have[i].Some?)
  }

  /** The PPS of a burst that has arrived is on the line. */
  ghost predicate Asked(doc: seq<Page>, sys: System, tries: nat) {
    && Inv(doc, sys) && sys.s.sub.SendPps? && sys.s.postRetries == tries && sys.wire == Down(PpsOf(sys.s)) && Ready(sys.s, sys.r)
  }

  /** It was, and there is no answer. */
  ghost predicate Unanswered(doc: seq<Page>, sys: System, tries: nat) {
    && Inv(doc, sys) && sys.s.sub.SendPps? && sys.s.postRetries == tries && sys.wire.Quiet? && Ready(sys.s, sys.r)
  }

  /** The receiver has the sender's block and says so. */
  ghost predicate Answered(doc: seq<Page>, sys: System) {
    && Inv(doc, sys) && sys.s.sub.SendPps? && sys.wire == Up(Mcf)
    && (sys.r.sub.SendMcf? || sys.r.sub.Reack?)
    && AcceptedStations(doc, sys.s, sys.r)
  }

  lemma AskedIsRunnable(doc: seq<Page>, sys: System, tries: nat)
    requires Asked(doc, sys, tries)
    ensures Runnable(doc, sys) && sys.wire.f.Pps? && |sys.r.have| == 256 && sys.s.fallback < LADDER
  {
    hide Pads, Padded, Acked, PendingStations, AcceptedStations;
  }

  /** A PPS that arrives is answered by an MCF. */
  lemma PpsAnswered(doc: seq<Page>, allowed: seq<bool>, sys: System, tries: nat)
    requires Asked(doc, sys, tries) && |allowed| == LADDER && Runnable(doc, sys)
    ensures var t := Happen(doc, allowed, sys, Deliver(1)); t.s == sys.s && Answered(doc, t)
  {
    EventKeepsInv(doc, allowed, sys, Deliver(1));
    AnswerIsMcf(doc, allowed, sys, tries);
    var t := Happen(doc, allowed, sys, Deliver(1));
    hide Happen, Asked, Enabled, Runnable, Pads, Padded;
    McfMeansAccepted(doc, t);
  }

  lemma AnswerIsMcf(doc: seq<Page>, allowed: seq<bool>, sys: System, tries: nat)
    requires Asked(doc, sys, tries) && |allowed| == LADDER && Runnable(doc, sys)
    ensures var t := Happen(doc, allowed, sys, Deliver(1)); t.s == sys.s && t.wire == Up(Mcf) && (t.r.sub.SendMcf? || t.r.sub.Reack?)
  {
    hide Inv, AppendFrames;
    AskedSays(doc, sys, tries);
  }

  /** What the invariant adds for a question under way. */
  lemma AskedSays(doc: seq<Page>, sys: System, tries: nat)
    requires Asked(doc, sys, tries)
    ensures sys.wire.f.Pps? && sys.wire.f.page == sys.s.page % 256 && sys.wire.f.block == sys.s.block % 256
    ensures |sys.r.have| == 256 && sys.s.frames <= 256
    ensures !Acked(sys.s, sys.r) ==> if sys.r.frames < 0 then sys.wire.f.last + 1 == sys.s.frames else sys.r.frames == sys.s.frames
  {
    hide Pads, Padded, HoldsFrames;
  }

  lemma McfMeansAccepted(doc: seq<Page>, sys: System)
    requires Inv(doc, sys) && sys.s.sub.SendPps? && sys.wire == Up(Mcf)
    ensures AcceptedStations(doc, sys.s, sys.r)
  {
    hide Pads, Padded, HoldsFrames, AcceptedStations, PendingStations;
  }

  /** These events lead from one state to the other. */
  ghost predicate Takes(doc: seq<Page>, allowed: seq<bool>, a: System, events: seq<Event>, b: System)
    requires |allowed| == LADDER
  {
    exists run :: IsRun(doc, allowed, a, events, run) && run[|events|] == b
  }

  lemma TakesNone(doc: seq<Page>, allowed: seq<bool>, a: System)
    requires |allowed| == LADDER
    ensures Takes(doc, allowed, a, [], a)
  {
    hide Happen, Enabled, Runnable;
    assert IsRun(doc, allowed, a, [], [a]);
  }

  lemma TakesOne(doc: seq<Page>, allowed: seq<bool>, a: System, events: seq<Event>, b: System, e: Event)
    requires |allowed| == LADDER && Takes(doc, allowed, a, events, b) && Runnable(doc, b) && Enabled(b, e)
    ensures Takes(doc, allowed, a, events + [e], Happen(doc, allowed, b, e))
  {
    hide Happen, Enabled, Runnable;
    var run :| IsRun(doc, allowed, a, events, run) && run[|events|] == b;
    var c := Happen(doc, allowed, b, e);
    assert IsRun(doc, allowed, a, events + [e], run + [c]);
    assert (run + [c])[|events + [e]|] == c;
  }

  /** One event, the invariant kept. */
  lemma Goes(doc: seq<Page>, allowed: seq<bool>, a: System, events: seq<Event>, b: System, e: Event)
    requires |allowed| == LADDER && Takes(doc, allowed, a, events, b) && Inv(doc, b) && Enabled(b, e)
    ensures Runnable(doc, b) && Inv(doc, Happen(doc, allowed, b, e)) && Takes(doc, allowed, a, events + [e], Happen(doc, allowed, b, e))
  {
    hide Takes, Inv, Happen, Enabled, Runnable;
    EventKeepsInv(doc, allowed, b, e);
    TakesOne(doc, allowed, a, events, b, e);
  }

  lemma InvBounds(doc: seq<Page>, sys: System)
    requires Inv(doc, sys)
    ensures Able(doc, sys.s) && |sys.r.have| == 256 && sys.r.frames <= 256
  {
    hide PendingStations, AcceptedStations;
  }

  /** After the time of an answer the same question goes out again. */
  lemma AsksAgain(doc: seq<Page>, allowed: seq<bool>, a: System, events: seq<Event>, b: System, tries: nat) returns (c: System)
    requires |allowed| == LADDER && Takes(doc, allowed, a, events, b) && Unanswered(doc, b, tries) && tries < 3
    ensures c.s == b.s.(postRetries := tries + 1) && Asked(doc, c, tries + 1)
    ensures Takes(doc, allowed, a, events + [SenderStep, SenderTimer], c)
  {
    hide Takes, Inv, Acked;
    InvBounds(doc, b);
    Goes(doc, allowed, a, events, b, SenderStep);
    var w := Happen(doc, allowed, b, SenderStep);
    assert w == b.(s := b.s.(sub := WaitPpsResponse));
    InvBounds(doc, w);
    Goes(doc, allowed, a, events + [SenderStep], w, SenderTimer);
    c := Happen(doc, allowed, w, SenderTimer);
    ReadyStays(b.s, c.s, b.r);
    assert events + [SenderStep] + [SenderTimer] == events + [SenderStep, SenderTimer];
  }

  lemma ReadyStays(s: Sender, t: Sender, r: Receiver)
    requires Ready(s, r) && t == s.(postRetries := t.postRetries, sub := t.sub)
    ensures Ready(t, r)
  {
  }

  function LossEvents(l: Loss): seq<Event> {
    (match l case PpsLost => [Lose] case AnswerLost => [Deliver(1), ReceiverStep, Lose]) + [SenderStep, SenderTimer]
  }

  lemma QuestionLost(doc: seq<Page>, allowed: seq<bool>, a: System, events: seq<Event>, b: System, tries: nat) returns (c: System)
    requires |allowed| == LADDER && Takes(doc, allowed, a, events, b) && Asked(doc, b, tries)
    ensures c.s == b.s && Unanswered(doc, c, tries) && Takes(doc, allowed, a, events + [Lose], c)
  {
    hide Takes, Inv, Ready;
    InvBounds(doc, b);
    Goes(doc, allowed, a, events, b, Lose);
    c := Happen(doc, allowed, b, Lose);
  }

  lemma AcceptedListens(doc: seq<Page>, sys: System)
    requires Answered(doc, sys)
    ensures Ready(sys.s, ReceiverStepDone(sys.r))
  {
    hide Pads, Padded;
  }

  /** The question arrives and is answered. */
  lemma GetsAnswered(doc: seq<Page>, allowed: seq<bool>, a: System, events: seq<Event>, b: System, tries: nat) returns (m: System)
    requires |allowed| == LADDER && Takes(doc, allowed, a, events, b) && Asked(doc, b, tries)
    ensures m.s == b.s && Answered(doc, m) && Takes(doc, allowed, a, events + [Deliver(1)], m)
  {
    AskedIsRunnable(doc, b, tries);
    AskedListens(doc, b, tries);
    hide Takes, Inv, Asked, Answered, Happen, Enabled, Runnable;
    PpsAnswered(doc, allowed, b, tries);
    Goes(doc, allowed, a, events, b, Deliver(1));
    m := Happen(doc, allowed, b, Deliver(1));
  }

  /** Events at one end only. */
  lemma AtOneEnd(doc: seq<Page>, allowed: seq<bool>, sys: System)
    requires Runnable(doc, sys) && |allowed| == LADDER
    ensures Happen(doc, allowed, sys, ReceiverStep) == sys.(r := ReceiverStepDone(sys.r))
    ensures Happen(doc, allowed, sys, Lose) == sys.(wire := Quiet)
    ensures !sys.s.sub.SendEcm? ==> Happen(doc, allowed, sys, SenderStep) == sys.(s := SenderStepDone(sys.s).s)
    ensures Enabled(sys, ReceiverStep) && Enabled(sys, Lose) && (!sys.s.sub.SendEcm? ==> Enabled(sys, SenderStep))
  {
  }

  lemma AnswerGetsLost(doc: seq<Page>, allowed: seq<bool>, a: System, events: seq<Event>, b: System, tries: nat) returns (c: System)
    requires |allowed| == LADDER && Takes(doc, allowed, a, events, b) && Asked(doc, b, tries)
    ensures c.s == b.s && Unanswered(doc, c, tries) && Takes(doc, allowed, a, events + [Deliver(1), ReceiverStep, Lose], c)
  {
    AskedTries(doc, b, tries);
    hide Takes, Inv, Ready, AcceptedStations, Asked, Happen, Enabled, Runnable, ReceiverStepDone;
    var m := GetsAnswered(doc, allowed, a, events, b, tries);
    AcceptedListens(doc, m);
    InvIsRunnable(doc, m);
    AtOneEnd(doc, allowed, m);
    Goes(doc, allowed, a, events + [Deliver(1)], m, ReceiverStep);
    var l := m.(r := ReceiverStepDone(m.r));
    InvIsRunnable(doc, l);
    AtOneEnd(doc, allowed, l);
    Goes(doc, allowed, a, events + [Deliver(1)] + [ReceiverStep], l, Lose);
    c := l.(wire := Quiet);
    assert events + [Deliver(1)] + [ReceiverStep] + [Lose] == events + [Deliver(1), ReceiverStep, Lose];
  }

  lemma AskedTries(doc: seq<Page>, sys: System, tries: nat)
    requires Asked(doc, sys, tries)
    ensures sys.s.sub.SendPps? && sys.s.postRetries == tries
  {
    hide Inv, Ready;
  }

  lemma AskedListens(doc: seq<Page>, sys: System, tries: nat)
    requires Asked(doc, sys, tries)
    ensures Inv(doc, sys) && Enabled(sys, Deliver(1))
  {
    hide Inv, Acked;
  }

  lemma OneLoss(doc: seq<Page>, allowed: seq<bool>, a: System, events: seq<Event>, b: System, tries: nat, l: Loss) returns (c: System)
    requires |allowed| == LADDER && Takes(doc, allowed, a, events, b) && Asked(doc, b, tries) && tries < 3
    ensures c.s == b.s.(postRetries := tries + 1) && Asked(doc, c, tries + 1) && Takes(doc, allowed, a, events + LossEvents(l), c)
  {
    hide Takes, Asked, Unanswered;
    var u;
    match l {
      case PpsLost =>
        u := QuestionLost(doc, allowed, a, events, b, tries);
        c := AsksAgain(doc, allowed, a, events + [Lose], u, tries);
        assert events + [Lose] + [SenderStep, SenderTimer] == events + LossEvents(l);
      case AnswerLost =>
        u := AnswerGetsLost(doc, allowed, a, events, b, tries);
        c := AsksAgain(doc, allowed, a, events + [Deliver(1), ReceiverStep, Lose], u, tries);
        assert events + [Deliver(1), ReceiverStep, Lose] + [SenderStep, SenderTimer] == events + LossEvents(l);
    }
  }

  /** The sender has moved past the block of `s`, and the receiver has it. */
  ghost predicate PastBlock(doc: seq<Page>, s: Sender, t: System) {
    s.page < |doc| &&
    if !s.atPageEnd then
      && t.s.sub.SendEcm? && t.s.page == s.page && t.s.base == s.base + 256 * s.frames
      && DonePages(t.r) == Pads(doc)[..s.page]
      && s.base + 256 * s.frames <= |Padded(doc[s.page])| && Current(t.r) == Padded(doc[s.page])[..s.base + 256 * s.frames]
    else if s.page + 1 < |doc| then
      t.s.sub.SendEcm? && t.s.page == s.page + 1 && t.s.base == 0 && DonePages(t.r) == Pads(doc)[..s.page + 1]
    else t.s.sub.SendDcn? && DonePages(t.r) == Pads(doc)
  }

  lemma AnswerMovesOn(doc: seq<Page>, allowed: seq<bool>, w: System, cap: nat)
    requires Inv(doc, w) && w.s.sub.WaitPpsResponse? && w.wire == Up(Mcf) && AcceptedStations(doc, w.s, w.r) && Runnable(doc, w)
    requires |allowed| == LADDER && 1 <= cap <= 256
    ensures PastBlock(doc, w.s, Happen(doc, allowed, w, Deliver(cap)))
  {
    hide BuildBlock;
    var s := w.s;
    if !s.atPageEnd {
      Built(doc, s.(base := s.base + s.frames * OCTETS, block := s.block + 1), cap);
    } else if s.page + 1 < |doc| {
      Built(doc, s.(page := s.page + 1, block := 0, base := 0, step := if s.page + 2 < |doc| then Mps else Eop), cap);
    }
  }

  lemma Built(doc: seq<Page>, u: Sender, cap: nat)
    requires u.page < |doc| && |u.send| == 256 && u.base <= |doc[u.page]| && 1 <= cap <= 256
    ensures var t := BuildBlock(doc[u.page], u, cap); t.page == u.page && t.base == u.base
  {
  }

  lemma GetsThrough(doc: seq<Page>, allowed: seq<bool>, a: System, events: seq<Event>, b: System, tries: nat, cap: nat) returns (c: System)
    requires |allowed| == LADDER && Takes(doc, allowed, a, events, b) && Asked(doc, b, tries) && 1 <= cap <= 256
    ensures PastBlock(doc, b.s, c) && Inv(doc, c) && Takes(doc, allowed, a, events + [Deliver(1), SenderStep, Deliver(cap)], c)
  {
    hide Takes, Inv, Ready, AcceptedStations, Asked, Happen, Enabled, Runnable, PastBlock;
    var m := GetsAnswered(doc, allowed, a, events, b, tries);
    InvIsRunnable(doc, m);
    AtOneEnd(doc, allowed, m);
    Goes(doc, allowed, a, events + [Deliver(1)], m, SenderStep);
    var w := m.(s := m.s.(sub := WaitPpsResponse));
    assert SenderStepDone(m.s).s == w.s;
    InvIsRunnable(doc, w);
    StationsOk(doc, w);
    AcceptedStays(doc, m.s, w.s, m.r);
    HearsAnswer(w, cap);
    Goes(doc, allowed, a, events + [Deliver(1)] + [SenderStep], w, Deliver(cap));
    c := Happen(doc, allowed, w, Deliver(cap));
    AnswerMovesOn(doc, allowed, w, cap);
    SamePast(doc, b.s, w.s, c);
    assert events + [Deliver(1)] + [SenderStep] + [Deliver(cap)] == events + [Deliver(1), SenderStep, Deliver(cap)];
  }

  lemma HearsAnswer(w: System, cap: nat)
    requires w.s.sub.WaitPpsResponse? && w.wire == Up(Mcf) && 1 <= cap <= 256
    ensures Enabled(w, Deliver(cap))
  {
  }

  lemma StationsOk(doc: seq<Page>, sys: System)
    requires Inv(doc, sys)
    ensures SenderOk(doc, sys.s) && ReceiverOk(sys.r)
  {
    hide SenderOk, PendingStations, AcceptedStations;
  }

  lemma AcceptedStays(doc: seq<Page>, s: Sender, t: Sender, r: Receiver)
    requires SenderOk(doc, s) && ReceiverOk(r) && AcceptedStations(doc, s, r)
    requires s.sub.SendPps? && t == s.(sub := WaitPpsResponse) && SenderOk(doc, t)
    ensures AcceptedStations(doc, t, r)
  {
    hide SenderOk, Pads, Padded;
  }

  lemma SamePast(doc: seq<Page>, s: Sender, t: Sender, c: System)
    requires PastBlock(doc, t, c) && t == s.(sub := t.sub)
    ensures PastBlock(doc, s, c)
  {
  }

  function AllLossEvents(ls: seq<Loss>): seq<Event> {
    if ls == [] then [] else LossEvents(ls[0]) + AllLossEvents(ls[1..])
  }

  lemma {:induction false} LossesSurvived(doc: seq<Page>, allowed: seq<bool>, a: System, events: seq<Event>, b: System, tries: nat,
                                          ls: seq<Loss>, cap: nat) returns (c: System)
    requires |allowed| == LADDER && Takes(doc, allowed, a, events, b) && Asked(doc, b, tries) && tries + |ls| <= 3 && 1 <= cap <= 256
    ensures PastBlock(doc, b.s, c) && Inv(doc, c)
    ensures Takes(doc, allowed, a, events + AllLossEvents(ls) + [Deliver(1), SenderStep, Deliver(cap)], c)
    decreases |ls|
  {
    hide Takes, Asked, Inv, LossEvents;
    if ls == [] {
      c := GetsThrough(doc, allowed, a, events, b, tries, cap);
      assert events + AllLossEvents(ls) == events;
    } else {
      var l := OneLoss(doc, allowed, a, events, b, tries, ls[0]);
      c := LossesSurvived(doc, allowed, a, events + LossEvents(ls[0]), l, tries + 1, ls[1..], cap);
      SamePastTried(doc, b.s, l.s, c);
      assert events + LossEvents(ls[0]) + AllLossEvents(ls[1..]) == events + AllLossEvents(ls);
    }
  }

  lemma SamePastTried(doc: seq<Page>, s: Sender, t: Sender, c: System)
    requires PastBlock(doc, t, c) && t == s.(postRetries := t.postRetries)
    ensures PastBlock(doc, s, c)
  {
  }

  /** `n` frames and RCPs that are sent and arrive. */
  function FrameEvents(n: nat): seq<Event> {
    if n == 0 then [] else FrameEvents(n - 1) + [StreamFrame, Deliver(1)]
  }

  lemma FrameEventsFirst(n: nat)
    requires n > 0
    ensures FrameEvents(n) == [StreamFrame, Deliver(1)] + FrameEvents(n - 1)
  {
    if n > 1 {
      FrameEventsFirst(n - 1);
      var e: seq<Event> := [StreamFrame, Deliver(1)];
      assert (e + FrameEvents(n - 2)) + e == e + (FrameEvents(n - 2) + e);
    }
  }

  /** The last frame is out: the PPS follows. */
  lemma BurstEnds(doc: seq<Page>, allowed: seq<bool>, a: System, events: seq<Event>, b: System) returns (c: System)
    requires |allowed| == LADDER && Takes(doc, allowed, a, events, b) && UnderWay(doc, b) && b.s.cursor <= b.s.frames <= |b.s.send|
    requires NextToSend(b.s.send, b.s.frames, b.s.cursor) == b.s.frames && b.s.rcpLeft == 0
    ensures Asked(doc, c, 0) && c.s == b.s.(cursor := c.s.cursor, sub := SendPps, postRetries := 0)
    ensures Takes(doc, allowed, a, events + [StreamFrame], c)
  {
    hide Takes, Payload;
    PendingNow(doc, b);
    Goes(doc, allowed, a, events, b, StreamFrame);
    hide Inv;
    c := Happen(doc, allowed, b, StreamFrame);
    assert forall j :: 0 <= j < b.s.frames ==> b.r.have[j].Some?;
  }

  lemma OneMoreFrame(doc: seq<Page>, allowed: seq<bool>, a: System, events: seq<Event>, b: System) returns (c: System)
    requires |allowed| == LADDER && Takes(doc, allowed, a, events, b) && UnderWay(doc, b) && b.s.cursor <= b.s.frames <= |b.s.send|
    requires NextToSend(b.s.send, b.s.frames, b.s.cursor) < b.s.frames || b.s.rcpLeft > 0
    ensures UnderWay(doc, c) && c.s.cursor <= c.s.frames && ToCome(c.s) < ToCome(b.s)
    ensures c.s == b.s.(cursor := c.s.cursor, burst := c.s.burst, rcpLeft := c.s.rcpLeft)
    ensures Takes(doc, allowed, a, events + [StreamFrame, Deliver(1)], c)
  {
    FrameOn(doc, allowed, b);
    UnderWayMeans(doc, b);
    hide Takes, Inv, Happen, Runnable;
    Goes(doc, allowed, a, events, b, StreamFrame);
    StillListening(doc, allowed, b);
    var m := Happen(doc, allowed, b, StreamFrame);
    Goes(doc, allowed, a, events + [StreamFrame], m, Deliver(1));
    c := SendOne(doc, allowed, b);
    assert events + [StreamFrame] + [Deliver(1)] == events + [StreamFrame, Deliver(1)];
  }

  lemma UnderWayMeans(doc: seq<Page>, sys: System)
    requires UnderWay(doc, sys)
    ensures Inv(doc, sys) && Enabled(sys, StreamFrame) && 1 <= sys.s.frames <= |sys.s.send| && sys.s.cursor <= sys.s.frames
  {
    PendingNow(doc, sys);
    hide Inv;
  }

  /** Two senders at the same block. */
  predicate SameBlock(s: Sender, t: Sender) {
    t.page == s.page && t.base == s.base && t.frames == s.frames && t.atPageEnd == s.atPageEnd && t.block == s.block
  }

  lemma MoreFrames(events: seq<Event>, k: nat)
    ensures events + [StreamFrame, Deliver(1)] + (FrameEvents(k) + [StreamFrame]) == events + (FrameEvents(k + 1) + [StreamFrame])
  {
    FrameEventsFirst(k + 1);
  }

  /** A burst that arrives leads to its question. */
  lemma {:induction false} BurstArrives(doc: seq<Page>, allowed: seq<bool>, a: System, events: seq<Event>, b: System) returns (c: System, n: nat)
    requires |allowed| == LADDER && Takes(doc, allowed, a, events, b) && UnderWay(doc, b)
    ensures Asked(doc, c, 0) && SameBlock(b.s, c.s)
    ensures Takes(doc, allowed, a, events + (FrameEvents(n) + [StreamFrame]), c)
    decreases b.s.frames + b.s.rcpLeft - b.s.cursor
  {
    hide Takes, UnderWay, Asked, NextToSend, SameBlock;
    UnderWayMeans(doc, b);
    if NextToSend(b.s.send, b.s.frames, b.s.cursor) == b.s.frames && b.s.rcpLeft == 0 {
      c := BurstEnds(doc, allowed, a, events, b);
      n := 0;
      assert FrameEvents(0) + [StreamFrame] == [StreamFrame];
      hide *;
      SentStill(b.s, c.s);
    } else {
      var m := OneMoreFrame(doc, allowed, a, events, b);
      var k;
      c, k := BurstArrives(doc, allowed, a, events + [StreamFrame, Deliver(1)], m);
      n := k + 1;
      MoreFrames(events, k);
      hide *;
      SentStill(b.s, m.s);
      SameBlockOn(b.s, m.s, c.s);
    }
  }

  lemma SentStill(s: Sender, t: Sender)
    requires t == s.(cursor := t.cursor, burst := t.burst, rcpLeft := t.rcpLeft, sub := t.sub, postRetries := t.postRetries)
    ensures SameBlock(s, t)
  {
  }

  lemma SameBlockOn(s: Sender, t: Sender, u: Sender)
    requires SameBlock(s, t) && SameBlock(t, u)
    ensures SameBlock(s, u)
  {
  }

  /** Perseverance: a block whose burst arrives gets through although up to three questions or
      answers are lost.  The events are these: the frames, each lost round, and the round that
      succeeds. */
  lemma BlockGetsThrough(doc: seq<Page>, allowed: seq<bool>, sys: System, ls: seq<Loss>, cap: nat) returns (c: System, n: nat)
    requires |allowed| == LADDER && UnderWay(doc, sys) && |ls| <= 3 && 1 <= cap <= 256
    ensures PastBlock(doc, sys.s, c) && Inv(doc, c)
    ensures Takes(doc, allowed, sys, FrameEvents(n) + [StreamFrame] + AllLossEvents(ls) + [Deliver(1), SenderStep, Deliver(cap)], c)
  {
    hide Takes, UnderWay, Asked, Inv, LossEvents;
    TakesNone(doc, allowed, sys);
    var b;
    b, n := BurstArrives(doc, allowed, sys, [], sys);
    assert [] + (FrameEvents(n) + [StreamFrame]) == FrameEvents(n) + [StreamFrame];
    c := LossesSurvived(doc, allowed, sys, FrameEvents(n) + [StreamFrame], b, 0, ls, cap);
    SamePlace(doc, sys.s, b.s, c);
  }

  lemma SamePlace(doc: seq<Page>, s: Sender, t: Sender, c: System)
    requires PastBlock(doc, t, c) && SameBlock(s, t)
    ensures PastBlock(doc, s, c)
  {
  }

  // ---------------------------------------------------------------- stepping down

  lemma {:induction false} FirstAllowed(allowed: seq<bool>, i: nat)
    requires |allowed| == LADDER
    ensures var r := NextAllowed(allowed, i); r >= 0 ==> forall j :: i <= j < r ==> !allowed[j]
    decreases LADDER - i
  {
    if i < LADDER && !allowed[i] { FirstAllowed(allowed, i + 1); }
  }

  /** What a PPR makes of the sender, by how many came before it: below the fourth (below the
      seventeenth over V.34) the burst is repeated at the same rate; the fourth asks for the
      next slower rate allowed, or gives the block up only if there is none. */
  lemma PprStepsDown(doc: seq<Page>, s: Sender, missing: seq<bool>, cap: nat, allowed: seq<bool>)
    requires Able(doc, s) && 1 <= cap <= 256 && |allowed| == LADDER && s.sub.WaitPpsResponse?
    ensures var t := SenderOnFrame(doc, s, Ppr(missing), cap, allowed);
            && t.s.page == s.page && t.s.base == s.base && t.s.block == s.block && t.s.frames == s.frames
            && if s.v34 then
                 if s.pprCount < 16 then t.s.sub.SendEcm? && t.s.cursor == 0 && t.s.fallback == s.fallback && t.s.pprCount == s.pprCount + 1
                 else t.out == Some(Dcn) && t.s.sub == SenderDone(false)
               else if s.pprCount < 3 then
                 t.s.sub.SendEcm? && t.s.cursor == 0 && t.s.fallback == s.fallback && t.s.pprCount == s.pprCount + 1
               else if exists j :: s.fallback < j < LADDER && allowed[j] then
                 && s.fallback < t.s.fallback && allowed[t.s.fallback] && (forall j :: s.fallback < j < t.s.fallback ==> !allowed[j])
                 && t.out == Some(Ctc(Dcs(t.s.fallback))) && t.s.pprCount == 0 && t.s.ctcRetries == 0
               else t.out == Some(Eor(PostOf(s))) && t.s.fallback == s.fallback
  {
    FirstAllowed(allowed, s.fallback + 1);
  }

  /** Any other event leaves the rate alone and gives nothing up. */
  lemma OnlyPprStepsDown(doc: seq<Page>, allowed: seq<bool>, sys: System, e: Event)
    requires Runnable(doc, sys) && |allowed| == LADDER && Enabled(sys, e)
    requires !(e.Deliver? && sys.wire.Up? && sys.wire.f.Ppr? && sys.s.sub.WaitPpsResponse?)
    ensures var t := Happen(doc, allowed, sys, e).s; t.fallback == sys.s.fallback && (t.sub.SendEor? ==> sys.s.sub.SendEor?)
  {
    hide Payload, NextToSend;
  }

  // ---------------------------------------------------------------- what counts as an answer

  /** A waiting sender is moved by the answers it waits for and by nothing else. */
  lemma OnlyAnswersCount(doc: seq<Page>, s: Sender, f: Frame, cap: nat, allowed: seq<bool>)
    requires Able(doc, s) && 1 <= cap <= 256 && |allowed| == LADDER
    ensures var t := SenderOnFrame(doc, s, f, cap, allowed);
            (t.s.sub != s.sub || t.out.Some?) <==>
              || (s.sub.WaitPpsResponse? && (f.Mcf? || f.Ppr? || f.Rnr?))
              || (s.sub.WaitCtr? && f.Ctr?)
              || (s.sub.WaitEor? && f.Err?)
    ensures !(s.sub.WaitPpsResponse? || s.sub.WaitCtr? || s.sub.WaitEor?) ==> SenderOnFrame(doc, s, f, cap, allowed) == Sent(s, None)
  {
    hide BuildBlock, NextAllowed, ApplyPpr;
  }

  /** A receiver left alone ends: what it is sending is sent, its time runs out, and it
      disconnects; pages written stay, and nothing is added to them. */
  lemma LeftAloneReceiverEnds(r: Receiver)
    requires !r.sub.SendDis? && !(r.sub.SendMcf? && r.lastPost.Eom?)
    ensures var q := ReceiverStepDone(r); var t := ReceiverOnTimer(q);
            && t.r.sub.ReceiverDone? && (t.out == if r.sub.ReceiverDone? then None else Some(Dcn))
            && t.r.finished == (if r.sub.SendMcf? && !r.lastPost.Null? then r.finished + [r.buf] else r.finished)
  {
  }
}
