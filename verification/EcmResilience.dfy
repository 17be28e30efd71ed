/** How much loss the error correction mode bears (nf_t30.c: on_timer, ecm_apply_ppr): over
    every run, a block is given up or the rate lowered only after four frames of it were lost. */
module EcmResilience {
  import opened EcmProtocol
  import opened EcmDelivery

  /** A receiver that does not lose patience, on a line whose carrier drops between a burst and
      the command behind it. */
  ghost predicate Calm(events: seq<Event>, run: seq<System>)
    requires |run| == |events| + 1
  {
    forall i :: 0 <= i < |events| ==> CalmEvent(run[i], events[i])
  }

  ghost predicate CalmEvent(sys: System, e: Event) {
    !e.ReceiverTimer? && (e.CarrierDown? ==> sys.wire.Down? && sys.wire.f.Pps?)
  }

  predicate SamePlace(a: System, b: System) {
    a.s.page == b.s.page && a.s.base == b.s.base
  }

  /** Frames lost since the sender came to the block it is at. */
  ghost function Losses(events: seq<Event>, run: seq<System>, n: nat): nat
    requires |run| == |events| + 1 && n <= |events|
  {
    if n == 0 then 0
    else if !SamePlace(run[n - 1], run[n]) then 0
    else Losses(events, run, n - 1) + LossOf(run[n - 1], events[n - 1])
  }

  ghost function LossOf(sys: System, e: Event): nat {
    if e.Lose? && !sys.wire.Quiet? then 1 else 0
  }

  /** The receiver lacks a frame that has been sent in this burst and is not under way. */
  ghost predicate Gap(sys: System)
    requires |sys.r.have| == 256
  {
    && !Acked(sys.s, sys.r)
    && exists i :: 0 <= i < 256 && sys.r.have[i].None? && Due(sys, i)
  }

  ghost predicate Due(sys: System, i: nat) {
    if sys.s.sub.SendEcm? then i < sys.s.cursor && !(sys.wire.Down? && sys.wire.f.Fcd? && sys.wire.f.no == i)
    else i < sys.s.frames
  }

  /** Every refusal and every repetition is paid for by a loss. */
  ghost predicate Paid(doc: seq<Page>, sys: System, lost: nat) {
    && Inv(doc, sys)
    && (sys.r.sub.ReceiverDone? ==> sys.s.sub.SendDcn? || sys.s.sub.SenderDone?)
    && (sys.r.sub.WaitPps? ==> !sys.s.sub.SendEcm? && !Falling(sys.s) && (Polling(sys.s) ==> !sys.wire.Up?))
    && (sys.s.sub.SendEcm? || Polling(sys.s) ==> sys.s.pprCount + (if Gap(sys) then 1 else 0) <= lost)
    && (Polling(sys.s) ==> sys.s.postRetries + (if sys.wire.Quiet? then 1 else 0) <= lost)
    && (Polling(sys.s) && sys.wire.Up? && sys.wire.f.Ppr? ==> Gap(sys))
    && (Falling(sys.s) ==> sys.s.pprCount == 0)
    && (Falling(sys.s) || GivingUp(sys.s) || sys.s.sub == SenderDone(false) ==> lost >= 4)
  }

  lemma Bounds(doc: seq<Page>, sys: System)
    requires Inv(doc, sys)
    ensures |sys.r.have| == 256 && sys.s.cursor <= sys.s.frames <= 256 && |sys.s.send| == 256 && sys.s.fallback < LADDER && Able(doc, sys.s)
    ensures sys.s.sub.SendEcm? ==> PendingStations(doc, sys.s, sys.r) && PendingWire(doc, sys)
    ensures Polling(sys.s) ==> Pending(doc, sys) || Accepted(doc, sys)
    ensures Falling(sys.s) ==> Pending(doc, sys)
  {
    hide Pads, Padded, HoldsFrames, PpsOf;
  }

  lemma LosePays(doc: seq<Page>, allowed: seq<bool>, sys: System, lost: nat)
    requires Paid(doc, sys, lost) && |allowed| == LADDER && Runnable(doc, sys)
    ensures Paid(doc, Happen(doc, allowed, sys, Lose), lost + LossOf(sys, Lose))
  {
    EventKeepsInv(doc, allowed, sys, Lose);
    hide Inv;
    var t := Happen(doc, allowed, sys, Lose);
    assert sys.wire.Quiet? ==> t == sys;
  }

  lemma SenderStepPays(doc: seq<Page>, allowed: seq<bool>, sys: System, lost: nat)
    requires Paid(doc, sys, lost) && |allowed| == LADDER && Runnable(doc, sys) && Enabled(sys, SenderStep)
    ensures Paid(doc, Happen(doc, allowed, sys, SenderStep), lost)
  {
    EventKeepsInv(doc, allowed, sys, SenderStep);
    hide Inv;
    var t := Happen(doc, allowed, sys, SenderStep);
    assert forall i: nat :: Due(t, i) == Due(sys, i);
  }

  /** What a timer does to the sender. */
  lemma Timed(doc: seq<Page>, allowed: seq<bool>, sys: System)
    requires |allowed| == LADDER && Runnable(doc, sys) && Enabled(sys, SenderTimer)
    ensures var s := sys.s; var t := Happen(doc, allowed, sys, SenderTimer);
            && t.r == sys.r && t.s == s.(sub := t.s.sub, postRetries := t.s.postRetries, ctcRetries := t.s.ctcRetries)
            && (Polling(s) ==> if s.postRetries < 3 then Polling(t.s) && t.wire.Down? && t.s.postRetries == s.postRetries + 1
                               else t.s.sub == SenderDone(false))
            && (Falling(s) ==> Falling(t.s) || t.s.sub == SenderDone(false))
            && (GivingUp(s) ==> t.s.sub == SenderDone(false))
            && (s.sub.SenderDone? ==> t.s == s)
            && !t.wire.Up? && (Polling(s) || Falling(s) || GivingUp(s) || s.sub.SenderDone?)
  {
  }

  lemma TimerPays(doc: seq<Page>, allowed: seq<bool>, sys: System, lost: nat)
    requires Paid(doc, sys, lost) && |allowed| == LADDER && Runnable(doc, sys) && Enabled(sys, SenderTimer)
    ensures Paid(doc, Happen(doc, allowed, sys, SenderTimer), lost)
  {
    EventKeepsInv(doc, allowed, sys, SenderTimer);
    Timed(doc, allowed, sys);
    hide Inv, Happen, Runnable;
    var t := Happen(doc, allowed, sys, SenderTimer);
    assert Polling(t.s) ==> forall i: nat :: Due(t, i) == Due(sys, i);
  }

  lemma CarrierPays(doc: seq<Page>, allowed: seq<bool>, sys: System, lost: nat)
    requires Paid(doc, sys, lost) && |allowed| == LADDER && Runnable(doc, sys) && CalmEvent(sys, CarrierDown)
    ensures Paid(doc, Happen(doc, allowed, sys, CarrierDown), lost)
  {
    EventKeepsInv(doc, allowed, sys, CarrierDown);
    Bounds(doc, sys);
    hide Inv;
    var t := Happen(doc, allowed, sys, CarrierDown);
    assert forall i: nat :: Due(t, i) == Due(sys, i);
    assert !sys.s.sub.SendEcm? && !Falling(sys.s) by { hide PendingStations, AcceptedStations; }
  }

  lemma ReceiverStepPays(doc: seq<Page>, allowed: seq<bool>, sys: System, lost: nat)
    requires Paid(doc, sys, lost) && |allowed| == LADDER && Runnable(doc, sys)
    ensures Paid(doc, Happen(doc, allowed, sys, ReceiverStep), lost)
  {
    EventKeepsInv(doc, allowed, sys, ReceiverStep);
    Bounds(doc, sys);
    var t := Happen(doc, allowed, sys, ReceiverStep);
    StepKeepsFrames(doc, sys);
    assert forall i: nat :: Due(t, i) == Due(sys, i);
    hide Inv;
  }

  lemma StepKeepsFrames(doc: seq<Page>, sys: System)
    requires Inv(doc, sys)
    ensures var q := ReceiverStepDone(sys.r);
            && q.ackedPage == sys.r.ackedPage && q.ackedBlock == sys.r.ackedBlock
            && (sys.s.sub.SendEcm? || Polling(sys.s) ==> q.have == sys.r.have)
            && (q.sub.ReceiverDone? <==> sys.r.sub.ReceiverDone?)
            && (q.sub.WaitPps? ==> sys.r.sub.WaitPps? || sys.r.sub.SendErr?)
            && (sys.r.sub.SendErr? ==> !sys.s.sub.SendEcm? && !Falling(sys.s) && !Polling(sys.s))
  {
    hide Pads, Padded, HoldsFrames;
  }

  /** The next frame goes out, or the PPS when there is none. */
  lemma Streamed(doc: seq<Page>, allowed: seq<bool>, sys: System)
    requires |allowed| == LADDER && Runnable(doc, sys) && Enabled(sys, StreamFrame)
    ensures var s := sys.s; var t := Happen(doc, allowed, sys, StreamFrame);
            && s.cursor <= t.s.cursor <= s.frames <= |s.send|
            && t.r == sys.r && t.s == s.(cursor := t.s.cursor, burst := t.s.burst, rcpLeft := t.s.rcpLeft, sub := t.s.sub, postRetries := t.s.postRetries)
            && t.wire.Down?
            && (if t.wire.f.Fcd? then t.s.sub.SendEcm? && t.wire.f.no + 1 == t.s.cursor && forall j :: s.cursor <= j < t.wire.f.no ==> !s.send[j]
                else t.s.cursor == s.frames && (forall j :: s.cursor <= j < s.frames ==> !s.send[j])
                     && (t.s.sub.SendEcm? || (t.s.sub.SendPps? && t.s.postRetries == 0)))
  {
    hide Payload;
  }

  lemma StreamPays(doc: seq<Page>, allowed: seq<bool>, sys: System, lost: nat)
    requires Paid(doc, sys, lost) && |allowed| == LADDER && Runnable(doc, sys) && Enabled(sys, StreamFrame)
    ensures Paid(doc, Happen(doc, allowed, sys, StreamFrame), lost)
  {
    EventKeepsInv(doc, allowed, sys, StreamFrame);
    Unmarked(doc, sys);
    Streamed(doc, allowed, sys);
    hide Inv, Happen, Runnable;
    var t := Happen(doc, allowed, sys, StreamFrame);
    forall i: nat | i < 256 && sys.r.have[i].None? && Due(t, i) ensures Due(sys, i) {}
  }

  /** Frames not marked for sending are there. */
  lemma Unmarked(doc: seq<Page>, sys: System)
    requires Inv(doc, sys) && sys.s.sub.SendEcm?
    ensures !Acked(sys.s, sys.r)
    ensures |sys.s.send| == |sys.r.have| == 256 && sys.s.frames <= 256 && forall i :: 0 <= i < sys.s.frames && !sys.s.send[i] ==> sys.r.have[i].Some?
  {
    hide Pads, Padded, HoldsFrames;
  }

  // ---------------------------------------------------------------- what arrives at the receiver

  /** A frame arrives at the receiver. */
  lemma Arrived(doc: seq<Page>, allowed: seq<bool>, sys: System, cap: nat)
    requires Inv(doc, sys) && |allowed| == LADDER && Runnable(doc, sys) && Enabled(sys, Deliver(cap)) && sys.wire.Down?
    requires sys.r.sub.ReceiverDone? ==> sys.s.sub.SendDcn? || sys.s.sub.SenderDone?
    requires sys.r.sub.WaitPps? ==> !sys.s.sub.SendEcm? && !Falling(sys.s)
    ensures var s := sys.s; var t := Happen(doc, allowed, sys, Deliver(cap));
            && t.s == s && |t.r.have| == |sys.r.have| == 256
            && (t.r.sub.ReceiverDone? ==> s.sub.SendDcn? || s.sub.SenderDone?)
            && (s.sub.SendEcm? ==> t.wire.Quiet? && t.r == sys.r.(have := t.r.have))
            && (s.sub.SendEcm? ==> forall i :: 0 <= i < 256 && t.r.have[i].None? ==> sys.r.have[i].None? && !(sys.wire.f.Fcd? && sys.wire.f.no == i))
            && (Polling(s) ==> t.wire.Up? && !t.r.sub.WaitPps?)
            && (Polling(s) && !Acked(s, t.r) ==> t.r.have == sys.r.have && t.r.ackedPage == sys.r.ackedPage && t.r.ackedBlock == sys.r.ackedBlock)
            && (Polling(s) && t.wire.f.Ppr? ==> !Acked(s, t.r) && exists i :: 0 <= i < s.frames && i < 256 && t.r.have[i].None?)
            && (Falling(s) ==> !t.r.sub.WaitPps?)
  {
    ArrivedPhases(doc, sys);
    hide Inv, AppendFrames, Missing, NoFrames, FromDcs;
  }

  /** What is on the line to the receiver, and where it stands. */
  lemma ArrivedPhases(doc: seq<Page>, sys: System)
    requires Inv(doc, sys) && sys.wire.Down? && Listening(sys.r)
    requires sys.r.sub.ReceiverDone? ==> sys.s.sub.SendDcn? || sys.s.sub.SenderDone?
    requires sys.r.sub.WaitPps? ==> !sys.s.sub.SendEcm? && !Falling(sys.s)
    ensures |sys.r.have| == 256
    ensures sys.s.sub.SendEcm? ==> sys.r.sub.RecvEcm? && ((sys.wire.f.Fcd? && sys.wire.f.no < 256) || sys.wire.f.Rcp?)
    ensures Polling(sys.s) ==> (sys.r.sub.RecvEcm? || sys.r.sub.WaitPps? || sys.r.sub.WaitDcn?) && sys.wire.f.Pps?
                               && sys.wire.f.page == sys.s.page % 256 && sys.wire.f.block == sys.s.block % 256
    ensures Polling(sys.s) && !Acked(sys.s, sys.r) ==> if sys.r.frames < 0 then sys.wire.f.last + 1 == sys.s.frames else sys.r.frames == sys.s.frames
    ensures Falling(sys.s) ==> sys.r.sub.RecvEcm? && sys.wire.f.Ctc?
    ensures GivingUp(sys.s) ==> (sys.r.sub.RecvEcm? || sys.r.sub.WaitPps?) && sys.wire.f.Eor?
    ensures sys.s.sub.SendEcm? || Polling(sys.s) || Falling(sys.s) || GivingUp(sys.s) || sys.s.sub.SendDcn? || sys.s.sub.SenderDone?
  {
    hide Pads, Padded, HoldsFrames;
  }

  lemma ArrivalPays(doc: seq<Page>, allowed: seq<bool>, sys: System, cap: nat, lost: nat)
    requires Paid(doc, sys, lost) && |allowed| == LADDER && Runnable(doc, sys) && Enabled(sys, Deliver(cap)) && sys.wire.Down?
    ensures Paid(doc, Happen(doc, allowed, sys, Deliver(cap)), lost)
  {
    EventKeepsInv(doc, allowed, sys, Deliver(cap));
    Arrived(doc, allowed, sys, cap);
    hide Inv, Happen, Runnable;
    var t := Happen(doc, allowed, sys, Deliver(cap));
    if Gap(t) && (sys.s.sub.SendEcm? || Polling(sys.s)) {
      var i: nat :| i < 256 && t.r.have[i].None? && Due(t, i);
      assert Due(sys, i);
    }
  }

  // ---------------------------------------------------------------- what arrives at the sender

  /** What an answer is, and what it says of the receiver. */
  lemma AnswerPhases(doc: seq<Page>, sys: System)
    requires Inv(doc, sys) && sys.wire.Up? && Waiting(sys.s)
    requires sys.r.sub.ReceiverDone? ==> sys.s.sub.SendDcn? || sys.s.sub.SenderDone?
    ensures |sys.r.have| == 256
    ensures sys.s.sub.WaitPpsResponse? ==> sys.wire.f.Mcf? || (sys.wire.f.Ppr? && !Acked(sys.s, sys.r) && sys.wire.f.missing == Missing(sys.r.have)
                                                                && sys.r.frames == sys.s.frames)
    ensures sys.s.sub.WaitCtr? ==> sys.wire.f.Ctr?
    ensures sys.s.sub.WaitEor? ==> sys.wire.f.Err? || sys.wire.f.Dcn?
    ensures Able(doc, sys.s)
  {
    hide Pads, Padded, HoldsFrames;
  }

  /** What an answer makes of the sender. */
  lemma Heard(doc: seq<Page>, allowed: seq<bool>, sys: System, cap: nat)
    requires Inv(doc, sys) && |allowed| == LADDER && Runnable(doc, sys) && Enabled(sys, Deliver(cap)) && sys.wire.Up?
    requires sys.r.sub.ReceiverDone? ==> sys.s.sub.SendDcn? || sys.s.sub.SenderDone?
    ensures var s := sys.s; var t := Happen(doc, allowed, sys, Deliver(cap));
            && t.r == sys.r && |sys.r.have| == 256
            && (if s.sub.WaitPpsResponse? && sys.wire.f.Mcf? then
                  (t.s.sub.SendEcm? && t.s.pprCount == 0 && t.s.cursor == 0 && !SamePlace(sys, t)) || t.s.sub.SendDcn?
                else
                  && SamePlace(sys, t)
                  && if s.sub.WaitPpsResponse? then
                       && sys.wire.f.Ppr?
                       && if t.s.sub.SendEcm? then t.s.pprCount == s.pprCount + 1 && t.s.cursor == 0
                          else (Falling(t.s) || GivingUp(t.s) || t.s.sub == SenderDone(false)) && s.pprCount >= 3 && (Falling(t.s) ==> t.s.pprCount == 0)
                     else if s.sub.WaitCtr? then t.s.sub.SendEcm? && t.s.cursor == 0 && t.s.pprCount == s.pprCount
                     else if s.sub.WaitEor? then t.s.sub == SenderDone(false) || t.s == s
                     else t.s == s && s.sub.SenderDone?)
            && !t.wire.Up?
  {
    AnswerPhases(doc, sys);
    BlockPlaced(doc, sys);
    MovesOn(doc, sys.s, cap);
    if sys.wire.f.Ppr? { Refused(sys.s, sys.wire.f.missing, allowed); }
    hide Inv, OnMcf, OnPpr, Missing;
  }

  /** An MCF moves the sender on. */
  lemma MovesOn(doc: seq<Page>, s: Sender, cap: nat)
    requires Able(doc, s) && s.frames >= 1 && 1 <= cap <= 256
    ensures var t := OnMcf(doc, s, cap);
            && ((t.s.sub.SendEcm? && t.s.pprCount == 0 && t.s.cursor == 0 && (t.s.page != s.page || t.s.base != s.base)) || t.s.sub.SendDcn?)
            && (t.out == None || t.out == Some(Dcn))
  {
    hide BuildBlock;
    BlockCounts(doc[s.page], s.(base := s.base + s.frames * OCTETS, block := s.block + 1), cap);
    if s.page + 1 < |doc| {
      BlockCounts(doc[s.page + 1], s.(page := s.page + 1, block := 0, base := 0, step := if s.page + 2 < |doc| then Mps else Eop), cap);
    }
  }

  /** A PPR repeats the burst, steps down, or gives up. */
  lemma Refused(s: Sender, missing: seq<bool>, allowed: seq<bool>)
    requires s.frames <= |s.send| == 256 && |allowed| == LADDER
    ensures var t := OnPpr(s, missing, allowed);
            && t.s.page == s.page && t.s.base == s.base
            && if t.s.sub.SendEcm? then t.s.pprCount == s.pprCount + 1 && t.s.cursor == 0
               else (Falling(t.s) || GivingUp(t.s) || t.s.sub == SenderDone(false)) && s.pprCount >= 3 && (Falling(t.s) ==> t.s.pprCount == 0)
  {
    hide NextAllowed;
  }

  lemma BlockCounts(enc: Page, s: Sender, cap: nat)
    requires 1 <= cap <= 256 && |s.send| == 256
    ensures s.base <= |enc| ==> var t := BuildBlock(enc, s, cap); t.pprCount == 0 && t.page == s.page && t.base == s.base
  {
  }

  lemma BlockPlaced(doc: seq<Page>, sys: System)
    requires Inv(doc, sys)
    ensures sys.s.frames >= 1
  {
    hide PendingStations, AcceptedStations, PendingWire, AcceptedWire;
  }

  lemma AnswerPays(doc: seq<Page>, allowed: seq<bool>, sys: System, cap: nat, lost: nat)
    requires Paid(doc, sys, lost) && |allowed| == LADDER && Runnable(doc, sys) && Enabled(sys, Deliver(cap)) && sys.wire.Up?
    ensures var t := Happen(doc, allowed, sys, Deliver(cap)); Paid(doc, t, if SamePlace(sys, t) then lost else 0)
  {
    EventKeepsInv(doc, allowed, sys, Deliver(cap));
    Heard(doc, allowed, sys, cap);
    hide Inv, Happen, Runnable;
    var t := Happen(doc, allowed, sys, Deliver(cap));
    assert t.s.sub.SendEcm? ==> !Gap(t);
  }

  // ---------------------------------------------------------------- runs

  lemma EventPays(doc: seq<Page>, allowed: seq<bool>, sys: System, e: Event, lost: nat)
    requires Paid(doc, sys, lost) && |allowed| == LADDER && Enabled(sys, e) && CalmEvent(sys, e) && Runnable(doc, sys)
    ensures var t := Happen(doc, allowed, sys, e); Paid(doc, t, if SamePlace(sys, t) then lost + LossOf(sys, e) else 0)
  {
    SamePlaceBut(doc, allowed, sys, e);
    hide Paid, Happen, Runnable, Enabled, SamePlace;
    match e
    case StreamFrame => StreamPays(doc, allowed, sys, lost);
    case SenderStep => SenderStepPays(doc, allowed, sys, lost);
    case SenderTimer => TimerPays(doc, allowed, sys, lost);
    case Deliver(cap) => if sys.wire.Down? { ArrivalPays(doc, allowed, sys, cap, lost); } else { AnswerPays(doc, allowed, sys, cap, lost); }
    case Lose => LosePays(doc, allowed, sys, lost);
    case ReceiverStep => ReceiverStepPays(doc, allowed, sys, lost);
    case CarrierDown => CarrierPays(doc, allowed, sys, lost);
    case ReceiverTimer =>
  }

  /** Only an answer moves the sender on. */
  lemma SamePlaceBut(doc: seq<Page>, allowed: seq<bool>, sys: System, e: Event)
    requires |allowed| == LADDER && Runnable(doc, sys) && Enabled(sys, e)
    ensures !(e.Deliver? && sys.wire.Up?) ==> SamePlace(sys, Happen(doc, allowed, sys, e))
    ensures e.Deliver? ==> sys.wire.Down? || sys.wire.Up?
  {
    if e.StreamFrame? {
      Streamed(doc, allowed, sys);
    } else if e.SenderTimer? {
      Timed(doc, allowed, sys);
    }
    hide Runnable, GetFrame, SenderOnTimer, ReceiverOnFrame, ReceiverStepDone, ReceiverOnTimer, SenderOnFrame;
  }

  lemma StartPays(doc: seq<Page>, cap: nat, fallback: nat, v34: bool)
    requires DocOk(doc) && 1 <= cap <= 256 && fallback < LADDER
    ensures Paid(doc, Start(doc, cap, fallback, v34), 0)
  {
    StartIsPending(doc, cap, fallback, v34);
    hide Inv;
  }

  lemma {:induction false} RunPays(doc: seq<Page>, allowed: seq<bool>, start: System, events: seq<Event>, run: seq<System>, n: nat)
    requires |allowed| == LADDER && IsRun(doc, allowed, start, events, run) && Paid(doc, start, 0) && n < |run| && Calm(events, run)
    ensures Paid(doc, run[n], Losses(events, run, n))
  {
    hide Paid, Happen, Runnable, Enabled, SamePlace, LossOf, CalmEvent;
    if n > 0 {
      RunPays(doc, allowed, start, events, run, n - 1);
      EventPays(doc, allowed, run[n - 1], events[n - 1], Losses(events, run, n - 1));
    }
  }

  /** Over every run of two patient stations, with frames of either direction lost at will: the
      sender leaves the rate alone, goes on and does not give up while fewer than four frames
      have been lost since it came to its block. */
  lemma FourLossesNeeded(doc: seq<Page>, allowed: seq<bool>, cap: nat, fallback: nat, v34: bool, events: seq<Event>, run: seq<System>, n: nat)
    requires DocOk(doc) && 1 <= cap <= 256 && fallback < LADDER && |allowed| == LADDER
    requires IsRun(doc, allowed, Start(doc, cap, fallback, v34), events, run) && n < |run| && Calm(events, run)
    ensures Falling(run[n].s) || GivingUp(run[n].s) || run[n].s.sub == SenderDone(false) ==> Losses(events, run, n) >= 4
  {
    StartPays(doc, cap, fallback, v34);
    hide IsRun, Start, Calm, Losses;
    RunPays(doc, allowed, Start(doc, cap, fallback, v34), events, run, n);
    hide Inv;
  }
}
