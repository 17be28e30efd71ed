/** Why delivery rests on one frame at a time: a run of the error correction mode in which an
    acknowledgement arrives twice. */
module EcmDuplicate {
  import opened BitIo
  import opened EcmProtocol
  import opened EcmDelivery

  /** Two pages of one octet each. */
  function TwoPages(): (doc: seq<Page>) {
    [[1], [2]]
  }

  function OneFrame(): (send: seq<bool>)
    ensures |send| == 256
  {
    seq(256, i requires 0 <= i < 256 => i < 1)
  }

  /** The sender on a page of `TwoPages`, with so much of its single frame and RCPs sent. */
  function On(sub: SendState, page: nat, frames: nat, rcps: nat): Sender {
    Sender(sub, page, 0, 0, 1, OneFrame(), frames, rcps, frames, true, if page == 0 then Mps else Eop, 0, 0, 0, 0, false)
  }

  lemma StartsOn(cap: nat)
    requires 1 <= cap <= 256
    ensures Start(TwoPages(), cap, 0, false) == System(On(SendEcm, 0, 0, 3), Fresh(), Quiet)
    ensures SenderOnFrame(TwoPages(), On(WaitPpsResponse, 0, 1, 0), Mcf, cap, seq(LADDER, _ => false)) == Sent(On(SendEcm, 1, 0, 3), None)
  {
    assert Start(TwoPages(), cap, 0, false).s.send == OneFrame();
  }

  /** The receiver before anything. */
  function Fresh(): (r: Receiver)
    ensures |r.have| == 256
  {
    Receiver(RecvEcm, NoFrames(), -1, [], [], -1, -1, Null, RecvEcm, 0)
  }

  /** One frame after the other, each delivered or lost: to the PPS of the page. */
  lemma BurstGoesOut(allowed: seq<bool>, a: System, page: nat, r: Receiver, heard: bool)
    requires |allowed| == LADDER && page < 2 && r.sub.RecvEcm? && |r.have| == 256 && r.frames <= 256
    requires Leads(TwoPages(), allowed, a, System(On(SendEcm, page, 0, 3), r, Quiet))
    ensures var doc := TwoPages(); var s := On(SendPps, page, 1, 0);
            var q := if heard then StoreFcd(r, 0, Payload(doc[page], 0, 0)) else r;
            Leads(doc, allowed, a, System(s, q, Down(Pps(s.step, page, 0, 0))))
  {
    hide Leads, StoreFcd, Payload;
    var doc := TwoPages();
    var q := if heard then StoreFcd(r, 0, Payload(doc[page], 0, 0)) else r;
    FrameGoes(allowed, a, page, r, heard);
    StoredShape(r, Payload(doc[page], 0, 0));
    RcpGoes(allowed, a, page, q, 3);
    RcpGoes(allowed, a, page, q, 2);
    RcpGoes(allowed, a, page, q, 1);
    LeadsOn(doc, allowed, a, System(On(SendEcm, page, 1, 0), q, Quiet), StreamFrame);
    PpsGoes(allowed, page, q);
  }

  lemma StoredShape(r: Receiver, data: seq<Byte>)
    requires |r.have| == 256
    ensures var q := StoreFcd(r, 0, data); q.sub == r.sub && |q.have| == 256 && q.frames == r.frames
  {
  }

  lemma FrameGoes(allowed: seq<bool>, a: System, page: nat, r: Receiver, heard: bool)
    requires |allowed| == LADDER && page < 2 && r.sub.RecvEcm? && |r.have| == 256 && r.frames <= 256
    requires Leads(TwoPages(), allowed, a, System(On(SendEcm, page, 0, 3), r, Quiet))
    ensures var doc := TwoPages();
            var q := if heard then StoreFcd(r, 0, Payload(doc[page], 0, 0)) else r;
            Leads(doc, allowed, a, System(On(SendEcm, page, 1, 3), q, Quiet))
  {
    hide Leads, StoreFcd, Payload;
    var doc, d := TwoPages(), Payload(TwoPages()[page], 0, 0);
    var x, y := System(On(SendEcm, page, 0, 3), r, Quiet), System(On(SendEcm, page, 1, 3), r, Down(Fcd(0, d)));
    LeadsOn(doc, allowed, a, x, StreamFrame);
    assert Happen(doc, allowed, x, StreamFrame) == y;
    LeadsOn(doc, allowed, a, y, if heard then Deliver(1) else Lose);
  }

  lemma RcpGoes(allowed: seq<bool>, a: System, page: nat, r: Receiver, k: nat)
    requires |allowed| == LADDER && page < 2 && r.sub.RecvEcm? && |r.have| == 256 && r.frames <= 256 && k > 0
    requires Leads(TwoPages(), allowed, a, System(On(SendEcm, page, 1, k), r, Quiet))
    ensures Leads(TwoPages(), allowed, a, System(On(SendEcm, page, 1, k - 1), r, Quiet))
  {
    hide Leads;
    var doc := TwoPages();
    var x, y := System(On(SendEcm, page, 1, k), r, Quiet), System(On(SendEcm, page, 1, k - 1), r, Down(Rcp));
    LeadsOn(doc, allowed, a, x, StreamFrame);
    assert Happen(doc, allowed, x, StreamFrame) == y;
    LeadsOn(doc, allowed, a, y, Deliver(1));
  }

  lemma PpsGoes(allowed: seq<bool>, page: nat, r: Receiver)
    requires |allowed| == LADDER && page < 2 && |r.have| == 256 && r.frames <= 256
    ensures var x := System(On(SendEcm, page, 1, 0), r, Quiet); var s := On(SendPps, page, 1, 0);
            && Runnable(TwoPages(), x) && Enabled(x, StreamFrame)
            && Happen(TwoPages(), allowed, x, StreamFrame) == System(s, r, Down(Pps(s.step, page, 0, 0)))
  {
  }

  /** The receiver once it has answered the first page. */
  function Answered(): (r: Receiver)
    ensures |r.have| == 256
  {
    Receiver(SendMcf, NoFrames(), -1, Padded(TwoPages()[0]), [], 0, 0, Mps, RecvEcm, 0)
  }

  /** Between the pages. */
  function Between(): (r: Receiver)
    ensures |r.have| == 256
  {
    Receiver(RecvEcm, NoFrames(), -1, [], [Padded(TwoPages()[0])], 0, 0, Mps, RecvEcm, 0)
  }

  lemma FirstPageTaken()
    ensures var d := Payload(TwoPages()[0], 0, 0);
            OnPps(StoreFcd(Fresh(), 0, d), Mps, 0, 0, 0) == Received(Answered(), Some(Mcf))
    ensures ReceiverStepDone(Answered()) == Between()
  {
    var d := Payload(TwoPages()[0], 0, 0);
    assert d == Padded(TwoPages()[0]);
    var r := StoreFcd(Fresh(), 0, d);
    assert AppendFrames([], r.have, 0) == [];
    assert AppendFrames([], r.have, 1) == [] + d == d;
  }

  /** The first page is acknowledged. */
  lemma FirstPage(allowed: seq<bool>) returns (m: System)
    requires |allowed| == LADDER
    ensures m == System(On(WaitPpsResponse, 0, 1, 0), Answered(), Up(Mcf))
    ensures Leads(TwoPages(), allowed, Start(TwoPages(), 1, 0, false), m)
  {
    hide Leads, Start, StoreFcd, Payload, OnPps, AppendFrames, Padded, On;
    var doc := TwoPages();
    var x := Start(doc, 1, 0, false);
    StartsOn(1);
    LeadsNowhere(doc, allowed, x);
    BurstGoesOut(allowed, x, 0, Fresh(), true);
    FirstPageTaken();
    m := FirstPps(allowed, x);
  }

  lemma FirstPps(allowed: seq<bool>, x: System) returns (m: System)
    requires |allowed| == LADDER
    requires var s := On(SendPps, 0, 1, 0); var d := Payload(TwoPages()[0], 0, 0);
             Leads(TwoPages(), allowed, x, System(s, StoreFcd(Fresh(), 0, d), Down(Pps(s.step, 0, 0, 0))))
    ensures m == System(On(WaitPpsResponse, 0, 1, 0), Answered(), Up(Mcf)) && Leads(TwoPages(), allowed, x, m)
  {
    hide Leads, Payload, OnPps, Padded;
    var doc, d := TwoPages(), Payload(TwoPages()[0], 0, 0);
    var s := On(SendPps, 0, 1, 0);
    var a := System(s, StoreFcd(Fresh(), 0, d), Down(Pps(s.step, 0, 0, 0)));
    FirstPageTaken();
    LeadsOn(doc, allowed, x, a, Deliver(1));
    var b := System(s, Answered(), Up(Mcf));
    assert Happen(doc, allowed, a, Deliver(1)) == b;
    LeadsOn(doc, allowed, x, b, SenderStep);
    m := System(On(WaitPpsResponse, 0, 1, 0), Answered(), Up(Mcf));
  }

  /** The second page is sent after the acknowledgement has arrived, and all of it is lost. */
  lemma SecondPage(allowed: seq<bool>, a: System) returns (q: System)
    requires |allowed| == LADDER && a == System(On(SendEcm, 1, 0, 3), Answered(), Quiet)
    ensures q == System(On(WaitPpsResponse, 1, 1, 0), Between(), Quiet) && Leads(TwoPages(), allowed, a, q)
  {
    hide Leads, Padded;
    var doc := TwoPages();
    LeadsNowhere(doc, allowed, a);
    FirstPageTaken();
    LeadsOn(doc, allowed, a, a, ReceiverStep);
    BurstGoesOut(allowed, a, 1, Between(), false);
    var s := On(SendPps, 1, 1, 0);
    var b := System(s, Between(), Down(Pps(s.step, 1, 0, 0)));
    LeadsOn(doc, allowed, a, b, Lose);
    LeadsOn(doc, allowed, a, b.(wire := Quiet), SenderStep);
    q := System(On(WaitPpsResponse, 1, 1, 0), Between(), Quiet);
  }

  /** A run in which an MCF, delivered once, comes a second time while the sender waits for the
      answer to its next page: the sender takes the call for complete and disconnects, and
      the receiver has one page of two. */
  lemma DuplicatedMcfLosesAPage(allowed: seq<bool>) returns (m: System, q: System)
    requires |allowed| == LADDER
    ensures var doc := TwoPages();
            && Leads(doc, allowed, Start(doc, 1, 0, false), m) && m.wire == Up(Mcf)
            && Runnable(doc, m) && Enabled(m, Deliver(1)) && Leads(doc, allowed, Happen(doc, allowed, m, Deliver(1)), q)
            && var again := q.(wire := m.wire);
               && q.wire.Quiet? && Runnable(doc, again) && Enabled(again, Deliver(1))
               && var t := Happen(doc, allowed, again, Deliver(1));
                  t.s.sub.SendDcn? && DonePages(t.r) == [Padded(doc[0])] && DonePages(t.r) != Pads(doc)
  {
    hide Leads, Padded, Start;
    m := FirstPage(allowed);
    StartsOn(1);
    assert Happen(TwoPages(), allowed, m, Deliver(1)) == System(On(SendEcm, 1, 0, 3), Answered(), Quiet);
    q := SecondPage(allowed, Happen(TwoPages(), allowed, m, Deliver(1)));
  }
}
