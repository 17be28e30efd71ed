/** The two stations as objects updated by their event handlers (nf_t30.c: struct nf_t30 and
    the ecm_ functions).  Every handler is proved to take the step that EcmProtocol
    prescribes, so what EcmDelivery and EcmTermination prove of runs holds of them. */
module EcmStations {
  import opened BitIo
  import opened EcmProtocol

  class SendingStation {
    const doc: seq<Page>
    const allowed: seq<bool>
    const v34: bool
    var substate: SendState
    var curPage: nat
    var ecmTxBase: nat
    var ecmBlock: nat
    var ecmFrames: nat
    var ecmSend: array<bool>
    var ecmCursor: nat
    var ecmRcpLeft: nat
    var ecmBurst: nat
    var ecmAtPageEnd: bool
    var nextTxStep: Post
    var pprCount: nat
    var ctcRetries: nat
    var postRetries: nat
    var fallback: nat

    ghost function State(): Sender
      reads this, ecmSend
    {
      Sender(substate, curPage, ecmTxBase, ecmBlock, ecmFrames, ecmSend[..], ecmCursor, ecmRcpLeft, ecmBurst, ecmAtPageEnd,
             nextTxStep, pprCount, ctcRetries, postRetries, fallback, v34)
    }

    ghost predicate Valid()
      reads this, ecmSend
    {
      |allowed| == LADDER && ecmSend.Length == 256 && Able(doc, State())
    }

    /** Carves the next block, at most `cap` frames, out of the page. */
    method BuildBlock(cap: nat)
      requires 1 <= cap <= 256 && curPage < |doc| && ecmTxBase <= |doc[curPage]| && ecmSend.Length == 256
      modifies this`ecmFrames, this`ecmAtPageEnd, this`pprCount, ecmSend
      ensures State() == EcmProtocol.BuildBlock(doc[curPage], old(State()), cap)
    {
      ghost var next := EcmProtocol.BuildBlock(doc[curPage], State(), cap);
      var remaining := |doc[curPage]| - ecmTxBase;
      var block := if remaining < cap * OCTETS then remaining else cap * OCTETS;
      var frames := (block + OCTETS - 1) / OCTETS;
      if frames < 1 { frames := 1; }
      ecmFrames := frames;
      ghost var was := ecmSend[..];
      for i := 0 to frames
        invariant ecmFrames == frames
        invariant forall j :: 0 <= j < 256 ==> ecmSend[j] == (j < i || was[j])
      {
        ecmSend[i] := true;
      }
      ecmAtPageEnd := ecmTxBase + block >= |doc[curPage]|;
      pprCount := 0;
      assert ecmSend[..] == next.send;
    }

    method StartBurst()
      modifies this`ecmCursor, this`ecmRcpLeft, this`ecmBurst, this`substate
      ensures State() == EcmProtocol.StartBurst(old(State()))
    {
      ecmCursor := 0;
      ecmRcpLeft := 3;
      ecmBurst := 0;
      substate := SendEcm;
    }

    method BeginPage(cap: nat)
      requires 1 <= cap <= 256 && curPage < |doc| && ecmSend.Length == 256
      modifies this, ecmSend
      ensures ecmSend == old(ecmSend) && State() == EcmProtocol.BeginPage(doc, old(State()), cap)
    {
      ecmBlock := 0;
      ecmTxBase := 0;
      nextTxStep := if curPage + 1 < |doc| then Mps else Eop;
      BuildBlock(cap);
      StartBurst();
    }

    /** on_get_frame: the next frame of the burst, none when it is over. */
    method GetFrame() returns (frame: Option<Frame>)
      requires Valid()
      modifies this`ecmCursor, this`ecmBurst, this`ecmRcpLeft
      ensures Sent(State(), frame) == EcmProtocol.GetFrame(doc[curPage], old(State()))
    {
      ghost var first := ecmCursor;
      while ecmCursor < ecmFrames
        invariant first <= ecmCursor <= ecmFrames && ecmBurst == old(ecmBurst) && ecmRcpLeft == old(ecmRcpLeft)
        invariant NextToSend(ecmSend[..], ecmFrames, first) == NextToSend(ecmSend[..], ecmFrames, ecmCursor)
      {
        var i := ecmCursor;
        ecmCursor := ecmCursor + 1;
        if ecmSend[i] {
          ecmBurst := ecmBurst + 1;
          return Some(Fcd(i, Payload(doc[curPage], ecmTxBase, i)));
        }
      }
      if ecmRcpLeft > 0 {
        ecmRcpLeft := ecmRcpLeft - 1;
        return Some(Rcp);
      }
      frame := None;
    }

    method PutPps() returns (frame: Option<Frame>)
      modifies this`substate
      ensures Sent(State(), frame) == EcmProtocol.PutPps(old(State()))
    {
      frame := Some(Pps(if ecmAtPageEnd then nextTxStep else Null, curPage % 256, ecmBlock % 256,
                        if ecmBurst > 0 then (ecmBurst - 1) % 256 else 0));
      substate := SendPps;
    }

    /** Keeps for sending what the receiver reports missing. */
    method ApplyPpr(missing: seq<bool>)
      requires ecmSend.Length == 256 && ecmFrames <= 256
      modifies ecmSend
      ensures State() == EcmProtocol.ApplyPpr(old(State()), missing)
    {
      if |missing| < 256 { return; }
      ghost var was := ecmSend[..];
      for i := 0 to 32
        invariant forall m :: 0 <= m < 256 ==> ecmSend[m] == if m < 8 * i && m < ecmFrames then missing[m] else was[m]
      {
        for j := 0 to 8
          invariant forall m :: 0 <= m < 256 ==> ecmSend[m] == if m < 8 * i + j && m < ecmFrames then missing[m] else was[m]
        {
          var no := 8 * i + j;
          if no < ecmFrames { ecmSend[no] := missing[no]; }
        }
      }
      assert ecmSend[..] == EcmProtocol.ApplyPpr(old(State()), missing).send;
    }

    method PutCtc() returns (frame: Option<Frame>)
      requires fallback < LADDER
      modifies this`substate
      ensures Sent(State(), frame) == EcmProtocol.PutCtc(old(State()))
    {
      frame := Some(Ctc(Dcs(fallback)));
      substate := SendCtc;
    }

    method PutEor() returns (frame: Option<Frame>)
      modifies this`substate
      ensures Sent(State(), frame) == EcmProtocol.PutEor(old(State()))
    {
      frame := Some(Eor(if ecmAtPageEnd then nextTxStep else Null));
      substate := SendEor;
    }

    method Disconnect() returns (frame: Option<Frame>)
      modifies this`substate
      ensures Sent(State(), frame) == EcmProtocol.Disconnect(old(State()))
    {
      frame := Some(Dcn);
      substate := SenderDone(false);
    }

    method OnPpr(missing: seq<bool>) returns (frame: Option<Frame>)
      requires Valid()
      modifies this, ecmSend
      ensures ecmSend == old(ecmSend) && Sent(State(), frame) == EcmProtocol.OnPpr(old(State()), missing, allowed)
    {
      hide Dcs, NextAllowed;
      ApplyPpr(missing);
      pprCount := pprCount + 1;
      frame := None;
      if v34 {
        if pprCount > 16 { frame := Disconnect(); return; }
        StartBurst();
      } else if pprCount >= 4 {
        var next := NextAllowed(allowed, fallback + 1);
        if next >= 0 {
          fallback := next;
          pprCount := 0;
          ctcRetries := 0;
          frame := PutCtc();
        } else {
          frame := PutEor();
        }
      } else {
        StartBurst();
      }
    }

    method OnMcf(cap: nat) returns (frame: Option<Frame>)
      requires Valid() && 1 <= cap <= 256
      modifies this, ecmSend
      ensures ecmSend == old(ecmSend) && Sent(State(), frame) == EcmProtocol.OnMcf(doc, old(State()), cap)
    {
      hide EcmProtocol.BuildBlock;
      frame := None;
      if !ecmAtPageEnd {
        ecmTxBase := ecmTxBase + ecmFrames * OCTETS;
        ecmBlock := ecmBlock + 1;
        BuildBlock(cap);
        StartBurst();
      } else if nextTxStep.Mps? {
        curPage := curPage + 1;
        BeginPage(cap);
      } else {
        frame := Some(Dcn);
        substate := SendDcn;
      }
    }

    /** on_hdlc. */
    method OnHdlc(f: Frame, cap: nat) returns (frame: Option<Frame>)
      requires Valid() && 1 <= cap <= 256
      modifies this, ecmSend
      ensures ecmSend == old(ecmSend) && Sent(State(), frame) == SenderOnFrame(doc, old(State()), f, cap, allowed)
    {
      hide EcmProtocol.OnMcf, EcmProtocol.OnPpr;
      frame := None;
      match substate {
        case WaitPpsResponse =>
          match f {
            case Mcf => frame := OnMcf(cap);
            case Ppr(missing) => frame := OnPpr(missing);
            case Rnr => frame := PutPps();
            case _ =>
          }
        case WaitCtr => if f.Ctr? { StartBurst(); }
        case WaitEor => if f.Err? { frame := Disconnect(); }
        case _ =>
      }
    }

    /** on_status, step complete. */
    method OnStepComplete() returns (frame: Option<Frame>)
      modifies this`substate, this`postRetries
      ensures Sent(State(), frame) == SenderStepDone(old(State()))
    {
      frame := None;
      match substate
      case SendEcm =>
        postRetries := 0;
        frame := PutPps();
      case SendPps => substate := WaitPpsResponse;
      case SendCtc => substate := WaitCtr;
      case SendEor => substate := WaitEor;
      case SendDcn => substate := SenderDone(true);
      case _ =>
    }

    /** on_timer, expired. */
    method OnTimeout() returns (frame: Option<Frame>)
      requires fallback < LADDER
      modifies this`substate, this`postRetries, this`ctcRetries
      ensures Sent(State(), frame) == SenderOnTimer(old(State()))
    {
      frame := None;
      if substate.WaitPpsResponse? && postRetries < 3 {
        postRetries := postRetries + 1;
        frame := PutPps();
      } else if substate.WaitCtr? && ctcRetries < 3 {
        ctcRetries := ctcRetries + 1;
        frame := PutCtc();
      } else if substate.WaitPpsResponse? || substate.WaitCtr? || substate.WaitEor? {
        frame := Disconnect();
      }
    }
  }

  /** Frame `i` is there unless its length is negative. */
  function Frames(len: seq<int>, data: seq<seq<Byte>>): (h: seq<Option<seq<Byte>>>)
    requires |data| == |len| && forall i :: 0 <= i < |len| ==> len[i] <= |data[i]|
    ensures |h| == |len|
    ensures forall i :: 0 <= i < |len| ==> h[i] == if len[i] < 0 then None else Some(data[i][..len[i]])
  {
    seq(|len|, i requires 0 <= i < |len| => if len[i] < 0 then None else Some(data[i][..len[i]]))
  }

  class ReceivingStation {
    var substate: ReceiveState
    var ecmLen: array<int>
    var ecmData: array<seq<Byte>>
    var ecmFrames: int
    var rxbuf: seq<Byte>
    var pages: seq<Page>
    var ackedPage8: int
    var ackedBlock8: int
    var lastPpsFcf2: Post
    var reackReturn: ReceiveState
    var fallback: nat

    ghost function Have(): (h: seq<Option<seq<Byte>>>)
      reads this`ecmLen, this`ecmData, ecmLen, ecmData
      requires Stored()
      ensures |h| == 256
    {
      Frames(ecmLen[..], ecmData[..])
    }

    ghost predicate Stored()
      reads this`ecmLen, this`ecmData, ecmLen, ecmData
    {
      ecmLen.Length == 256 && ecmData.Length == 256 && forall i :: 0 <= i < 256 ==> ecmLen[i] <= |ecmData[i]|
    }

    ghost predicate Valid()
      reads this, ecmLen, ecmData
    {
      Stored() && ecmFrames <= 256
    }

    ghost function State(): Receiver
      reads this, ecmLen, ecmData
      requires Stored()
    {
      Receiver(substate, Have(), ecmFrames, rxbuf, pages, ackedPage8, ackedBlock8, lastPpsFcf2, reackReturn, fallback)
    }

    method ForgetFrames()
      requires Stored()
      modifies ecmLen
      ensures Stored() && Have() == NoFrames()
    {
      for i := 0 to 256
        invariant forall j :: 0 <= j < i ==> ecmLen[j] == -1
        invariant forall j :: i <= j < 256 ==> ecmLen[j] == old(ecmLen[j])
      {
        ecmLen[i] := -1;
      }
      assert Have() == NoFrames();
    }

    method BeginRxPage()
      requires Stored()
      modifies this`ecmFrames, this`rxbuf, ecmLen
      ensures Stored() && State() == EcmProtocol.BeginRxPage(old(State()))
    {
      ForgetFrames();
      ecmFrames := -1;
      rxbuf := [];
    }

    method StoreFcd(no: nat, data: seq<Byte>)
      requires Stored()
      modifies ecmLen, ecmData
      ensures Stored() && State() == EcmProtocol.StoreFcd(old(State()), no, data)
    {
      ghost var was := Have();
      if no > 255 { return; }
      var n := if |data| > OCTETS then OCTETS else |data|;
      ecmData[no] := data[..n];
      ecmLen[no] := n;
      assert ecmData[no][..n] == data[..n];
      assert Have() == was[no := Some(data[..n])];
      assert |data| <= OCTETS ==> data[..n] == data;
    }

    method Append(d: seq<Byte>)
      modifies this`rxbuf
      ensures rxbuf == EcmProtocol.Append(old(rxbuf), d)
    {
      if |rxbuf| + |d| > MAX_PAGE { return; }
      rxbuf := rxbuf + d;
    }

    /** The frames present among the first `n` go to the page. */
    method AppendFrames(n: nat)
      requires Stored() && n <= 256
      modifies this`rxbuf
      ensures rxbuf == EcmProtocol.AppendFrames(old(rxbuf), Have(), n)
    {
      hide EcmProtocol.Append;
      for i := 0 to n
        invariant rxbuf == EcmProtocol.AppendFrames(old(rxbuf), Have(), i)
      {
        if ecmLen[i] >= 0 { Append(ecmData[i][..ecmLen[i]]); }
      }
    }

    /** First missing frame of the block, 256 if there is none. */
    method FirstBad() returns (bad: nat)
      requires Valid()
      ensures bad <= 256 && (bad < 256 ==> bad < ecmFrames)
      ensures (bad >= ecmFrames) == HasAll(Have(), ecmFrames)
    {
      bad := 256;
      var i := 0;
      while i < ecmFrames
        invariant 0 <= i && (i <= ecmFrames || i == 0) && bad == 256
        invariant forall j :: 0 <= j < i ==> ecmLen[j] >= 0
      {
        if ecmLen[i] < 0 {
          assert Have()[i].None?;
          bad := i;
          return;
        }
        i := i + 1;
      }
    }

    method OnPps(post: Post, page: nat, block: nat, last: nat) returns (frame: Option<Frame>)
      requires Valid() && last < 256
      modifies this, ecmLen
      ensures Stored() && ecmLen == old(ecmLen) && ecmData == old(ecmData)
      ensures Received(State(), frame) == EcmProtocol.OnPps(old(State()), post, page, block, last)
    {
      hide EcmProtocol.AppendFrames, NoFrames, Frames, HasAll, Missing;
      if page == ackedPage8 && block == ackedBlock8 {
        reackReturn := RecvEcm;
        substate := Reack;
        return Some(Mcf);
      }
      if ecmFrames < 0 { ecmFrames := last + 1; }
      lastPpsFcf2 := post;
      var bad := FirstBad();
      if bad >= ecmFrames {
        AppendFrames(ecmFrames);
        ForgetFrames();
        ecmFrames := -1;
        ackedPage8, ackedBlock8 := page, block;
        substate := SendMcf;
        frame := Some(Mcf);
      } else {
        frame := PutPpr();
      }
    }

    /** ecm_send_ppr. */
    method PutPpr() returns (frame: Option<Frame>)
      requires Stored()
      modifies this`substate
      ensures Received(State(), frame) == Received(old(State()).(sub := SendPpr), Some(Ppr(Missing(Have()))))
    {
      var missing: seq<bool> := [];
      for i := 0 to 32
        invariant |missing| == 8 * i && forall m :: 0 <= m < |missing| ==> missing[m] == (ecmLen[m] < 0)
      {
        for j := 0 to 8
          invariant |missing| == 8 * i + j && forall m :: 0 <= m < |missing| ==> missing[m] == (ecmLen[m] < 0)
        {
          missing := missing + [ecmLen[8 * i + j] < 0];
        }
      }
      assert missing == Missing(Have());
      frame := Some(Ppr(missing));
      substate := SendPpr;
    }

    method OnCtc(speed: nat) returns (frame: Option<Frame>)
      requires Stored()
      modifies this`fallback, this`substate
      ensures Received(State(), frame) == EcmProtocol.OnCtc(old(State()), speed)
    {
      hide FromDcs;
      var fb := FromDcs(speed, 0);
      if fb >= 0 { fallback := fb; }
      substate := SendCtr;
      frame := Some(Ctr);
    }

    method OnEor() returns (frame: Option<Frame>)
      requires Valid()
      modifies this`rxbuf, this`substate
      ensures Received(State(), frame) == EcmProtocol.OnEor(old(State()))
    {
      hide EcmProtocol.AppendFrames;
      AppendFrames(if ecmFrames < 0 then 0 else ecmFrames);
      substate := SendErr;
      frame := Some(Err);
    }

    /** on_hdlc. */
    method OnHdlc(f: Frame) returns (frame: Option<Frame>)
      requires Valid() && (f.Pps? ==> f.last < 256)
      modifies this, ecmLen, ecmData
      ensures Stored() && ecmLen == old(ecmLen) && ecmData == old(ecmData)
      ensures Received(State(), frame) == ReceiverOnFrame(old(State()), f)
    {
      hide EcmProtocol.OnPps, EcmProtocol.OnCtc, EcmProtocol.OnEor, EcmProtocol.StoreFcd;
      frame := None;
      if substate.RecvEcm? && f.Fcd? {
        StoreFcd(f.no, f.data);
      } else if substate.RecvEcm? || substate.WaitPps? {
        match f {
          case Pps(post, page, block, last) => frame := OnPps(post, page, block, last);
          case Ctc(speed) => frame := OnCtc(speed);
          case Eor(_) => frame := OnEor();
          case Dcn => substate := ReceiverDone;
          case _ =>
        }
      } else if substate.WaitDcn? {
        if f.Dcn? {
          substate := ReceiverDone;
        } else if f.Pps? {
          reackReturn := WaitDcn;
          substate := Reack;
          frame := Some(Mcf);
        }
      }
    }

    method FinishPage()
      requires Stored()
      modifies this`pages, this`rxbuf
      ensures State() == EcmProtocol.FinishPage(old(State()))
    {
      pages := pages + [rxbuf];
      rxbuf := [];
    }

    /** on_status, step complete. */
    method OnStepComplete()
      requires Stored()
      modifies this, ecmLen
      ensures Stored() && ecmLen == old(ecmLen) && ecmData == old(ecmData)
      ensures State() == ReceiverStepDone(old(State()))
    {
      hide NoFrames;
      match substate
      case SendPpr => substate := RecvEcm;
      case SendCtr => substate := RecvEcm;
      case SendErr => substate := WaitPps;
      case SendMcf =>
        if lastPpsFcf2.Null? {
          substate := RecvEcm;
        } else {
          FinishPage();
          if lastPpsFcf2.Mps? {
            BeginRxPage();
            substate := RecvEcm;
          } else if lastPpsFcf2.Eom? {
            substate := SendDis;
          } else {
            substate := WaitDcn;
          }
        }
      case Reack => substate := if reackReturn.RecvEcm? then RecvEcm else WaitDcn;
      case _ =>
    }

    /** on_status, carrier down. */
    method OnCarrierDown()
      requires Stored()
      modifies this`substate
      ensures State() == ReceiverCarrierDown(old(State()))
    {
      if substate.RecvEcm? { substate := WaitPps; }
    }

    /** on_timer, expired. */
    method OnTimeout() returns (frame: Option<Frame>)
      requires Stored()
      modifies this`substate
      ensures Received(State(), frame) == ReceiverOnTimer(old(State()))
    {
      frame := None;
      if substate.RecvEcm? || substate.WaitPps? || substate.WaitDcn? {
        substate := ReceiverDone;
        frame := Some(Dcn);
      }
    }
  }
}
