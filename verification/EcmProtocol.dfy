/** Error correction mode (ITU-T T.30, Annex A; nf_t30.c): the sending and the receiving
    station as state machines that handle one event at a time. */
module EcmProtocol {
  import opened BitIo

  datatype Option<T> = None | Some(value: T)

  type Page = seq<Byte>

  const OCTETS: nat := 256
  const MAX_PAGE: nat := 64 * 1024 * 1024

  /** The post-message command inside a PPS or EOR. */
  datatype Post = Null | Mps | Eop | Eom

  /** Frames of both directions; a map's element is set for a missing frame. */
  datatype Frame =
    | Fcd(no: nat, data: seq<Byte>) | Rcp | Pps(post: Post, page: nat, block: nat, last: nat)
    | Ctc(speed: nat) | Eor(post: Post) | Dcn
    | Ppr(missing: seq<bool>) | Mcf | Rnr | Ctr | Err

  // ---------------------------------------------------------------- the fallback ladder

  const LADDER: nat := 8

  /** DCS bits 11-14 of each ladder entry, fastest first. */
  function Dcs(i: nat): (r: nat)
    requires i < LADDER
    ensures r < 0x40 && r % 4 == 0
  {
    match i
    case 0 => 0x20 case 1 => 0x28 case 2 => 0x24 case 3 => 0x04
    case 4 => 0x2C case 5 => 0x0C case 6 => 0x08 case _ => 0x00
  }

  /** fb_from_dcs_byte: the entry whose four speed bits the octet carries. */
  function FromDcs(speed: nat, i: nat): int
    requires i <= LADDER
    decreases LADDER - i
  {
    if i == LADDER then -1
    else if Dcs(i) == 4 * (speed / 4 % 16) then i
    else FromDcs(speed, i + 1)
  }

  /** The receiver recovers the ladder entry from the speed octet of a CTC. */
  lemma {:induction false} SpeedRoundTrip(fb: nat)
    requires fb < LADDER
    ensures FromDcs(Dcs(fb), 0) == fb
  {
    FromDcsFinds(fb, 0);
  }

  lemma {:induction false} FromDcsFinds(fb: nat, i: nat)
    requires i <= fb < LADDER
    ensures FromDcs(Dcs(fb), i) == fb
    decreases fb - i
  {
    if i < fb { FromDcsFinds(fb, i + 1); }
  }

  /** First entry from `i` on whose modem is allowed. */
  function NextAllowed(allowed: seq<bool>, i: nat): (r: int)
    requires |allowed| == LADDER
    ensures r >= 0 ==> i <= r < LADDER && allowed[r]
    ensures r < 0 ==> forall j :: i <= j < LADDER ==> !allowed[j]
    decreases LADDER - i
  {
    if i >= LADDER then -1 else if allowed[i] then i else NextAllowed(allowed, i + 1)
  }

  // ---------------------------------------------------------------- the sender

  datatype SendState =
    | SendEcm | SendPps | WaitPpsResponse | SendCtc | WaitCtr | SendEor | WaitEor | SendDcn | SenderDone(ok: bool)

  datatype Sender = Sender(
    sub: SendState, page: nat, base: nat, block: nat, frames: nat, send: seq<bool>,
    cursor: nat, rcpLeft: nat, burst: nat, atPageEnd: bool, step: Post,
    pprCount: nat, ctcRetries: nat, postRetries: nat, fallback: nat, v34: bool)

  /** A sender's new state and what it puts on the line. */
  datatype Sent = Sent(s: Sender, out: Option<Frame>)

  /** The payload of frame `i` of a block: encoded octets, zeros behind the end. */
  function Payload(enc: Page, base: nat, i: nat): (d: seq<Byte>)
    ensures |d| == OCTETS
  {
    seq(OCTETS, o requires 0 <= o < OCTETS => if base + i * OCTETS + o < |enc| then enc[base + i * OCTETS + o] else 0)
  }

  /** ecm_build_block, for a block of at most `cap` frames. */
  function BuildBlock(enc: Page, s: Sender, cap: nat): Sender
    requires s.base <= |enc| && 1 <= cap <= 256 && |s.send| == 256
  {
    var remaining := |enc| - s.base;
    var octets := if remaining < cap * OCTETS then remaining else cap * OCTETS;
    var n := (octets + OCTETS - 1) / OCTETS;
    var frames := if n < 1 then 1 else n;
    s.(frames := frames, send := seq(256, i requires 0 <= i < 256 => i < frames || s.send[i]),
       atPageEnd := s.base + octets >= |enc|, pprCount := 0)
  }

  function StartBurst(s: Sender): Sender {
    s.(cursor := 0, rcpLeft := 3, burst := 0, sub := SendEcm)
  }

  /** begin_ecm_image_tx. */
  function BeginPage(doc: seq<Page>, s: Sender, cap: nat): Sender
    requires s.page < |doc| && 1 <= cap <= 256 && |s.send| == 256
  {
    StartBurst(BuildBlock(doc[s.page],
      s.(block := 0, base := 0, step := if s.page + 1 < |doc| then Mps else Eop), cap))
  }

  /** First frame from `i` on that is to be sent. */
  function NextToSend(send: seq<bool>, frames: nat, i: nat): (r: nat)
    requires i <= frames <= |send|
    ensures i <= r <= frames && (r < frames ==> send[r])
    ensures forall j :: i <= j < r ==> !send[j]
    decreases frames - i
  {
    if i == frames || send[i] then i else NextToSend(send, frames, i + 1)
  }

  /** on_get_frame: the frames marked for sending, then three RCPs, then nothing. */
  function GetFrame(enc: Page, s: Sender): Sent
    requires s.cursor <= s.frames <= |s.send|
  {
    var i := NextToSend(s.send, s.frames, s.cursor);
    if i < s.frames then Sent(s.(cursor := i + 1, burst := s.burst + 1), Some(Fcd(i, Payload(enc, s.base, i))))
    else if s.rcpLeft > 0 then Sent(s.(cursor := i, rcpLeft := s.rcpLeft - 1), Some(Rcp))
    else Sent(s.(cursor := i), None)
  }

  function PostOf(s: Sender): Post {
    if s.atPageEnd then s.step else Null
  }

  function PutPps(s: Sender): Sent {
    Sent(s.(sub := SendPps),
         Some(Pps(PostOf(s), s.page % 256, s.block % 256, if s.burst > 0 then (s.burst - 1) % 256 else 0)))
  }

  function PutCtc(s: Sender): Sent
    requires s.fallback < LADDER
  {
    Sent(s.(sub := SendCtc), Some(Ctc(Dcs(s.fallback))))
  }

  function PutEor(s: Sender): Sent {
    Sent(s.(sub := SendEor), Some(Eor(PostOf(s))))
  }

  function Disconnect(s: Sender): Sent {
    Sent(s.(sub := SenderDone(false)), Some(Dcn))
  }

  /** ecm_apply_ppr: a set bit asks for the frame again; a short map is ignored. */
  function ApplyPpr(s: Sender, missing: seq<bool>): Sender
    requires s.frames <= |s.send| == 256
  {
    if |missing| < 256 then s
    else s.(send := seq(256, i requires 0 <= i < 256 => if i < s.frames then missing[i] else s.send[i]))
  }

  /** A PPR: resend the missing frames, at the fourth in a row one modem step lower, at the
      lowest step give the block up. */
  function OnPpr(s0: Sender, missing: seq<bool>, allowed: seq<bool>): Sent
    requires s0.frames <= |s0.send| == 256 && |allowed| == LADDER
  {
    var s := ApplyPpr(s0, missing).(pprCount := s0.pprCount + 1);
    if s.v34 then (if s.pprCount > 16 then Disconnect(s) else Sent(StartBurst(s), None))
    else if s.pprCount >= 4 then
      var next := NextAllowed(allowed, s.fallback + 1);
      if next >= 0 then PutCtc(s.(fallback := next, pprCount := 0, ctcRetries := 0)) else PutEor(s)
    else Sent(StartBurst(s), None)
  }

  /** An MCF: next block, next page, or the end. */
  function OnMcf(doc: seq<Page>, s: Sender, cap: nat): Sent
    requires s.page < |doc| && |s.send| == 256 && 1 <= cap <= 256
    requires !s.atPageEnd ==> s.base + s.frames * OCTETS <= |doc[s.page]|
    requires s.atPageEnd && s.step.Mps? ==> s.page + 1 < |doc|
  {
    if !s.atPageEnd then
      Sent(StartBurst(BuildBlock(doc[s.page], s.(base := s.base + s.frames * OCTETS, block := s.block + 1), cap)), None)
    else if s.step.Mps? then Sent(BeginPage(doc, s.(page := s.page + 1), cap), None)
    else Sent(s.(sub := SendDcn), Some(Dcn))
  }

  /** What the event handlers need of a sender. */
  predicate Able(doc: seq<Page>, s: Sender) {
    && s.page < |doc| && |s.send| == 256 && s.cursor <= s.frames <= 256 && s.fallback < LADDER
    && s.base <= |doc[s.page]|
    && (!s.atPageEnd ==> s.base + s.frames * OCTETS <= |doc[s.page]|)
    && (s.step.Mps? ==> s.page + 1 < |doc|)
  }

  /** on_hdlc while sending. */
  function SenderOnFrame(doc: seq<Page>, s: Sender, f: Frame, cap: nat, allowed: seq<bool>): Sent
    requires Able(doc, s) && 1 <= cap <= 256 && |allowed| == LADDER
  {
    match s.sub
    case WaitPpsResponse =>
      (match f
       case Mcf => OnMcf(doc, s, cap)
       case Ppr(missing) => OnPpr(s, missing, allowed)
       case Rnr => PutPps(s)
       case _ => Sent(s, None))
    case WaitCtr => if f.Ctr? then Sent(StartBurst(s), None) else Sent(s, None)
    case WaitEor => if f.Err? then Disconnect(s) else Sent(s, None)
    case _ => Sent(s, None)
  }

  /** on_status, step complete. */
  function SenderStepDone(s: Sender): Sent {
    match s.sub
    case SendEcm => PutPps(s.(postRetries := 0))
    case SendPps => Sent(s.(sub := WaitPpsResponse), None)
    case SendCtc => Sent(s.(sub := WaitCtr), None)
    case SendEor => Sent(s.(sub := WaitEor), None)
    case SendDcn => Sent(s.(sub := SenderDone(true)), None)
    case _ => Sent(s, None)
  }

  /** on_timer in a waiting state: three repetitions, then a disconnect. */
  function SenderOnTimer(s: Sender): Sent
    requires s.fallback < LADDER
  {
    match s.sub
    case WaitPpsResponse => if s.postRetries < 3 then PutPps(s.(postRetries := s.postRetries + 1)) else Disconnect(s)
    case WaitCtr => if s.ctcRetries < 3 then PutCtc(s.(ctcRetries := s.ctcRetries + 1)) else Disconnect(s)
    case WaitEor => Disconnect(s)
    case _ => Sent(s, None)
  }

  // ---------------------------------------------------------------- the receiver

  datatype ReceiveState =
    | RecvEcm | WaitPps | SendPpr | SendMcf | SendCtr | SendErr | Reack | WaitDcn | SendDis | ReceiverDone

  /** `have` holds the payloads of the current block (ecm_len and ecm_data); `finished` the
      pages decoded and written. */
  datatype Receiver = Receiver(
    sub: ReceiveState, have: seq<Option<seq<Byte>>>, frames: int, buf: seq<Byte>, finished: seq<Page>,
    ackedPage: int, ackedBlock: int, lastPost: Post, reackReturn: ReceiveState, fallback: nat)

  datatype Received = Received(r: Receiver, out: Option<Frame>)

  function NoFrames(): (h: seq<Option<seq<Byte>>>)
    ensures |h| == 256
  {
    seq(256, _ => None)
  }

  function BeginRxPage(r: Receiver): Receiver {
    r.(have := NoFrames(), frames := -1, buf := [])
  }

  /** ecm_store_fcd. */
  function StoreFcd(r: Receiver, no: nat, data: seq<Byte>): Receiver
    requires |r.have| == 256
  {
    if no > 255 then r
    else r.(have := r.have[no := Some(if |data| > OCTETS then data[..OCTETS] else data)])
  }

  /** ecm_rx_append: data that would exceed the page limit are dropped. */
  function Append(buf: seq<Byte>, d: seq<Byte>): seq<Byte> {
    if |buf| + |d| > MAX_PAGE then buf else buf + d
  }

  /** Appends the payloads present among the first `n`. */
  function AppendFrames(buf: seq<Byte>, have: seq<Option<seq<Byte>>>, n: nat): seq<Byte>
    requires n <= |have|
  {
    if n == 0 then buf
    else
      var b := AppendFrames(buf, have, n - 1);
      if have[n - 1].Some? then Append(b, have[n - 1].value) else b
  }

  predicate HasAll(have: seq<Option<seq<Byte>>>, n: int) {
    forall i :: 0 <= i < n && i < |have| ==> have[i].Some?
  }

  function Missing(have: seq<Option<seq<Byte>>>): (m: seq<bool>)
    ensures |m| == |have|
  {
    seq(|have|, i requires 0 <= i < |have| => have[i].None?)
  }

  /** ecm_process_pps. */
  function OnPps(r0: Receiver, post: Post, page: nat, block: nat, last: nat): Received
    requires |r0.have| == 256 && r0.frames <= 256 && last < 256
  {
    if page == r0.ackedPage && block == r0.ackedBlock then
      Received(r0.(reackReturn := RecvEcm, sub := Reack), Some(Mcf))
    else
      var r := r0.(frames := if r0.frames < 0 then last + 1 else r0.frames, lastPost := post);
      if HasAll(r.have, r.frames) then
        Received(r.(buf := AppendFrames(r.buf, r.have, r.frames), have := NoFrames(), frames := -1,
                    ackedPage := page, ackedBlock := block, sub := SendMcf), Some(Mcf))
      else Received(r.(sub := SendPpr), Some(Ppr(Missing(r.have))))
  }

  /** ecm_process_ctc. */
  function OnCtc(r: Receiver, speed: nat): Received {
    var fb := FromDcs(speed, 0);
    Received(r.(fallback := if fb >= 0 then fb else r.fallback, sub := SendCtr), Some(Ctr))
  }

  /** ecm_process_eor. */
  function OnEor(r: Receiver): Received
    requires |r.have| == 256 && r.frames <= 256
  {
    Received(r.(buf := AppendFrames(r.buf, r.have, if r.frames < 0 then 0 else r.frames), sub := SendErr), Some(Err))
  }

  /** on_hdlc while receiving. */
  function ReceiverOnFrame(r: Receiver, f: Frame): Received
    requires |r.have| == 256 && r.frames <= 256 && (f.Pps? ==> f.last < 256)
  {
    match r.sub
    case RecvEcm => if f.Fcd? then Received(StoreFcd(r, f.no, f.data), None) else OnCommand(r, f)
    case WaitPps => OnCommand(r, f)
    case WaitDcn =>
      if f.Dcn? then Received(r.(sub := ReceiverDone), None)
      else if f.Pps? then Received(r.(reackReturn := WaitDcn, sub := Reack), Some(Mcf))
      else Received(r, None)
    case _ => Received(r, None)
  }

  function OnCommand(r: Receiver, f: Frame): Received
    requires |r.have| == 256 && r.frames <= 256 && (f.Pps? ==> f.last < 256)
  {
    match f
    case Pps(post, page, block, last) => OnPps(r, post, page, block, last)
    case Ctc(speed) => OnCtc(r, speed)
    case Eor(_) => OnEor(r)
    case Dcn => Received(r.(sub := ReceiverDone), None)
    case _ => Received(r, None)
  }

  /** ecm_finish_page: the page is decoded and written, the buffer emptied. */
  function FinishPage(r: Receiver): Receiver {
    r.(finished := r.finished + [r.buf], buf := [])
  }

  /** on_status, step complete. */
  function ReceiverStepDone(r: Receiver): Receiver {
    match r.sub
    case SendPpr => r.(sub := RecvEcm)
    case SendCtr => r.(sub := RecvEcm)
    case SendErr => r.(sub := WaitPps)
    case SendMcf =>
      (match r.lastPost
       case Null => r.(sub := RecvEcm)
       case Mps => BeginRxPage(FinishPage(r)).(sub := RecvEcm)
       case Eom => FinishPage(r).(sub := SendDis)
       case Eop => FinishPage(r).(sub := WaitDcn))
    case Reack => r.(sub := if r.reackReturn.RecvEcm? then RecvEcm else WaitDcn)
    case _ => r
  }

  /** on_status, carrier down: the block is over, its PPS follows. */
  function ReceiverCarrierDown(r: Receiver): Receiver {
    if r.sub.RecvEcm? then r.(sub := WaitPps) else r
  }

  /** on_timer in a listening state: a disconnect. */
  function ReceiverOnTimer(r: Receiver): Received {
    if r.sub.RecvEcm? || r.sub.WaitPps? || r.sub.WaitDcn? then Received(r.(sub := ReceiverDone), Some(Dcn)) else Received(r, None)
  }

  /** A station that is sending does not hear. */
  predicate Listening(r: Receiver) {
    r.sub.RecvEcm? || r.sub.WaitPps? || r.sub.WaitDcn? || r.sub.ReceiverDone?
  }

  predicate Waiting(s: Sender) {
    s.sub.WaitPpsResponse? || s.sub.WaitCtr? || s.sub.WaitEor? || s.sub.SenderDone?
  }

  // ---------------------------------------------------------------- both over a half-duplex line

  /** At most one frame is under way. */
  datatype Wire = Quiet | Down(f: Frame) | Up(f: Frame)

  datatype System = System(s: Sender, r: Receiver, wire: Wire)

  /** `Next` streams the next high-speed frame; `Lose` destroys the frame under way; timers
      run out only on a quiet line. */
  datatype Event =
    | StreamFrame | SenderStep | SenderTimer | Deliver(cap: nat) | Lose
    | ReceiverStep | CarrierDown | ReceiverTimer

  function PutDown(out: Option<Frame>): Wire {
    if out.Some? then Down(out.value) else Quiet
  }

  function PutUp(out: Option<Frame>): Wire {
    if out.Some? then Up(out.value) else Quiet
  }

  predicate Enabled(sys: System, e: Event) {
    match e
    case StreamFrame => sys.s.sub.SendEcm? && sys.wire.Quiet?
    case SenderStep => !sys.s.sub.SendEcm?
    case SenderTimer => sys.wire.Quiet? && Waiting(sys.s)
    case Deliver(cap) => 1 <= cap <= 256 && ((sys.wire.Down? && Listening(sys.r)) || (sys.wire.Up? && Waiting(sys.s)))
    case Lose => true
    case ReceiverStep => true
    case CarrierDown => true
    case ReceiverTimer => sys.wire.Quiet?
  }

  predicate Runnable(doc: seq<Page>, sys: System) {
    Able(doc, sys.s) && |sys.r.have| == 256 && sys.r.frames <= 256 && (sys.wire.Down? && sys.wire.f.Pps? ==> sys.wire.f.last < 256)
  }

  /** One event.  Streaming past the last frame completes the step and sends the PPS. */
  function Happen(doc: seq<Page>, allowed: seq<bool>, sys: System, e: Event): System
    requires Runnable(doc, sys) && |allowed| == LADDER && Enabled(sys, e)
  {
    match e
    case StreamFrame =>
      var t := GetFrame(doc[sys.s.page], sys.s);
      if t.out.Some? then sys.(s := t.s, wire := PutDown(t.out))
      else var u := SenderStepDone(t.s); sys.(s := u.s, wire := PutDown(u.out))
    case SenderStep => sys.(s := SenderStepDone(sys.s).s)
    case SenderTimer => var t := SenderOnTimer(sys.s); sys.(s := t.s, wire := PutDown(t.out))
    case Deliver(cap) =>
      if sys.wire.Down? then var t := ReceiverOnFrame(sys.r, sys.wire.f); sys.(r := t.r, wire := PutUp(t.out))
      else var t := SenderOnFrame(doc, sys.s, sys.wire.f, cap, allowed); sys.(s := t.s, wire := PutDown(t.out))
    case Lose => sys.(wire := Quiet)
    case ReceiverStep => sys.(r := ReceiverStepDone(sys.r))
    case CarrierDown => sys.(r := ReceiverCarrierDown(sys.r))
    case ReceiverTimer => var t := ReceiverOnTimer(sys.r); sys.(r := t.r, wire := PutUp(t.out))
  }

  /** Both stations at the start of the first page. */
  function Start(doc: seq<Page>, cap: nat, fallback: nat, v34: bool): System
    requires |doc| > 0 && 1 <= cap <= 256 && fallback < LADDER
  {
    System(
      BeginPage(doc, Sender(SendEcm, 0, 0, 0, 0, seq(256, _ => false), 0, 0, 0, false, Eop, 0, 0, 0, fallback, v34), cap),
      Receiver(RecvEcm, NoFrames(), -1, [], [], -1, -1, Null, RecvEcm, fallback),
      Quiet)
  }
}
