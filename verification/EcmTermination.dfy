/** The sender always comes to an end: whatever is received, lost or timed out, each block
    takes a bounded number of bursts at each modem rate, and every event that changes the
    sender's state brings it closer to the end of the call.  A peer that keeps answering RNR
    is the exception. */
module EcmTermination {
  import opened EcmProtocol
  import opened EcmDelivery

  /** What can happen to a sender; frames heard are arbitrary. */
  datatype Input = Stream | Step | Timeout | Hear(f: Frame, cap: nat)

  predicate Sensible(s: Sender, i: Input) {
    match i
    case Stream => s.sub.SendEcm?
    case Step => !s.sub.SendEcm?
    case Timeout => Waiting(s)
    case Hear(f, cap) => 1 <= cap <= 256 && Waiting(s)
  }

  function Act(doc: seq<Page>, allowed: seq<bool>, s: Sender, i: Input): Sender
    requires Able(doc, s) && |allowed| == LADDER && Sensible(s, i)
  {
    match i
    case Stream =>
      var t := GetFrame(doc[s.page], s);
      if t.out.Some? then t.s else SenderStepDone(t.s).s
    case Step => SenderStepDone(s).s
    case Timeout => SenderOnTimer(s).s
    case Hear(f, cap) => SenderOnFrame(doc, s, f, cap, allowed).s
  }

  const MAX_BURSTS: nat := 4
  const MAX_BURSTS_V34: nat := 17

  function Limit(s: Sender): nat {
    if s.v34 then MAX_BURSTS_V34 else MAX_BURSTS
  }

  /** The counters stay in range; only a sender about to stop has used its PPRs up. */
  ghost predicate Counting(doc: seq<Page>, s: Sender) {
    && Placed(doc, s)
    && s.rcpLeft <= 3 && s.ctcRetries <= 3 && s.postRetries <= 3
    && s.pprCount <= Limit(s)
    && (s.sub.SendEcm? || Polling(s) || Falling(s) ==> s.pprCount < Limit(s))
    && (Falling(s) ==> s.pprCount == 0)
  }

  // ---------------------------------------------------------------- the measure

  function FramesOf(doc: seq<Page>, p: nat): nat
    requires p <= |doc|
    decreases |doc| - p
  {
    if p == |doc| then 0 else PaddedLength(|doc[p]|) / 256 + FramesOf(doc, p + 1)
  }

  /** Frames of the document not yet acknowledged. */
  function FramesLeft(doc: seq<Page>, s: Sender): (n: int)
    requires s.page < |doc|
  {
    FramesOf(doc, s.page) - s.base / 256
  }

  function Phase(s: Sender): int {
    match s.sub
    case SendCtc => 1901 + 2 * (3 - s.ctcRetries)
    case WaitCtr => 1900 + 2 * (3 - s.ctcRetries)
    case SendEcm => 1000 + (s.frames - s.cursor) + s.rcpLeft
    case SendPps => 101 + 2 * (3 - s.postRetries)
    case WaitPpsResponse => 100 + 2 * (3 - s.postRetries)
    case SendEor => 40
    case WaitEor => 30
    case SendDcn => 20
    case SenderDone(_) => 0
  }

  /** Frames left, then ladder entries left, then PPRs left, then the phase of the attempt. */
  function Measure(doc: seq<Page>, s: Sender): int
    requires s.page < |doc|
  {
    ((FramesLeft(doc, s) * 9 + (LADDER - s.fallback)) * 18 + (17 - s.pprCount)) * 2000 + Phase(s)
  }

  lemma MeasureBounds(doc: seq<Page>, s: Sender)
    requires Counting(doc, s)
    ensures FramesLeft(doc, s) >= s.frames && 0 <= Phase(s) < 2000 && 0 <= 17 - s.pprCount < 18 && 0 <= LADDER - s.fallback < 9
    ensures Measure(doc, s) >= 0
  {
  }

  /** A later position, entry, count or phase, in this order of importance, measures less. */
  lemma MeasureOrder(doc: seq<Page>, s: Sender, t: Sender)
    requires Counting(doc, s) && Counting(doc, t)
    requires || FramesLeft(doc, t) < FramesLeft(doc, s)
             || (FramesLeft(doc, t) == FramesLeft(doc, s)
                 && (|| t.fallback > s.fallback
                     || (t.fallback == s.fallback
                         && (t.pprCount > s.pprCount || (t.pprCount == s.pprCount && Phase(t) < Phase(s))))))
    ensures Measure(doc, t) < Measure(doc, s)
  {
    MeasureBounds(doc, s);
    MeasureBounds(doc, t);
  }

  // ---------------------------------------------------------------- every event counts down

  /** An event that changes a sender whose peer is not busy brings it nearer to its end. */
  lemma EventCountsDown(doc: seq<Page>, allowed: seq<bool>, s: Sender, i: Input)
    requires Counting(doc, s) && |allowed| == LADDER && Sensible(s, i)
    requires i.Hear? ==> !i.f.Rnr?
    ensures Able(doc, s)
    ensures var t := Act(doc, allowed, s, i); Counting(doc, t) && (t == s || Measure(doc, t) < Measure(doc, s))
  {
    hide Measure, FramesOf, Phase, Placed, PaddedLength, BuildBlock;
    PlacedIsAble(doc, s);
    match i
    case Stream => StreamCounts(doc, allowed, s);
    case Step => StepCounts(doc, allowed, s);
    case Timeout => TimeoutCounts(doc, allowed, s);
    case Hear(f, cap) => HearCounts(doc, allowed, s, f, cap);
  }

  lemma StaysPlaced(doc: seq<Page>, s: Sender, t: Sender)
    requires Placed(doc, s)
    requires t.page == s.page && t.base == s.base && t.frames == s.frames && t.atPageEnd == s.atPageEnd && t.step == s.step
    requires |t.send| == 256 && t.cursor <= t.frames && t.fallback < LADDER
    ensures Placed(doc, t) && FramesLeft(doc, t) == FramesLeft(doc, s)
  {
  }

  lemma StreamCounts(doc: seq<Page>, allowed: seq<bool>, s: Sender)
    requires Counting(doc, s) && |allowed| == LADDER && s.sub.SendEcm?
    ensures Able(doc, s)
    ensures var t := Act(doc, allowed, s, Stream); Counting(doc, t) && Measure(doc, t) < Measure(doc, s)
  {
    hide Measure, FramesLeft, PaddedLength, Payload, PutPps;
    var t := Act(doc, allowed, s, Stream);
    PollsAgain(GetFrame(doc[s.page], s).s.(postRetries := 0));
    StaysPlaced(doc, s, t);
    MeasureOrder(doc, s, t);
  }

  lemma StepCounts(doc: seq<Page>, allowed: seq<bool>, s: Sender)
    requires Counting(doc, s) && |allowed| == LADDER && !s.sub.SendEcm?
    ensures Able(doc, s)
    ensures var t := Act(doc, allowed, s, Step); Counting(doc, t) && (t == s || Measure(doc, t) < Measure(doc, s))
  {
    hide Measure, FramesLeft, PaddedLength, PutPps;
    var t := Act(doc, allowed, s, Step);
    StaysPlaced(doc, s, t);
    if t != s { MeasureOrder(doc, s, t); }
  }

  lemma TimeoutCounts(doc: seq<Page>, allowed: seq<bool>, s: Sender)
    requires Counting(doc, s) && |allowed| == LADDER && Waiting(s)
    ensures Able(doc, s)
    ensures var t := Act(doc, allowed, s, Timeout); Counting(doc, t) && (t == s || Measure(doc, t) < Measure(doc, s))
  {
    hide Measure, FramesLeft, PaddedLength, PutPps, Dcs;
    var t := Act(doc, allowed, s, Timeout);
    PollsAgain(s.(postRetries := s.postRetries + 1));
    StaysPlaced(doc, s, t);
    if t != s { MeasureOrder(doc, s, t); }
  }

  lemma HearCounts(doc: seq<Page>, allowed: seq<bool>, s: Sender, f: Frame, cap: nat)
    requires Counting(doc, s) && |allowed| == LADDER && Waiting(s) && 1 <= cap <= 256 && !f.Rnr?
    ensures Able(doc, s)
    ensures var t := Act(doc, allowed, s, Hear(f, cap)); Counting(doc, t) && (t == s || Measure(doc, t) < Measure(doc, s))
  {
    hide Measure, FramesLeft, PaddedLength, Placed, OnMcf, OnPpr;
    PlacedIsAble(doc, s);
    var t := Act(doc, allowed, s, Hear(f, cap));
    if s.sub.WaitPpsResponse? && f.Mcf? {
      McfCounts(doc, s, cap);
    } else if s.sub.WaitPpsResponse? && f.Ppr? {
      PprCounts(doc, allowed, s, f.missing);
    } else if t != s {
      StaysPlaced(doc, s, t);
      MeasureOrder(doc, s, t);
    }
  }

  lemma PlacedIsAble(doc: seq<Page>, s: Sender)
    requires Placed(doc, s)
    ensures Able(doc, s)
  {
  }

  lemma PprCounts(doc: seq<Page>, allowed: seq<bool>, s: Sender, missing: seq<bool>)
    requires Counting(doc, s) && |allowed| == LADDER && s.sub.WaitPpsResponse?
    ensures Able(doc, s)
    ensures var t := OnPpr(s, missing, allowed).s; Counting(doc, t) && Measure(doc, t) < Measure(doc, s)
  {
    hide Measure, FramesLeft, PaddedLength, Dcs;
    var t := OnPpr(s, missing, allowed).s;
    StaysPlaced(doc, s, t);
    MeasureOrder(doc, s, t);
  }

  lemma McfCounts(doc: seq<Page>, s: Sender, cap: nat)
    requires Counting(doc, s) && s.sub.WaitPpsResponse? && 1 <= cap <= 256
    ensures Able(doc, s)
    ensures var t := OnMcf(doc, s, cap).s; Counting(doc, t) && Measure(doc, t) < Measure(doc, s)
  {
    hide Measure, BuildBlock;
    var t := OnMcf(doc, s, cap).s;
    if !s.atPageEnd {
      var u := s.(base := s.base + s.frames * OCTETS, block := s.block + 1);
      BlockEnds(doc, s);
      BlockBuilt(doc, u, cap);
      BuiltCounters(doc, u, cap);
    } else if s.step.Mps? {
      var u := s.(page := s.page + 1, block := 0, base := 0, step := if s.page + 1 + 1 < |doc| then Mps else Eop);
      BlockBuilt(doc, u, cap);
      BuiltCounters(doc, u, cap);
    }
    MeasureOrder(doc, s, t);
  }

  lemma BuiltCounters(doc: seq<Page>, u: Sender, cap: nat)
    requires u.page < |doc| && |u.send| == 256 && u.base <= |doc[u.page]| && 1 <= cap <= 256
    ensures var t := StartBurst(BuildBlock(doc[u.page], u, cap));
            && t.pprCount == 0 && t.rcpLeft == 3 && t.cursor == 0 && t.ctcRetries == u.ctcRetries && t.postRetries == u.postRetries
            && t.v34 == u.v34 && t.fallback == u.fallback && t.sub.SendEcm? && t.page == u.page && t.base == u.base && t.block == u.block
  {
  }

  lemma StartCounts(doc: seq<Page>, cap: nat, fallback: nat, v34: bool)
    requires DocOk(doc) && 1 <= cap <= 256 && fallback < LADDER
    ensures Counting(doc, Start(doc, cap, fallback, v34).s)
  {
    var z := Sender(SendEcm, 0, 0, 0, 0, seq(256, _ => false), 0, 0, 0, false, if 0 + 1 < |doc| then Mps else Eop, 0, 0, 0, fallback, v34);
    BlockBuilt(doc, z, cap);
    assert Start(doc, cap, fallback, v34).s == StartBurst(BuildBlock(doc[0], z, cap));
  }

  // ---------------------------------------------------------------- runs of a sender

  ghost predicate IsSenderRun(doc: seq<Page>, allowed: seq<bool>, inputs: seq<Input>, run: seq<Sender>)
    requires |allowed| == LADDER
  {
    && |run| == |inputs| + 1
    && forall i :: 0 <= i < |inputs| ==>
         Able(doc, run[i]) && Sensible(run[i], inputs[i]) && run[i + 1] == Act(doc, allowed, run[i], inputs[i])
  }

  /** Events that changed the sender. */
  function Changes(run: seq<Sender>, n: nat): nat
    requires n < |run|
  {
    if n == 0 then 0 else Changes(run, n - 1) + (if run[n] == run[n - 1] then 0 else 1)
  }

  lemma {:induction false} ChangesAreBounded(doc: seq<Page>, allowed: seq<bool>, inputs: seq<Input>, run: seq<Sender>, n: nat)
    requires |allowed| == LADDER && IsSenderRun(doc, allowed, inputs, run) && Counting(doc, run[0]) && n < |run|
    requires forall i :: 0 <= i < |inputs| ==> (inputs[i].Hear? ==> !inputs[i].f.Rnr?)
    ensures Counting(doc, run[n]) && Changes(run, n) + Measure(doc, run[n]) <= Measure(doc, run[0])
  {
    hide Measure, Counting, Act, Sensible;
    if n > 0 {
      ChangesAreBounded(doc, allowed, inputs, run, n - 1);
      EventCountsDown(doc, allowed, run[n - 1], inputs[n - 1]);
      CountingHasPage(doc, run[n - 1]);
    } else {
      CountingHasPage(doc, run[0]);
    }
  }

  lemma CountingHasPage(doc: seq<Page>, s: Sender)
    requires Counting(doc, s)
    ensures s.page < |doc|
  {
  }

  /** The call ends: on any run without RNR the sender's state changes no more often than the
      measure of its start. */
  lemma SenderEnds(doc: seq<Page>, allowed: seq<bool>, cap: nat, fallback: nat, v34: bool, inputs: seq<Input>, run: seq<Sender>)
    requires DocOk(doc) && 1 <= cap <= 256 && fallback < LADDER && |allowed| == LADDER
    requires IsSenderRun(doc, allowed, inputs, run) && run[0] == Start(doc, cap, fallback, v34).s
    requires forall i :: 0 <= i < |inputs| ==> (inputs[i].Hear? ==> !inputs[i].f.Rnr?)
    ensures run[0].page < |doc| && Changes(run, |inputs|) <= Measure(doc, run[0])
  {
    hide Measure, Counting, IsSenderRun, Start, Act;
    StartCounts(doc, cap, fallback, v34);
    RunLength(doc, allowed, inputs, run);
    ChangesAreBounded(doc, allowed, inputs, run, |inputs|);
    CountingHasPage(doc, run[0]);
    CountingHasPage(doc, run[|inputs|]);
    MeasureBounds(doc, run[|inputs|]);
  }

  lemma RunLength(doc: seq<Page>, allowed: seq<bool>, inputs: seq<Input>, run: seq<Sender>)
    requires |allowed| == LADDER && IsSenderRun(doc, allowed, inputs, run)
    ensures |run| == |inputs| + 1
  {
  }

  /** An RNR brings the sender back to the very state it was heard in: polling a busy peer
      is unbounded. */
  lemma BusyPeerLoops(doc: seq<Page>, allowed: seq<bool>, s: Sender, cap: nat)
    requires Counting(doc, s) && |allowed| == LADDER && s.sub.WaitPpsResponse? && 1 <= cap <= 256
    ensures Able(doc, s)
    ensures var t := Act(doc, allowed, s, Hear(Rnr, cap));
            t != s && Able(doc, t) && Act(doc, allowed, t, Step) == s
  {
    hide Placed;
    PlacedIsAble(doc, s);
  }

  // ---------------------------------------------------------------- bursts per block and rate

  /** Which block at which rate. */
  datatype Attempt = Attempt(page: nat, block: nat, fallback: nat)

  function AttemptOf(s: Sender): Attempt {
    Attempt(s.page, s.block, s.fallback)
  }

  predicate Later(a: Attempt, b: Attempt) {
    a.page > b.page || (a.page == b.page && (a.block > b.block || (a.block == b.block && a.fallback > b.fallback)))
  }

  predicate Begins(s: Sender, t: Sender) {
    t.sub.SendEcm? && !s.sub.SendEcm?
  }

  /** Bursts begun at `a` up to state n of a run. */
  function Bursts(run: seq<Sender>, n: nat, a: Attempt): nat
    requires n < |run|
  {
    if n == 0 then (if run[0].sub.SendEcm? && AttemptOf(run[0]) == a then 1 else 0)
    else Bursts(run, n - 1, a) + (if Begins(run[n - 1], run[n]) && AttemptOf(run[n]) == a then 1 else 0)
  }

  /** Bursts that may have been begun at the sender's present attempt. */
  function Spent(s: Sender): nat {
    if s.sub.SendEcm? || s.sub.SendPps? || s.sub.WaitPpsResponse? then s.pprCount + 1
    else if s.sub.SendCtc? || s.sub.WaitCtr? then 0
    else Limit(s)
  }

  /** `t` follows `s`: the same attempt with one more burst at most accounted for, or a later
      one just begun. */
  ghost predicate Advances(s: Sender, t: Sender) {
    var begun := if Begins(s, t) then 1 else 0;
    && t.v34 == s.v34
    && if AttemptOf(t) == AttemptOf(s) then Spent(s) + begun <= Spent(t)
       else Later(AttemptOf(t), AttemptOf(s)) && begun <= Spent(t)
  }

  lemma AttemptsAdvance(doc: seq<Page>, allowed: seq<bool>, s: Sender, i: Input)
    requires Counting(doc, s) && |allowed| == LADDER && Sensible(s, i)
    ensures Able(doc, s)
    ensures var t := Act(doc, allowed, s, i); Counting(doc, t) && Spent(t) <= Limit(t) && Advances(s, t)
  {
    hide Measure, Placed, Advances, OnMcf, OnPpr, SenderOnTimer, SenderStepDone, GetFrame;
    PlacedIsAble(doc, s);
    var t := Act(doc, allowed, s, i);
    if i.Hear? && s.sub.WaitPpsResponse? && i.f.Rnr? {
      StaysPlaced(doc, s, t);
    } else {
      CountingKept(doc, allowed, s, i);
    }
    match i
    case Stream => StreamAdvances(doc, allowed, s);
    case Step => StepAdvances(s);
    case Timeout => TimeoutAdvances(doc, s);
    case Hear(f, cap) =>
      if s.sub.WaitPpsResponse? && f.Mcf? {
        McfAdvances(doc, s, cap);
      } else if s.sub.WaitPpsResponse? && f.Ppr? {
        PprAdvances(doc, allowed, s, f.missing);
      } else {
        OtherAdvances(doc, allowed, s, f, cap);
      }
  }

  lemma CountingKept(doc: seq<Page>, allowed: seq<bool>, s: Sender, i: Input)
    requires Counting(doc, s) && |allowed| == LADDER && Sensible(s, i)
    requires s.sub.WaitPpsResponse? ==> i.Hear? ==> !i.f.Rnr?
    ensures Able(doc, s) && Counting(doc, Act(doc, allowed, s, i))
  {
    hide Measure, Placed, Counting;
    if i.Hear? && i.f.Rnr? {
      EventCountsDown(doc, allowed, s, Hear(Rcp, i.cap));
    } else {
      EventCountsDown(doc, allowed, s, i);
    }
  }

  lemma StreamAdvances(doc: seq<Page>, allowed: seq<bool>, s: Sender)
    requires Able(doc, s) && |allowed| == LADDER && s.sub.SendEcm?
    ensures Advances(s, Act(doc, allowed, s, Stream))
  {
    hide Payload;
  }

  lemma StepAdvances(s: Sender)
    requires !s.sub.SendEcm? && (Polling(s) || Falling(s) ==> s.pprCount < Limit(s))
    ensures Advances(s, SenderStepDone(s).s)
  {
  }

  lemma TimeoutAdvances(doc: seq<Page>, s: Sender)
    requires Counting(doc, s) && Waiting(s)
    ensures s.fallback < LADDER && Advances(s, SenderOnTimer(s).s)
  {
    hide Placed, Dcs;
    PlacedIsAble(doc, s);
  }

  lemma OtherAdvances(doc: seq<Page>, allowed: seq<bool>, s: Sender, f: Frame, cap: nat)
    requires Able(doc, s) && Counting(doc, s) && |allowed| == LADDER && Waiting(s) && 1 <= cap <= 256
    requires s.sub.WaitPpsResponse? ==> !f.Mcf? && !f.Ppr?
    ensures Advances(s, SenderOnFrame(doc, s, f, cap, allowed).s)
  {
    hide Placed, OnMcf, OnPpr;
  }

  lemma PprAdvances(doc: seq<Page>, allowed: seq<bool>, s: Sender, missing: seq<bool>)
    requires Able(doc, s) && Counting(doc, s) && |allowed| == LADDER && s.sub.WaitPpsResponse?
    ensures Advances(s, OnPpr(s, missing, allowed).s)
  {
    hide Placed, Dcs;
  }

  lemma McfAdvances(doc: seq<Page>, s: Sender, cap: nat)
    requires Able(doc, s) && Counting(doc, s) && s.sub.WaitPpsResponse? && 1 <= cap <= 256
    ensures Advances(s, OnMcf(doc, s, cap).s)
  {
    hide Placed;
  }

  lemma {:induction false} BurstsAreBounded(doc: seq<Page>, allowed: seq<bool>, inputs: seq<Input>, run: seq<Sender>, n: nat, a: Attempt)
    requires |allowed| == LADDER && IsSenderRun(doc, allowed, inputs, run) && n < |run|
    requires Counting(doc, run[0]) && run[0].sub.SendEcm? && run[0].pprCount == 0
    ensures Counting(doc, run[n]) && run[n].v34 == run[0].v34 && Spent(run[n]) <= Limit(run[n])
    ensures Bursts(run, n, a) <= Limit(run[0])
    ensures a == AttemptOf(run[n]) ==> Bursts(run, n, a) <= Spent(run[n])
    ensures Later(a, AttemptOf(run[n])) ==> Bursts(run, n, a) == 0
  {
    hide Counting, Act, Sensible;
    if n > 0 {
      BurstsAreBounded(doc, allowed, inputs, run, n - 1, a);
      AttemptsAdvance(doc, allowed, run[n - 1], inputs[n - 1]);
      LimitIsSame(run[n], run[0]);
    }
  }

  lemma LimitIsSame(s: Sender, t: Sender)
    requires s.v34 == t.v34
    ensures Limit(s) == Limit(t)
  {
  }

  /** Whatever the peer answers, a block is sent in at most four bursts at each rate of the
      ladder, in at most seventeen over V.34. */
  lemma FourBurstsPerRate(doc: seq<Page>, allowed: seq<bool>, cap: nat, fallback: nat, v34: bool, inputs: seq<Input>, run: seq<Sender>, a: Attempt)
    requires DocOk(doc) && 1 <= cap <= 256 && fallback < LADDER && |allowed| == LADDER
    requires IsSenderRun(doc, allowed, inputs, run) && run[0] == Start(doc, cap, fallback, v34).s
    ensures |run| == |inputs| + 1 && Bursts(run, |inputs|, a) <= if v34 then 17 else 4
  {
    hide Counting, IsSenderRun, Act, Bursts, BuildBlock;
    StartCounts(doc, cap, fallback, v34);
    RunLength(doc, allowed, inputs, run);
    StartFresh(doc, cap, fallback, v34);
    BurstsAreBounded(doc, allowed, inputs, run, |inputs|, a);
  }

  lemma StartFresh(doc: seq<Page>, cap: nat, fallback: nat, v34: bool)
    requires |doc| > 0 && 1 <= cap <= 256 && fallback < LADDER
    ensures var s := Start(doc, cap, fallback, v34).s; s.sub.SendEcm? && s.pprCount == 0 && s.v34 == v34
  {
  }
}
