/** Caller and worker of `apps/audioplayers/bt_sco_chain_reframe.c` interleaved. Only the queue updates
    run under the lock; the length checks of the caller's write and read and of the worker's output
    write are separate, earlier steps. */
module ReframerRuns {
  import opened Reframer

  /** Inside `bt_sco_chain_reframe_tx_process`: idle, past the input check, about to check the output,
      past that check, about to signal. */
  datatype Caller = Idle | Writing(block: seq<seq<Pcm>>) | ToRead | Reading | ToSignal

  /** The worker: waiting for the signal, about to read a frame, holding one it has just read, holding
      the processed one, past the output check. */
  datatype Worker = Asleep | Fetch | Fetched(block: seq<seq<Pcm>>) | Holding(frame: seq<Pcm>) | Storing(frame: seq<Pcm>)

  /** `written`: input accepted so far; `taken`: input the worker has read; `drawn`: output taken from
      the output queue; `emitted`: everything returned to the caller. */
  datatype Log = Log(written: seq<seq<Pcm>>, taken: seq<seq<Pcm>>, drawn: seq<Pcm>, emitted: seq<Pcm>)

  /** Failed calls so far. */
  datatype Failures = Failures(inOverflow: bool, underflow: bool, dropped: bool, outOverflow: bool)

  datatype State = State(
    io: nat, inQ: seq<seq<Pcm>>, outQ: seq<Pcm>, signal: bool, caller: Caller, worker: Worker,
    log: Log, failed: Failures)

  datatype Step =
    | StartCall(block: seq<seq<Pcm>>) | CommitWrite | CheckRead | CommitRead | Signal
    | Wake | ReadFrame | CheckRoom | CheckStore | CommitStore

  ghost predicate Aligned(b: seq<seq<Pcm>>) {
    |b| == CHANNEL_QTY && forall ch | 0 <= ch < CHANNEL_QTY :: |b[ch]| == |b[0]|
  }

  function Append(a: seq<seq<Pcm>>, b: seq<seq<Pcm>>): seq<seq<Pcm>>
    requires |a| == |b| == CHANNEL_QTY
  {
    seq(CHANNEL_QTY, ch requires 0 <= ch < CHANNEL_QTY => a[ch] + b[ch])
  }

  function Take(a: seq<seq<Pcm>>, n: nat): seq<seq<Pcm>>
    requires |a| == CHANNEL_QTY && forall ch | 0 <= ch < CHANNEL_QTY :: n <= |a[ch]|
  {
    seq(CHANNEL_QTY, ch requires 0 <= ch < CHANNEL_QTY => a[ch][..n])
  }

  function Drop(a: seq<seq<Pcm>>, n: nat): seq<seq<Pcm>>
    requires |a| == CHANNEL_QTY && forall ch | 0 <= ch < CHANNEL_QTY :: n <= |a[ch]|
  {
    seq(CHANNEL_QTY, ch requires 0 <= ch < CHANNEL_QTY => a[ch][n..])
  }

  // The atomic steps. A step of a thread that is elsewhere does nothing.

  function StartCallStep(s: State, block: seq<seq<Pcm>>): State
    requires Shape(s)
  {
    if s.caller != Idle || !IsBlock(block, s.io) then s
    else if |s.inQ[0]| + s.io > QUEUE_BUF_PCM_NUM then
      s.(caller := ToRead, failed := s.failed.(inOverflow := true))
    else s.(caller := Writing(block))
  }

  function CommitWriteStep(s: State): State
    requires Shape(s)
  {
    if !s.caller.Writing? then s
    else s.(inQ := Append(s.inQ, s.caller.block), log := s.log.(written := Append(s.log.written, s.caller.block)),
            caller := ToRead)
  }

  function CheckReadStep(s: State): State {
    if s.caller != ToRead then s
    else if |s.outQ| < s.io then
      s.(caller := ToSignal, failed := s.failed.(underflow := true),
         log := s.log.(emitted := s.log.emitted + Silence(s.io)))
    else s.(caller := Reading)
  }

  function CommitReadStep(s: State): State {
    if s.caller != Reading || |s.outQ| < s.io then s
    else
      var pcm := s.outQ[..s.io];
      s.(outQ := s.outQ[s.io..], log := s.log.(drawn := s.log.drawn + pcm, emitted := s.log.emitted + pcm),
         caller := ToSignal)
  }

  function SignalStep(s: State): State {
    if s.caller != ToSignal then s else s.(caller := Idle, signal := true)
  }

  function WakeStep(s: State): State {
    if s.worker != Asleep || !s.signal then s else s.(worker := Fetch, signal := false)
  }

  function ReadFrameStep(s: State): State
    requires Shape(s)
  {
    if s.worker != Fetch then s
    else if |s.inQ[0]| < PROCESS_FRAME_LEN then s.(worker := Asleep)
    else
      var block := Take(s.inQ, PROCESS_FRAME_LEN);
      s.(worker := Fetched(block), inQ := Drop(s.inQ, PROCESS_FRAME_LEN),
         log := s.log.(taken := Append(s.log.taken, block)))
  }

  function CheckRoomStep(s: State): State
    requires Shape(s)
  {
    if !s.worker.Fetched? then s
    else if |s.outQ| + PROCESS_FRAME_LEN <= QUEUE_BUF_PCM_NUM then s.(worker := Holding(s.worker.block[CHANNEL_VP]))
    else s.(worker := Asleep, failed := s.failed.(dropped := true))
  }

  function CheckStoreStep(s: State): State {
    if !s.worker.Holding? then s
    else if |s.outQ| + PROCESS_FRAME_LEN > QUEUE_BUF_PCM_NUM then
      s.(worker := Fetch, failed := s.failed.(outOverflow := true))
    else s.(worker := Storing(s.worker.frame))
  }

  function CommitStoreStep(s: State): State {
    if !s.worker.Storing? then s else s.(outQ := s.outQ + s.worker.frame, worker := Fetch)
  }

  function Next(s: State, step: Step): State
    requires Shape(s)
  {
    match step
    case StartCall(block) => StartCallStep(s, block)
    case CommitWrite => CommitWriteStep(s)
    case CheckRead => CheckReadStep(s)
    case CommitRead => CommitReadStep(s)
    case Signal => SignalStep(s)
    case Wake => WakeStep(s)
    case ReadFrame => ReadFrameStep(s)
    case CheckRoom => CheckRoomStep(s)
    case CheckStore => CheckStoreStep(s)
    case CommitStore => CommitStoreStep(s)
  }

  ghost predicate Shape(s: State) {
    && Aligned(s.inQ) && Aligned(s.log.written) && Aligned(s.log.taken)
    && (s.caller.Writing? ==> IsBlock(s.caller.block, s.io))
    && (s.worker.Fetched? ==> IsBlock(s.worker.block, PROCESS_FRAME_LEN))
    && (s.worker.Holding? || s.worker.Storing? ==> |s.worker.frame| == PROCESS_FRAME_LEN)
  }

  ghost function Init(io: nat): State {
    var none := [[], [], [], []];
    State(io, none, Silence(PRE_CACHE_OUT_PCM), false, Idle, Asleep, Log(none, none, [], []),
          Failures(false, false, false, false))
  }

  // ---- The checks made outside the lock, and first-in first-out ----

  /** The voice samples the worker has read and not yet stored. */
  function InFlight(s: State): seq<Pcm>
    requires Shape(s)
  {
    match s.worker
    case Fetched(block) => block[CHANNEL_VP]
    case Holding(frame) => frame
    case Storing(frame) => frame
    case _ => []
  }

  /** A passed check is still good when the lock is taken: the other thread has only helped. */
  ghost predicate ChecksHold(s: State)
    requires Shape(s)
  {
    && |s.inQ[0]| <= QUEUE_BUF_PCM_NUM && |s.outQ| <= QUEUE_BUF_PCM_NUM
    && (s.caller.Writing? ==> |s.inQ[0]| + s.io <= QUEUE_BUF_PCM_NUM)
    && (s.caller == Reading ==> |s.outQ| >= s.io)
    && (s.worker.Storing? ==> |s.outQ| + PROCESS_FRAME_LEN <= QUEUE_BUF_PCM_NUM)
  }

  /** Channel by channel, the input read and the input queued are the input accepted. */
  ghost predicate InputOrdered(taken: seq<seq<Pcm>>, inQ: seq<seq<Pcm>>, written: seq<seq<Pcm>>) {
    && Aligned(taken) && Aligned(inQ) && Aligned(written)
    && forall ch | 0 <= ch < CHANNEL_QTY :: taken[ch] + inQ[ch] == written[ch]
  }

  /** What came out of the output queue, what is in it, and the frame in flight are the silence followed
      by the voice input read. */
  ghost predicate OutputOrdered(drawn: seq<Pcm>, outQ: seq<Pcm>, inFlight: seq<Pcm>, taken: seq<Pcm>) {
    drawn + outQ + inFlight == Silence(PRE_CACHE_OUT_PCM) + taken
  }

  ghost predicate InOrder(s: State)
    requires Shape(s)
  {
    && InputOrdered(s.log.taken, s.inQ, s.log.written)
    && (!s.failed.dropped && !s.failed.outOverflow ==>
          OutputOrdered(s.log.drawn, s.outQ, InFlight(s), s.log.taken[CHANNEL_VP]))
    && (!s.failed.underflow ==> s.log.emitted == s.log.drawn)
  }

  ghost predicate Inv(s: State) {
    Shape(s) && ChecksHold(s) && InOrder(s)
  }

  lemma StartCallKeepsInv(s: State, block: seq<seq<Pcm>>)
    requires Inv(s)
    ensures Inv(StartCallStep(s, block))
  {
    hide InOrder, Aligned, IsBlock;
    var t := StartCallStep(s, block);
    assert InFlight(t) == InFlight(s);
    SameQueues(s, t);
  }

  lemma SignalKeepsInv(s: State)
    requires Inv(s)
    ensures Inv(SignalStep(s))
  {
    hide InputOrdered, OutputOrdered, Aligned, IsBlock;
    assert InFlight(SignalStep(s)) == InFlight(s);
  }

  lemma WakeKeepsInv(s: State)
    requires Inv(s)
    ensures Inv(WakeStep(s))
  {
    hide InputOrdered, OutputOrdered, Aligned, IsBlock;
    assert InFlight(WakeStep(s)) == InFlight(s);
  }

  lemma CheckReadKeepsInv(s: State)
    requires Inv(s)
    ensures Inv(CheckReadStep(s))
  {
    hide InOrder, Aligned, IsBlock;
    var t := CheckReadStep(s);
    assert InFlight(t) == InFlight(s);
    SameQueues(s, t);
  }

  /** What the shared part of the invariant depends on. */
  lemma SameQueues(s: State, t: State)
    requires Shape(s) && InOrder(s)
    requires t.outQ == s.outQ && t.inQ == s.inQ
    requires t.log.drawn == s.log.drawn && t.log.taken == s.log.taken && t.log.written == s.log.written
    requires Shape(t)
    requires t.failed.dropped || t.failed.outOverflow ||
             (InFlight(t) == InFlight(s) && t.failed.dropped == s.failed.dropped
               && t.failed.outOverflow == s.failed.outOverflow)
    requires t.failed.underflow || (t.log.emitted == s.log.emitted && t.failed.underflow == s.failed.underflow)
    ensures InOrder(t)
  {
    hide InputOrdered, OutputOrdered, Aligned, IsBlock, InFlight;
  }

  lemma AppendBlock(taken: seq<seq<Pcm>>, inQ: seq<seq<Pcm>>, written: seq<seq<Pcm>>, b: seq<seq<Pcm>>)
    requires InputOrdered(taken, inQ, written) && Aligned(b)
    ensures InputOrdered(taken, Append(inQ, b), Append(written, b))
    ensures |Append(inQ, b)[0]| == |inQ[0]| + |b[0]|
  {
    forall ch | 0 <= ch < CHANNEL_QTY
      ensures taken[ch] + Append(inQ, b)[ch] == Append(written, b)[ch]
    {
      assert taken[ch] + (inQ[ch] + b[ch]) == (taken[ch] + inQ[ch]) + b[ch];
    }
  }

  lemma TakeBlock(taken: seq<seq<Pcm>>, inQ: seq<seq<Pcm>>, written: seq<seq<Pcm>>, n: nat)
    requires InputOrdered(taken, inQ, written) && n <= |inQ[0]|
    ensures IsBlock(Take(inQ, n), n) && |Drop(inQ, n)[0]| == |inQ[0]| - n
    ensures InputOrdered(Append(taken, Take(inQ, n)), Drop(inQ, n), written)
    ensures Append(taken, Take(inQ, n))[CHANNEL_VP] == taken[CHANNEL_VP] + Take(inQ, n)[CHANNEL_VP]
  {
    forall ch | 0 <= ch < CHANNEL_QTY
      ensures Append(taken, Take(inQ, n))[ch] + Drop(inQ, n)[ch] == written[ch]
    {
      assert inQ[ch] == inQ[ch][..n] + inQ[ch][n..];
    }
  }

  lemma CommitWriteKeepsInv(s: State)
    requires Inv(s)
    ensures Inv(CommitWriteStep(s))
  {
    if s.caller.Writing? {
      AppendBlock(s.log.taken, s.inQ, s.log.written, s.caller.block);
      assert InFlight(CommitWriteStep(s)) == InFlight(s);
      hide InputOrdered, OutputOrdered, Append, Silence;
    }
  }

  lemma CommitReadKeepsInv(s: State)
    requires Inv(s)
    ensures Inv(CommitReadStep(s))
  {
    if s.caller == Reading {
      hide InputOrdered, Append, Take, Drop, Silence;
      var t := CommitReadStep(s);
      assert InFlight(t) == InFlight(s);
      assert s.outQ == s.outQ[..s.io] + s.outQ[s.io..];
      assert t.log.drawn + t.outQ == s.log.drawn + s.outQ;
    }
  }

  lemma ReadFrameKeepsInv(s: State)
    requires Inv(s)
    ensures Inv(ReadFrameStep(s))
  {
    if s.worker == Fetch && |s.inQ[0]| >= PROCESS_FRAME_LEN {
      TakeBlock(s.log.taken, s.inQ, s.log.written, PROCESS_FRAME_LEN);
      hide InputOrdered, Append, Take, Drop, Silence;
      var t := ReadFrameStep(s);
      assert InFlight(s) == [] && InFlight(t) == Take(s.inQ, PROCESS_FRAME_LEN)[CHANNEL_VP];
      OutputTakes(s.log.drawn, s.outQ, s.log.taken[CHANNEL_VP], InFlight(t));
    } else {
      hide InputOrdered, OutputOrdered, Append, Take, Drop;
      assert InFlight(ReadFrameStep(s)) == InFlight(s);
    }
  }

  lemma OutputTakes(drawn: seq<Pcm>, outQ: seq<Pcm>, taken: seq<Pcm>, frame: seq<Pcm>)
    ensures OutputOrdered(drawn, outQ, [], taken) ==> OutputOrdered(drawn, outQ, frame, taken + frame)
  {
    hide Silence;
    if OutputOrdered(drawn, outQ, [], taken) {
      assert drawn + outQ == drawn + outQ + [];
      assert Silence(PRE_CACHE_OUT_PCM) + (taken + frame) == (Silence(PRE_CACHE_OUT_PCM) + taken) + frame;
    }
  }

  lemma CheckRoomKeepsInv(s: State)
    requires Inv(s)
    ensures Inv(CheckRoomStep(s))
  {
    hide InOrder, Aligned;
    var t := CheckRoomStep(s);
    assert t.failed.dropped || InFlight(t) == InFlight(s);
    SameQueues(s, t);
  }

  lemma CheckStoreKeepsInv(s: State)
    requires Inv(s)
    ensures Inv(CheckStoreStep(s))
  {
    hide InOrder, Aligned, IsBlock;
    var t := CheckStoreStep(s);
    assert t.failed.outOverflow || InFlight(t) == InFlight(s);
    SameQueues(s, t);
  }

  lemma CommitStoreKeepsInv(s: State)
    requires Inv(s)
    ensures Inv(CommitStoreStep(s))
  {
    hide InputOrdered, Silence, Aligned;
    if s.worker.Storing? {
      assert s.log.drawn + (s.outQ + s.worker.frame) + [] == s.log.drawn + s.outQ + s.worker.frame;
    }
  }

  lemma NextKeepsInv(s: State, step: Step)
    requires Inv(s)
    ensures Inv(Next(s, step))
  {
    hide Inv, StartCallStep, CommitWriteStep, CheckReadStep, CommitReadStep, SignalStep, WakeStep, ReadFrameStep,
         CheckRoomStep, CheckStoreStep, CommitStoreStep;
    match step {
      case StartCall(block) => StartCallKeepsInv(s, block);
      case CommitWrite => CommitWriteKeepsInv(s);
      case CheckRead => CheckReadKeepsInv(s);
      case CommitRead => CommitReadKeepsInv(s);
      case Signal => SignalKeepsInv(s);
      case Wake => WakeKeepsInv(s);
      case ReadFrame => ReadFrameKeepsInv(s);
      case CheckRoom => CheckRoomKeepsInv(s);
      case CheckStore => CheckStoreKeepsInv(s);
      case CommitStore => CommitStoreKeepsInv(s);
    }
  }

  ghost predicate Runs(s: State, steps: seq<Step>, t: State)
    decreases |steps|
  {
    if steps == [] then s == t else Shape(s) && Runs(Next(s, steps[0]), steps[1..], t)
  }

  lemma InitInv(io: nat)
    ensures Inv(Init(io))
  {
  }

  lemma {:induction false} RunKeepsInv(s: State, steps: seq<Step>, t: State)
    requires Inv(s) && Runs(s, steps, t)
    ensures Inv(t)
    decreases |steps|
  {
    hide Inv, Next;
    if steps == [] {
    } else {
      NextKeepsInv(s, steps[0]);
      RunKeepsInv(Next(s, steps[0]), steps[1..], t);
    }
  }

  /** First in, first out over every interleaving in which no frame is thrown away: output taken, output
      queue, frame in flight and voice input queue together are 640 zeros followed by the voice input
      accepted. On every channel the input queue holds the same stretch of its own input. */
  lemma {:induction false} ReframingIsFifo(io: nat, steps: seq<Step>, t: State)
    requires Runs(Init(io), steps, t)
    ensures Inv(t)
    ensures !t.failed.dropped && !t.failed.outOverflow ==>
              t.log.drawn + t.outQ + InFlight(t) + t.inQ[CHANNEL_VP] == Silence(640) + t.log.written[CHANNEL_VP]
    ensures forall ch | 0 <= ch < CHANNEL_QTY ::
              |t.log.taken[ch]| == |t.log.taken[0]| && t.inQ[ch] == t.log.written[ch][|t.log.taken[0]|..]
  {
    InitInv(io);
    RunKeepsInv(Init(io), steps, t);
    forall ch | 0 <= ch < CHANNEL_QTY
      ensures t.inQ[ch] == t.log.written[ch][|t.log.taken[0]|..]
    {
      assert t.log.written[ch] == t.log.taken[ch] + t.inQ[ch];
    }
    var a, b := t.log.drawn + t.outQ + InFlight(t), t.inQ[CHANNEL_VP];
    assert t.log.taken[CHANNEL_VP] + b == t.log.written[CHANNEL_VP];
    assert Silence(640) + t.log.taken[CHANNEL_VP] + b == Silence(640) + (t.log.taken[CHANNEL_VP] + b);
  }

  /** Every failure shows: a call whose block does not fit, a call that finds too little output, a frame for
      which there is no room when it is read, and one for which there is none when it is stored. */
  lemma FailuresShow(s: State, step: Step)
    requires Shape(s)
    ensures var t := Next(s, step);
      && t.io == s.io
      && t.failed.inOverflow == (s.failed.inOverflow || (step.StartCall? && s.caller == Idle
                                   && IsBlock(step.block, s.io) && |s.inQ[0]| + s.io > 1280))
      && t.failed.underflow == (s.failed.underflow || (step == CheckRead && s.caller == ToRead && |s.outQ| < s.io))
      && t.failed.dropped == (s.failed.dropped || (step == CheckRoom && s.worker.Fetched? && |s.outQ| + 320 > 1280))
      && t.failed.outOverflow == (s.failed.outOverflow || (step == CheckStore && s.worker.Holding?
                                    && |s.outQ| + 320 > 1280))
  {
    hide Append, Take, Drop, Silence, Aligned;
  }

  // ---- Balance ----

  /** Samples between the input check and the output check of a call. */
  function Extra(s: State): nat {
    if s.caller == ToRead || s.caller == Reading then s.io else 0
  }

  /** As long as no output was missing, nothing else has failed and the queues hold 640 samples, plus
      one IO frame between a call's write and its read. */
  ghost predicate Balanced(s: State) {
    && Inv(s) && (s.io == 120 || s.io == 240)
    && (!s.failed.underflow ==>
          && !s.failed.inOverflow && !s.failed.dropped && !s.failed.outOverflow
          && |s.outQ| + |InFlight(s)| + |s.inQ[0]| == PRE_CACHE_OUT_PCM + Extra(s))
  }

  lemma StartCallBalanced(s: State, block: seq<seq<Pcm>>)
    requires Balanced(s) && Inv(StartCallStep(s, block))
    ensures Balanced(StartCallStep(s, block))
  {
    hide ChecksHold, InOrder, Silence, Aligned;
  }

  lemma CommitWriteBalanced(s: State)
    requires Balanced(s) && Inv(CommitWriteStep(s))
    ensures Balanced(CommitWriteStep(s))
  {
    hide ChecksHold, InOrder, Silence;
  }

  lemma CheckReadBalanced(s: State)
    requires Balanced(s) && Inv(CheckReadStep(s))
    ensures Balanced(CheckReadStep(s))
  {
    hide ChecksHold, InOrder, Silence, Aligned, IsBlock;
  }

  lemma CommitReadBalanced(s: State)
    requires Balanced(s) && Inv(CommitReadStep(s))
    ensures Balanced(CommitReadStep(s))
  {
    hide ChecksHold, InOrder, Silence, Aligned, IsBlock;
  }

  lemma SignalBalanced(s: State)
    requires Balanced(s) && Inv(SignalStep(s))
    ensures Balanced(SignalStep(s))
  {
    hide ChecksHold, InOrder, Silence, Aligned, IsBlock;
  }

  lemma WakeBalanced(s: State)
    requires Balanced(s) && Inv(WakeStep(s))
    ensures Balanced(WakeStep(s))
  {
    hide ChecksHold, InOrder, Silence, Aligned, IsBlock;
  }

  lemma ReadFrameBalanced(s: State)
    requires Balanced(s) && Inv(ReadFrameStep(s))
    ensures Balanced(ReadFrameStep(s))
  {
    hide ChecksHold, InOrder, Silence;
  }

  lemma CheckRoomBalanced(s: State)
    requires Balanced(s) && Inv(CheckRoomStep(s))
    ensures Balanced(CheckRoomStep(s))
  {
    hide ChecksHold, InOrder, Silence, Aligned;
  }

  lemma CheckStoreBalanced(s: State)
    requires Balanced(s) && Inv(CheckStoreStep(s))
    ensures Balanced(CheckStoreStep(s))
  {
    hide ChecksHold, InOrder, Silence, Aligned, IsBlock;
  }

  lemma CommitStoreBalanced(s: State)
    requires Balanced(s) && Inv(CommitStoreStep(s))
    ensures Balanced(CommitStoreStep(s))
  {
    hide ChecksHold, InOrder, Silence, Aligned, IsBlock;
  }

  lemma NextKeepsBalance(s: State, step: Step)
    requires Balanced(s)
    ensures Balanced(Next(s, step))
  {
    NextKeepsInv(s, step);
    hide Balanced, Inv, StartCallStep, CommitWriteStep, CheckReadStep, CommitReadStep, SignalStep, WakeStep,
         ReadFrameStep,
         CheckRoomStep, CheckStoreStep, CommitStoreStep;
    match step {
      case StartCall(block) => StartCallBalanced(s, block);
      case CommitWrite => CommitWriteBalanced(s);
      case CheckRead => CheckReadBalanced(s);
      case CommitRead => CommitReadBalanced(s);
      case Signal => SignalBalanced(s);
      case Wake => WakeBalanced(s);
      case ReadFrame => ReadFrameBalanced(s);
      case CheckRoom => CheckRoomBalanced(s);
      case CheckStore => CheckStoreBalanced(s);
      case CommitStore => CommitStoreBalanced(s);
    }
  }

  lemma {:induction false} RunKeepsBalance(s: State, steps: seq<Step>, t: State)
    requires Balanced(s) && Runs(s, steps, t)
    ensures Balanced(t)
    decreases |steps|
  {
    hide Balanced, Next;
    if steps == [] {
    } else {
      NextKeepsBalance(s, steps[0]);
      RunKeepsBalance(Next(s, steps[0]), steps[1..], t);
    }
  }

  /** An input overflow, a frame dropped by the worker or an output overflow can only follow an output
      underflow. */
  lemma {:induction false} UnderflowComesFirst(io: nat, steps: seq<Step>, t: State)
    requires io == 120 || io == 240
    requires Runs(Init(io), steps, t) && (t.failed.inOverflow || t.failed.dropped || t.failed.outOverflow)
    ensures t.failed.underflow
  {
    InitInv(io);
    RunKeepsBalance(Init(io), steps, t);
  }

  // ---- A worker that keeps up ----

  /** The worker has nothing left to do but less than a frame. */
  ghost predicate Drained(s: State)
    requires Shape(s)
  {
    s.worker == Asleep && |s.inQ[0]| < PROCESS_FRAME_LEN
  }

  /** Every call starts with the worker drained. */
  ghost predicate KeepsUp(s: State, steps: seq<Step>)
    decreases |steps|
  {
    steps == [] ||
    (Shape(s) && (steps[0].StartCall? && s.caller == Idle ==> Drained(s)) && KeepsUp(Next(s, steps[0]), steps[1..]))
  }

  ghost predicate Supplied(s: State) {
    && Balanced(s) && !s.failed.underflow
    && (s.caller.Writing? || s.caller == ToRead || s.caller == Reading ==> |s.outQ| >= s.io)
    && |s.log.emitted| + (if s.caller == ToRead || s.caller == Reading then s.io else 0) == |s.log.written[0]|
  }

  lemma NextKeepsSupplied(s: State, step: Step)
    requires Supplied(s) && (step.StartCall? && s.caller == Idle ==> Drained(s))
    ensures Supplied(Next(s, step))
  {
    NextKeepsBalance(s, step);
    hide ChecksHold, InOrder;
  }

  lemma {:induction false} RunKeepsSupplied(s: State, steps: seq<Step>, t: State)
    requires Supplied(s) && KeepsUp(s, steps) && Runs(s, steps, t)
    ensures Supplied(t)
    decreases |steps|
  {
    hide Supplied, Next, Drained;
    if steps == [] {
    } else {
      NextKeepsSupplied(s, steps[0]);
      RunKeepsSupplied(Next(s, steps[0]), steps[1..], t);
    }
  }

  /** If the worker drains between calls, no queue call ever fails, and after each call the output is the
      voice input delayed by exactly 640 samples. */
  lemma {:induction false} DelayIsExact(io: nat, steps: seq<Step>, t: State)
    requires io == 120 || io == 240
    requires KeepsUp(Init(io), steps) && Runs(Init(io), steps, t)
    ensures !t.failed.inOverflow && !t.failed.underflow && !t.failed.dropped && !t.failed.outOverflow
    ensures Aligned(t.log.written)
    ensures t.caller == Idle ==>
              t.log.emitted == (Silence(640) + t.log.written[CHANNEL_VP])[..|t.log.written[CHANNEL_VP]|]
  {
    InitInv(io);
    RunKeepsSupplied(Init(io), steps, t);
    ReframingIsFifo(io, steps, t);
    assert |t.log.drawn| <= |t.log.drawn + t.outQ + InFlight(t) + t.inQ[CHANNEL_VP]|;
    PrefixOf(t.log.drawn, t.outQ, InFlight(t), t.inQ[CHANNEL_VP], Silence(640) + t.log.written[CHANNEL_VP]);
  }

  lemma PrefixOf(a: seq<Pcm>, b: seq<Pcm>, c: seq<Pcm>, d: seq<Pcm>, whole: seq<Pcm>)
    requires a + b + c + d == whole
    ensures |a| <= |whole| && a == whole[..|a|]
  {
  }

  // ---- Every input is served ----

  /** A run in which the worker keeps up. */
  ghost predicate KeptUp(s: State, steps: seq<Step>, t: State) {
    Runs(s, steps, t) && KeepsUp(s, steps)
  }

  lemma {:induction false} KeptUpThen(s: State, xs: seq<Step>, m: State, ys: seq<Step>, t: State)
    requires KeptUp(s, xs, m) && KeptUp(m, ys, t)
    ensures KeptUp(s, xs + ys, t)
    decreases |xs|
  {
    hide Next, Shape, Drained;
    if xs == [] {
      assert xs + ys == ys;
    } else {
      KeptUpThen(Next(s, xs[0]), xs[1..], m, ys, t);
      assert (xs + ys)[0] == xs[0] && (xs + ys)[1..] == xs[1..] + ys;
    }
  }

  /** One step more, in a run in which nothing has failed. */
  lemma StepMore(s: State, steps: seq<Step>, m: State, step: Step) returns (t: State)
    requires KeptUp(s, steps, m) && Supplied(m) && (step.StartCall? && m.caller == Idle ==> Drained(m))
    ensures KeptUp(s, steps + [step], t) && Supplied(t) && t == Next(m, step)
  {
    t := Next(m, step);
    NextKeepsSupplied(m, step);
    hide Next, Drained, Balanced;
    assert [step][1..] == [];
    assert Runs(t, [], t) && KeepsUp(t, []);
    assert KeptUp(m, [step], t);
    KeptUpThen(s, steps, m, [step], t);
  }

  /** A call made while the worker is drained writes its block. */
  lemma WritePart(s: State, steps: seq<Step>, m: State, block: seq<seq<Pcm>>) returns (t: State)
    requires KeptUp(s, steps, m) && Supplied(m) && m.caller == Idle && Drained(m) && IsBlock(block, m.io)
    ensures KeptUp(s, steps + [StartCall(block)] + [CommitWrite], t) && Supplied(t)
    ensures t.caller == ToRead && t.worker == Asleep && t.io == m.io
    ensures t.log.written == Append(m.log.written, block) && t.log.emitted == m.log.emitted
  {
    var a := StepMore(s, steps, m, StartCall(block));
    StartWrites(m, block);
    t := StepMore(s, steps + [StartCall(block)], a, CommitWrite);
    hide Supplied, KeptUp, Append, StartCallStep;
  }

  /** Then it draws a frame of output and signals. */
  lemma ReadPart(s: State, steps: seq<Step>, m: State) returns (t: State)
    requires KeptUp(s, steps, m) && Supplied(m) && m.caller == ToRead && m.worker == Asleep
    ensures KeptUp(s, steps + [CheckRead] + [CommitRead] + [Signal], t) && Supplied(t)
    ensures t.caller == Idle && t.worker == Asleep && t.signal && t.io == m.io
    ensures t.log.written == m.log.written && |t.log.emitted| == |m.log.emitted| + m.io
  {
    var a := StepMore(s, steps, m, CheckRead);
    CheckPasses(m);
    var b := StepMore(s, steps + [CheckRead], a, CommitRead);
    ReadDraws(a);
    t := StepMore(s, steps + [CheckRead] + [CommitRead], b, Signal);
    hide Supplied, KeptUp, CheckReadStep, CommitReadStep;
  }

  lemma StartWrites(s: State, block: seq<seq<Pcm>>)
    requires Supplied(s) && s.caller == Idle && Drained(s) && IsBlock(block, s.io)
    ensures Next(s, StartCall(block)) == s.(caller := Writing(block))
  {
    hide InOrder, Aligned, IsBlock;
  }

  lemma CheckPasses(s: State)
    requires Supplied(s) && s.caller == ToRead
    ensures Next(s, CheckRead) == s.(caller := Reading)
  {
    hide Balanced;
  }

  lemma ReadDraws(s: State)
    requires Supplied(s) && s.caller == Reading
    ensures var t := Next(s, CommitRead);
      && t.caller == ToSignal && t.worker == s.worker && t.io == s.io && t.inQ == s.inQ
      && t.log.written == s.log.written && |t.log.emitted| == |s.log.emitted| + s.io
  {
    hide Balanced;
  }

  /** The worker moves one frame. */
  lemma MoveFrame(s: State, steps: seq<Step>, m: State) returns (t: State)
    requires KeptUp(s, steps, m) && Supplied(m)
    requires m.caller == Idle && m.worker == Fetch && |m.inQ[0]| >= PROCESS_FRAME_LEN
    ensures KeptUp(s, steps + [ReadFrame] + [CheckRoom] + [CheckStore] + [CommitStore], t) && Supplied(t)
    ensures t.caller == Idle && t.worker == Fetch && t.io == m.io && t.log.written == m.log.written
    ensures t.log.emitted == m.log.emitted && |t.inQ[0]| == |m.inQ[0]| - PROCESS_FRAME_LEN
  {
    var a := StepMore(s, steps, m, ReadFrame);
    var b := StepMore(s, steps + [ReadFrame], a, CheckRoom);
    RoomIsThere(a);
    var c := StepMore(s, steps + [ReadFrame] + [CheckRoom], b, CheckStore);
    StoreIsFree(b);
    t := StepMore(s, steps + [ReadFrame] + [CheckRoom] + [CheckStore], c, CommitStore);
    hide Supplied, KeptUp, CheckRoomStep, CheckStoreStep, Take, Append;
  }

  lemma RoomIsThere(s: State)
    requires Supplied(s) && s.caller == Idle && s.worker.Fetched?
    ensures Next(s, CheckRoom) == s.(worker := Holding(s.worker.block[CHANNEL_VP]))
  {
    hide ChecksHold, InOrder, Aligned;
  }

  lemma StoreIsFree(s: State)
    requires Supplied(s) && s.caller == Idle && s.worker.Holding?
    ensures Next(s, CheckStore) == s.(worker := Storing(s.worker.frame))
  {
    hide ChecksHold, InOrder, Aligned, IsBlock;
  }

  /** The worker drains the input queue and falls asleep. */
  lemma {:induction false} DrainPart(s: State, steps: seq<Step>, m: State) returns (more: seq<Step>, t: State)
    requires KeptUp(s, steps, m) && Supplied(m) && m.caller == Idle && m.worker == Fetch
    ensures KeptUp(s, more, t) && Supplied(t) && Drained(t)
    ensures t.caller == Idle && t.io == m.io && t.log.written == m.log.written && t.log.emitted == m.log.emitted
    decreases |m.inQ[0]|
  {
    if |m.inQ[0]| < PROCESS_FRAME_LEN {
      t := StepMore(s, steps, m, ReadFrame);
      more := steps + [ReadFrame];
      hide Supplied, KeptUp, Take, Drop, Append;
    } else {
      hide Supplied, KeptUp, Drained, Next;
      var b := MoveFrame(s, steps, m);
      more, t := DrainPart(s, steps + [ReadFrame] + [CheckRoom] + [CheckStore] + [CommitStore], b);
    }
  }

  /** Every block can be served by a call after which the worker is drained again. */
  lemma ServeOne(s: State, steps: seq<Step>, m: State, block: seq<seq<Pcm>>) returns (more: seq<Step>, t: State)
    requires KeptUp(s, steps, m) && Supplied(m) && m.caller == Idle && Drained(m) && IsBlock(block, m.io)
    ensures KeptUp(s, more, t) && Supplied(t) && t.caller == Idle && Drained(t) && t.io == m.io
    ensures t.log.written == Append(m.log.written, block) && |t.log.emitted| == |m.log.emitted| + m.io
  {
    var a := WritePart(s, steps, m, block);
    var written := steps + [StartCall(block)] + [CommitWrite];
    var b := ReadPart(s, written, a);
    var read := written + [CheckRead] + [CommitRead] + [Signal];
    var c := StepMore(s, read, b, Wake);
    assert c == b.(worker := Fetch, signal := false);
    hide Supplied, KeptUp, Drained, Next, Append, IsBlock;
    more, t := DrainPart(s, read + [Wake], c);
  }

  /** The blocks of a list of calls, joined channel by channel. */
  ghost function Joined(blocks: seq<seq<seq<Pcm>>>): (r: seq<seq<Pcm>>)
    requires forall b | b in blocks :: |b| == CHANNEL_QTY
    ensures |r| == CHANNEL_QTY
  {
    if blocks == [] then [[], [], [], []]
    else Append(Joined(blocks[..|blocks| - 1]), blocks[|blocks| - 1])
  }

  /** Any list of blocks can be served, and comes out delayed by 640 samples. */
  lemma {:induction false} EveryInputIsServed(io: nat, blocks: seq<seq<seq<Pcm>>>)
    returns (steps: seq<Step>, t: State)
    requires io == 120 || io == 240
    requires forall b | b in blocks :: |b| == CHANNEL_QTY && IsBlock(b, io)
    ensures KeptUp(Init(io), steps, t) && Supplied(t) && t.caller == Idle && Drained(t) && t.io == io
    ensures t.log.written == Joined(blocks) && |t.log.emitted| == io * |blocks|
    ensures t.log.emitted == (Silence(640) + Joined(blocks)[CHANNEL_VP])[..|Joined(blocks)[CHANNEL_VP]|]
    decreases |blocks|
  {
    if blocks == [] {
      steps, t := [], Init(io);
      InitSupplied(io);
    } else {
      var n := |blocks| - 1;
      assert blocks[n] in blocks;
      var before, m := EveryInputIsServed(io, blocks[..n]);
      hide Supplied, KeptUp, Drained, Init, IsBlock, Append;
      steps, t := ServeOne(Init(io), before, m, blocks[n]);
    }
    assert Runs(Init(io), steps, t) && KeepsUp(Init(io), steps);
    hide Runs, KeepsUp;
    DelayIsExact(io, steps, t);
  }

  lemma InitSupplied(io: nat)
    requires io == 120 || io == 240
    ensures Supplied(Init(io)) && Drained(Init(io))
  {
    InitInv(io);
  }
}
