/** The hand-over of voice frames between the application core (AP) and the co-processor (CP),
    `apps/audioplayers/bt_sco_chain_cp.c`, as a step system over the shared variables. */
module ScoHandoff {
  import opened Copies

  type Pcm = int

  const BUF_LEN := 256 * 3

  /** Contents of a `sco_status_t`, and the private memory of the algorithm. */
  type Status = seq<int>
  type Memory = seq<int>

  datatype Input = Input(pcm: seq<Pcm>, ref: seq<Pcm>, status: Status)
  datatype Output = Output(pcm: seq<Pcm>, status: Status)

  /** `sco_cp_algo`: any function of its memory and its input. */
  type Algo = (Memory, Input) -> (Memory, Output)

  /** A call of `sco_cp_process`; `ref` may be absent. */
  datatype Request = Request(pcm: seq<Pcm>, hasRef: bool, ref: seq<Pcm>, status: Status)

  /** `working` is CP_SCO_STATE_WORKING, otherwise CP_SCO_STATE_IDLE. */
  datatype Shared = Shared(
    working: bool, inPcm: seq<Pcm>, outPcm: seq<Pcm>, inRef: seq<Pcm>, pcmLen: nat, statusIn: Status, statusOut: Status)

  /** AP: between calls, polling the state, past the poll, input copied, output copied, state set but
      event not yet sent. */
  datatype Ap = Ready | Polling(rq: Request) | Entered(rq: Request) | CopiedIn(rq: Request) | CopiedOut | Marked

  /** CP: waiting for an event, started, algorithm done, output copied. */
  datatype Cp = Waiting | Started | Processed | Stored

  /** `requests`: what the calls were given, `inputs`: what was handed to the CP, `memory`: the algorithm's
      memory, `results`: what the calls handed back. */
  datatype Log = Log(requests: seq<Request>, inputs: seq<Input>, memory: Memory, results: seq<Output>)

  datatype State = State(sh: Shared, events: nat, ap: Ap, cp: Cp, log: Log)

  datatype Step = Call(rq: Request) | Poll | CopyIn | CopyOut | Mark | Send | Start | Process | Store | Finish

  /** `speech_copy_int16` to the start of a buffer. */
  function Splice(buf: seq<Pcm>, pcm: seq<Pcm>): (r: seq<Pcm>)
    requires |pcm| <= |buf|
    ensures |r| == |buf| && r[..|pcm|] == pcm
  {
    pcm + buf[|pcm|..]
  }

  ghost predicate Shape(s: State, frameLen: nat, channels: nat) {
    && |s.sh.inPcm| == |s.sh.outPcm| == BUF_LEN && |s.sh.inRef| == frameLen && s.sh.pcmLen <= BUF_LEN
    && (s.ap.Polling? || s.ap.Entered? || s.ap.CopiedIn? ==> Legal(s.ap.rq, frameLen, channels))
  }

  /** The assert at the head of `sco_cp_process`, and a reference frame of the right length. */
  predicate Legal(rq: Request, frameLen: nat, channels: nat) {
    |rq.pcm| == frameLen * channels <= BUF_LEN && (rq.hasRef ==> |rq.ref| == frameLen)
  }

  // ---- Steps. A step of a core that is elsewhere does nothing. ----

  function CallStep(s: State, rq: Request, frameLen: nat, channels: nat): State {
    if s.ap.Ready? && Legal(rq, frameLen, channels)
    then s.(ap := Polling(rq), log := s.log.(requests := s.log.requests + [rq]))
    else s
  }

  function PollStep(s: State): State {
    if s.ap.Polling? && !s.sh.working then s.(ap := Entered(s.ap.rq)) else s
  }

  function CopyInStep(s: State): State
    requires s.ap.Entered? ==> |s.ap.rq.pcm| <= |s.sh.inPcm|
  {
    if !s.ap.Entered? then s
    else
      var ref := if s.ap.rq.hasRef then s.ap.rq.ref else s.sh.inRef;
      s.(sh := s.sh.(inPcm := Splice(s.sh.inPcm, s.ap.rq.pcm), inRef := ref, statusIn := s.ap.rq.status),
         ap := CopiedIn(s.ap.rq),
         log := s.log.(inputs := s.log.inputs + [Input(s.ap.rq.pcm, ref, s.ap.rq.status)]))
  }

  function CopyOutStep(s: State): State
    requires s.sh.pcmLen <= |s.sh.outPcm|
  {
    if !s.ap.CopiedIn? then s
    else
      s.(log := s.log.(results := s.log.results + [Output(s.sh.outPcm[..s.sh.pcmLen], s.sh.statusOut)]),
         sh := s.sh.(pcmLen := |s.ap.rq.pcm|), ap := CopiedOut)
  }

  function MarkStep(s: State): State {
    if s.ap.CopiedOut? then s.(sh := s.sh.(working := true), ap := Marked) else s
  }

  function SendStep(s: State): State {
    if s.ap.Marked? then s.(events := s.events + 1, ap := Ready) else s
  }

  /** `sco_cp_main` starts on any event; it does not look at the state. */
  function StartStep(s: State): State {
    if s.cp.Waiting? && s.events > 0 then s.(events := s.events - 1, cp := Started) else s
  }

  ghost predicate Fits(algo: Algo) {
    forall m, i {:trigger algo(m, i)} :: |algo(m, i).1.pcm| <= BUF_LEN
  }

  /** The algorithm works in place on the input buffer, its length and its status. */
  ghost function ProcessStep(s: State, algo: Algo): State
    requires Fits(algo) && |s.sh.inPcm| == BUF_LEN && s.sh.pcmLen <= BUF_LEN
  {
    if !s.cp.Started? then s
    else
      var (memory, out) := algo(s.log.memory, Input(s.sh.inPcm[..s.sh.pcmLen], s.sh.inRef, s.sh.statusIn));
      s.(sh := s.sh.(inPcm := Splice(s.sh.inPcm, out.pcm), pcmLen := |out.pcm|, statusIn := out.status),
         cp := Processed, log := s.log.(memory := memory))
  }

  function StoreStep(s: State): State
    requires |s.sh.inPcm| == |s.sh.outPcm| && s.sh.pcmLen <= |s.sh.inPcm|
  {
    if !s.cp.Processed? then s
    else s.(sh := s.sh.(outPcm := Splice(s.sh.outPcm, s.sh.inPcm[..s.sh.pcmLen]), statusOut := s.sh.statusIn),
            cp := Stored)
  }

  function FinishStep(s: State): State {
    if s.cp.Stored? then s.(sh := s.sh.(working := false), cp := Waiting) else s
  }

  ghost function Next(s: State, algo: Algo, frameLen: nat, channels: nat, step: Step): State
    requires Fits(algo) && Shape(s, frameLen, channels)
  {
    match step
    case Call(rq) => CallStep(s, rq, frameLen, channels)
    case Poll => PollStep(s)
    case CopyIn => CopyInStep(s)
    case CopyOut => CopyOutStep(s)
    case Mark => MarkStep(s)
    case Send => SendStep(s)
    case Start => StartStep(s)
    case Process => ProcessStep(s, algo)
    case Store => StoreStep(s)
    case Finish => FinishStep(s)
  }

  /** After `sco_cp_init`. */
  ghost function Init(frameLen: nat, memory: Memory): State {
    var zeros := seq(BUF_LEN, _ => 0);
    State(Shared(false, zeros, zeros, seq(frameLen, _ => 0), frameLen, [], []), 0, Ready, Waiting,
          Log([], [], memory, []))
  }

  // ---- The two routines on the buffers, each undisturbed ----

  class Accelerator {
    const frameLen: nat
    const channelNum: nat
    const inPcm: array<Pcm>
    const outPcm: array<Pcm>
    const inRef: array<Pcm>
    var pcmLen: nat
    var statusIn: Status
    var statusOut: Status
    var working: bool

    ghost predicate Valid()
      reads this
    {
      && inPcm.Length == outPcm.Length == BUF_LEN && inRef.Length == frameLen && pcmLen <= BUF_LEN
      && inPcm != outPcm && inPcm != inRef && outPcm != inRef
    }

    ghost function View(): Shared
      reads this, inPcm, outPcm, inRef
    {
      Shared(working, inPcm[..], outPcm[..], inRef[..], pcmLen, statusIn, statusOut)
    }

    /** `sco_cp_init`. */
    constructor (frameLen: nat, channelNum: nat)
      requires frameLen <= 256 && channelNum <= 3
      ensures Valid() && View() == Init(frameLen, []).sh && this.frameLen == frameLen && this.channelNum == channelNum
      ensures fresh(inPcm) && fresh(outPcm) && fresh(inRef)
    {
      this.frameLen, this.channelNum := frameLen, channelNum;
      inPcm := new Pcm[BUF_LEN](_ => 0);
      outPcm := new Pcm[BUF_LEN](_ => 0);
      inRef := new Pcm[frameLen](_ => 0);
      pcmLen, statusIn, statusOut, working := frameLen, [], [], false;
    }

    /** `sco_cp_process` once the state is IDLE: hands the new frame over and takes the finished one. */
    method Exchange(rq: Request) returns (out: Output)
      requires Valid() && !working && Legal(rq, frameLen, channelNum)
      modifies this, inPcm, inRef
      ensures Valid()
      ensures inPcm[..|rq.pcm|] == rq.pcm && inPcm[|rq.pcm|..] == old(inPcm[|rq.pcm|..])
      ensures inRef[..] == (if rq.hasRef then rq.ref else old(inRef[..])) && statusIn == rq.status
      ensures out == Output(old(outPcm[..pcmLen]), old(statusOut)) && outPcm[..] == old(outPcm[..])
      ensures pcmLen == |rq.pcm| && statusOut == old(statusOut) && working
      ensures var s := CopyInStep(State(old(View()), 0, Entered(rq), Waiting, Log([], [], [], [])));
              out == CopyOutStep(s).log.results[0] && View() == MarkStep(CopyOutStep(s)).sh
    {
      CopyInto(inPcm, 0, rq.pcm);
      if rq.hasRef {
        CopyInto(inRef, 0, rq.ref);
        assert inRef[..] == rq.ref;
      }
      statusIn := rq.status;
      out := Output(outPcm[..pcmLen], statusOut);
      pcmLen := |rq.pcm|;
      working := true;
    }

    /** `sco_cp_main`: the algorithm in place, its result to the output buffer. */
    method RunFrame(algo: Algo, memory: Memory) returns (memory': Memory)
      requires Valid() && Fits(algo)
      modifies this, inPcm, outPcm
      ensures Valid()
      ensures var (m, o) := algo(memory, Input(old(inPcm[..pcmLen]), old(inRef[..]), old(statusIn)));
              && memory' == m && outPcm[..pcmLen] == o.pcm && statusOut == o.status && pcmLen == |o.pcm|
              && inRef[..] == old(inRef[..]) && !working
      ensures var s := ProcessStep(State(old(View()), 0, Ready, Started, Log([], [], memory, [])), algo);
              memory' == s.log.memory && View() == FinishStep(StoreStep(s)).sh
    {
      var (m, out) := algo(memory, Input(inPcm[..pcmLen], inRef[..], statusIn));
      memory' := m;
      CopyInto(inPcm, 0, out.pcm);
      pcmLen := |out.pcm|;
      statusIn := out.status;
      CopyInto(outPcm, 0, inPcm[..pcmLen]);
      statusOut := statusIn;
      working := false;
    }
  }

  // ---- Exclusion ----

  /** AP is between its poll and the store of the state: it may touch the shared buffers. */
  predicate ApOwns(s: State) {
    s.ap.Entered? || s.ap.CopiedIn? || s.ap.CopiedOut?
  }

  predicate CpOwns(s: State) {
    !s.cp.Waiting?
  }

  /** The state is WORKING exactly while one frame is on its way: about to be signalled, signalled, or
      being processed; and AP never owns the buffers then. */
  ghost predicate Baton(s: State) {
    && (if s.ap.Marked? then 1 else 0) + s.events + (if CpOwns(s) then 1 else 0) == (if s.sh.working then 1 else 0)
    && (ApOwns(s) ==> !s.sh.working)
  }

  /** Only a core that owns the shared variables changes them, and only an owner reads them into its log. */
  lemma OnlyOwnersTouch(s: State, algo: Algo, frameLen: nat, channels: nat, step: Step)
    requires Fits(algo) && Shape(s, frameLen, channels)
    ensures var t := Next(s, algo, frameLen, channels, step);
            t.sh != s.sh || t.log.(requests := s.log.requests) != s.log ==>
              if step.CopyIn? || step.CopyOut? || step.Mark? then ApOwns(s)
              else CpOwns(s) && (step.Process? || step.Store? || step.Finish?)
  {
    hide Fits, Legal, Splice;
  }

  // ---- Contents ----

  /** The algorithm's memory after a list of inputs. */
  ghost function MemoryAfter(algo: Algo, m0: Memory, inputs: seq<Input>): Memory
    decreases |inputs|
  {
    if inputs == [] then m0
    else algo(MemoryAfter(algo, m0, inputs[..|inputs| - 1]), inputs[|inputs| - 1]).0
  }

  /** What call `k` must return: silence first, then the algorithm's output for the frame before. */
  ghost function Due(algo: Algo, m0: Memory, inputs: seq<Input>, frameLen: nat, k: nat): Output
    requires k <= |inputs|
  {
    if k == 0 then Output(seq(frameLen, _ => 0), [])
    else algo(MemoryAfter(algo, m0, inputs[..k - 1]), inputs[k - 1]).1
  }

  /** The input of the last frame lies in the shared input variables. */
  ghost predicate InputPresent(sh: Shared, input: Input, len: nat) {
    len <= |sh.inPcm| && sh.inPcm[..len] == input.pcm && sh.inRef == input.ref && sh.statusIn == input.status
  }

  ghost predicate OutputPresent(sh: Shared, out: Output) {
    sh.pcmLen <= |sh.outPcm| && sh.outPcm[..sh.pcmLen] == out.pcm && sh.statusOut == out.status
  }

  /** The algorithm has seen every input but perhaps the last. */
  function Unseen(s: State): nat {
    if s.ap.CopiedIn? || s.ap.CopiedOut? || (s.sh.working && (s.cp.Waiting? || s.cp.Started?)) then 1 else 0
  }

  ghost predicate Contents(s: State, algo: Algo, m0: Memory, frameLen: nat) {
    var n := |s.log.inputs|;
    && Unseen(s) <= n
    && s.log.memory == MemoryAfter(algo, m0, s.log.inputs[..n - Unseen(s)])
    && |s.log.results| == (if s.ap.CopiedIn? then n - 1 else n)
    && (forall k | 0 <= k < |s.log.results| :: s.log.results[k] == Due(algo, m0, s.log.inputs, frameLen, k))
    && (Unseen(s) == 1 ==> InputPresent(s.sh, s.log.inputs[n - 1], |s.log.inputs[n - 1].pcm|))
    && (Unseen(s) == 1 && !s.ap.CopiedIn? ==> s.sh.pcmLen == |s.log.inputs[n - 1].pcm|)
    && (s.ap.CopiedIn? ==> s.log.inputs[n - 1].pcm == s.ap.rq.pcm)
    && (!s.sh.working && !s.ap.CopiedOut? ==>
          OutputPresent(s.sh, Due(algo, m0, s.log.inputs, frameLen, |s.log.results|)))
    && (s.cp.Stored? ==> OutputPresent(s.sh, Due(algo, m0, s.log.inputs, frameLen, n)))
    && (s.cp.Processed? ==>
          var due := Due(algo, m0, s.log.inputs, frameLen, n);
          s.sh.pcmLen <= |s.sh.inPcm| && s.sh.inPcm[..s.sh.pcmLen] == due.pcm && s.sh.statusIn == due.status)
  }

  ghost predicate Inv(s: State, algo: Algo, m0: Memory, frameLen: nat, channels: nat) {
    Shape(s, frameLen, channels) && Baton(s) && Contents(s, algo, m0, frameLen)
  }

  lemma InitInv(algo: Algo, m0: Memory, frameLen: nat, channels: nat)
    requires frameLen <= 256
    ensures Inv(Init(frameLen, m0), algo, m0, frameLen, channels)
  {
  }

  /** Earlier calls are not affected by a later input. */
  lemma DueExtends(algo: Algo, m0: Memory, inputs: seq<Input>, x: Input, frameLen: nat, k: nat)
    requires k <= |inputs|
    ensures Due(algo, m0, inputs + [x], frameLen, k) == Due(algo, m0, inputs, frameLen, k)
  {
    if k > 0 {
      assert (inputs + [x])[..k - 1] == inputs[..k - 1];
    }
  }

  lemma QuietKeepsInv(s: State, algo: Algo, m0: Memory, frameLen: nat, channels: nat, rq: Request)
    requires Fits(algo) && Inv(s, algo, m0, frameLen, channels)
    ensures Inv(CallStep(s, rq, frameLen, channels), algo, m0, frameLen, channels)
    ensures Inv(PollStep(s), algo, m0, frameLen, channels)
    ensures Inv(SendStep(s), algo, m0, frameLen, channels)
    ensures Inv(StartStep(s), algo, m0, frameLen, channels)
  {
    hide Due, MemoryAfter, InputPresent, OutputPresent;
  }

  lemma MarkKeepsInv(s: State, algo: Algo, m0: Memory, frameLen: nat, channels: nat)
    requires Fits(algo) && Inv(s, algo, m0, frameLen, channels)
    ensures Inv(MarkStep(s), algo, m0, frameLen, channels)
  {
    hide Due, MemoryAfter;
  }

  lemma FinishKeepsInv(s: State, algo: Algo, m0: Memory, frameLen: nat, channels: nat)
    requires Fits(algo) && Inv(s, algo, m0, frameLen, channels)
    ensures Inv(FinishStep(s), algo, m0, frameLen, channels)
  {
    hide Due, MemoryAfter;
  }

  lemma CopyInKeepsInv(s: State, algo: Algo, m0: Memory, frameLen: nat, channels: nat)
    requires Fits(algo) && Inv(s, algo, m0, frameLen, channels)
    ensures Inv(CopyInStep(s), algo, m0, frameLen, channels)
  {
    if s.ap.Entered? {
      var t := CopyInStep(s);
      var inputs := s.log.inputs;
      var x := t.log.inputs[|inputs|];
      assert t.log.inputs == inputs + [x] && (inputs + [x])[..|inputs|] == inputs && inputs[..|inputs|] == inputs;
      forall k | 0 <= k <= |inputs|
        ensures Due(algo, m0, t.log.inputs, frameLen, k) == Due(algo, m0, inputs, frameLen, k)
      {
        DueExtends(algo, m0, inputs, x, frameLen, k);
      }
      hide Due, MemoryAfter;
    }
  }

  lemma CopyOutKeepsInv(s: State, algo: Algo, m0: Memory, frameLen: nat, channels: nat)
    requires Fits(algo) && Inv(s, algo, m0, frameLen, channels)
    ensures Inv(CopyOutStep(s), algo, m0, frameLen, channels)
  {
    hide Due, MemoryAfter;
  }

  lemma ProcessKeepsInv(s: State, algo: Algo, m0: Memory, frameLen: nat, channels: nat)
    requires Fits(algo) && Inv(s, algo, m0, frameLen, channels)
    ensures Inv(ProcessStep(s, algo), algo, m0, frameLen, channels)
  {
    if s.cp.Started? {
      var n := |s.log.inputs|;
      var input := s.log.inputs[n - 1];
      assert s.log.inputs[..n] == s.log.inputs;
      assert Input(s.sh.inPcm[..s.sh.pcmLen], s.sh.inRef, s.sh.statusIn) == input;
    }
  }

  lemma StoreKeepsInv(s: State, algo: Algo, m0: Memory, frameLen: nat, channels: nat)
    requires Fits(algo) && Inv(s, algo, m0, frameLen, channels)
    ensures Inv(StoreStep(s), algo, m0, frameLen, channels)
  {
    hide Due, MemoryAfter;
  }

  lemma NextKeepsInv(s: State, algo: Algo, m0: Memory, frameLen: nat, channels: nat, step: Step)
    requires Fits(algo) && Inv(s, algo, m0, frameLen, channels)
    ensures Inv(Next(s, algo, frameLen, channels, step), algo, m0, frameLen, channels)
  {
    hide Inv, CallStep, PollStep, CopyInStep, CopyOutStep, MarkStep, SendStep, StartStep, ProcessStep, StoreStep,
         FinishStep;
    match step {
      case CopyIn => CopyInKeepsInv(s, algo, m0, frameLen, channels);
      case CopyOut => CopyOutKeepsInv(s, algo, m0, frameLen, channels);
      case Mark => MarkKeepsInv(s, algo, m0, frameLen, channels);
      case Process => ProcessKeepsInv(s, algo, m0, frameLen, channels);
      case Store => StoreKeepsInv(s, algo, m0, frameLen, channels);
      case Finish => FinishKeepsInv(s, algo, m0, frameLen, channels);
      case Call(rq) => QuietKeepsInv(s, algo, m0, frameLen, channels, rq);
      case _ => QuietKeepsInv(s, algo, m0, frameLen, channels, Request([], false, [], []));
    }
  }

  ghost predicate Runs(s: State, algo: Algo, frameLen: nat, channels: nat, steps: seq<Step>, t: State)
    requires Fits(algo)
    decreases |steps|
  {
    if steps == [] then s == t
    else Shape(s, frameLen, channels)
         && Runs(Next(s, algo, frameLen, channels, steps[0]), algo, frameLen, channels, steps[1..], t)
  }

  lemma {:induction false} RunKeepsInv(s: State, algo: Algo, m0: Memory, frameLen: nat, channels: nat,
                                       steps: seq<Step>, t: State)
    requires Fits(algo) && Inv(s, algo, m0, frameLen, channels) && Runs(s, algo, frameLen, channels, steps, t)
    ensures Inv(t, algo, m0, frameLen, channels)
    decreases |steps|
  {
    hide Inv, Next;
    if steps == [] {
    } else {
      NextKeepsInv(s, algo, m0, frameLen, channels, steps[0]);
      RunKeepsInv(Next(s, algo, frameLen, channels, steps[0]), algo, m0, frameLen, channels, steps[1..], t);
    }
  }

  // ---- What the calls were given ----

  /** The reference frame of the latest of these requests that gave one, or silence. */
  ghost function LatestRef(requests: seq<Request>, frameLen: nat): seq<Pcm> {
    if requests == [] then seq(frameLen, _ => 0)
    else
      var last := requests[|requests| - 1];
      if last.hasRef then last.ref else LatestRef(requests[..|requests| - 1], frameLen)
  }

  /** What call `k` must hand over. */
  ghost function Given(requests: seq<Request>, frameLen: nat, k: nat): Input
    requires k < |requests|
  {
    Input(requests[k].pcm, LatestRef(requests[..k + 1], frameLen), requests[k].status)
  }

  /** Every input handed over is what its call was given; a call past its start is the latest one. */
  ghost predicate Requested(s: State, frameLen: nat) {
    var n := |s.log.inputs|;
    && |s.log.requests| == (if s.ap.Polling? || s.ap.Entered? then n + 1 else n)
    && (s.ap.Polling? || s.ap.Entered? ==> s.ap.rq == s.log.requests[n])
    && s.sh.inRef == LatestRef(s.log.requests[..n], frameLen)
    && (forall k | 0 <= k < n :: s.log.inputs[k] == Given(s.log.requests, frameLen, k))
  }

  lemma CallKeepsRequested(s: State, rq: Request, frameLen: nat, channels: nat)
    requires Requested(s, frameLen)
    ensures Requested(CallStep(s, rq, frameLen, channels), frameLen)
  {
    hide LatestRef;
    var t := CallStep(s, rq, frameLen, channels);
    var n := |s.log.inputs|;
    assert t.log.requests[..n] == s.log.requests[..n];
    forall k | 0 <= k < n
      ensures Given(t.log.requests, frameLen, k) == Given(s.log.requests, frameLen, k)
    {
      assert t.log.requests[..k + 1] == s.log.requests[..k + 1];
    }
  }

  lemma CopyInKeepsRequested(s: State, frameLen: nat, channels: nat)
    requires Shape(s, frameLen, channels) && Requested(s, frameLen)
    ensures Requested(CopyInStep(s), frameLen)
  {
    var n := |s.log.inputs|;
    if s.ap.Entered? {
      assert s.log.requests[..n + 1][..n] == s.log.requests[..n];
    }
    hide Splice;
  }

  lemma OthersKeepRequested(s: State, algo: Algo, frameLen: nat, channels: nat, step: Step)
    requires Fits(algo) && Shape(s, frameLen, channels) && Requested(s, frameLen) && !step.Call? && !step.CopyIn?
    ensures Requested(Next(s, algo, frameLen, channels, step), frameLen)
  {
    hide LatestRef, Given, Splice, Fits;
  }

  lemma {:induction false} RunKeepsRequested(s: State, algo: Algo, m0: Memory, frameLen: nat, channels: nat,
                                             steps: seq<Step>, t: State)
    requires Fits(algo) && Inv(s, algo, m0, frameLen, channels) && Runs(s, algo, frameLen, channels, steps, t)
    requires Requested(s, frameLen)
    ensures Requested(t, frameLen)
    decreases |steps|
  {
    if steps == [] {
    } else {
      match steps[0] {
        case Call(rq) => CallKeepsRequested(s, rq, frameLen, channels);
        case CopyIn => CopyInKeepsRequested(s, frameLen, channels);
        case _ => OthersKeepRequested(s, algo, frameLen, channels, steps[0]);
      }
      NextKeepsInv(s, algo, m0, frameLen, channels, steps[0]);
      hide Inv, Requested, CallStep, CopyInStep, PollStep, CopyOutStep, MarkStep, SendStep, StartStep, ProcessStep,
           StoreStep, FinishStep;
      RunKeepsRequested(Next(s, algo, frameLen, channels, steps[0]), algo, m0, frameLen, channels, steps[1..], t);
    }
  }

  /** In every interleaving the input of call `k` is the frame and status that call was given, with the
      reference frame of the latest call so far that gave one, or silence. */
  lemma {:induction false} InputsAreGiven(algo: Algo, m0: Memory, frameLen: nat, channels: nat, steps: seq<Step>,
                                          t: State)
    requires Fits(algo) && frameLen <= 256 && Runs(Init(frameLen, m0), algo, frameLen, channels, steps, t)
    ensures |t.log.inputs| <= |t.log.requests| <= |t.log.inputs| + 1
    ensures forall k | 0 <= k < |t.log.inputs| ::
              && t.log.inputs[k].pcm == t.log.requests[k].pcm && t.log.inputs[k].status == t.log.requests[k].status
              && t.log.inputs[k].ref == LatestRef(t.log.requests[..k + 1], frameLen)
  {
    InitInv(algo, m0, frameLen, channels);
    RunKeepsRequested(Init(frameLen, m0), algo, m0, frameLen, channels, steps, t);
    hide Runs, LatestRef;
  }

  /** In every interleaving the cores never touch the shared buffers at the same time, and call `k`
      returns exactly the algorithm's output, length and status for the frame of call `k - 1`, the first
      one `frameLen` zeros. */
  lemma {:induction false} HandoffIsExact(algo: Algo, m0: Memory, frameLen: nat, channels: nat, steps: seq<Step>,
                                          t: State)
    requires Fits(algo) && frameLen <= 256 && Runs(Init(frameLen, m0), algo, frameLen, channels, steps, t)
    ensures !(ApOwns(t) && CpOwns(t))
    ensures |t.log.results| <= |t.log.inputs| <= |t.log.results| + 1
    ensures |t.log.results| > 0 ==> t.log.results[0] == Output(seq(frameLen, _ => 0), [])
    ensures forall k | 0 < k < |t.log.results| ::
              t.log.results[k] == algo(MemoryAfter(algo, m0, t.log.inputs[..k - 1]), t.log.inputs[k - 1]).1
  {
    InitInv(algo, m0, frameLen, channels);
    RunKeepsInv(Init(frameLen, m0), algo, m0, frameLen, channels, steps, t);
    forall k | 0 < k < |t.log.results|
      ensures t.log.results[k] == algo(MemoryAfter(algo, m0, t.log.inputs[..k - 1]), t.log.inputs[k - 1]).1
    {
      assert t.log.results[k] == Due(algo, m0, t.log.inputs, frameLen, k);
    }
  }

  // ---- Progress ----

  /** No call and no frame is under way. */
  predicate Quiet(s: State) {
    s.ap.Ready? && s.cp.Waiting? && s.events == 0 && !s.sh.working
  }

  lemma {:induction false} RunsThen(s: State, algo: Algo, frameLen: nat, channels: nat, xs: seq<Step>, m: State,
                                    ys: seq<Step>, t: State)
    requires Fits(algo) && Runs(s, algo, frameLen, channels, xs, m) && Runs(m, algo, frameLen, channels, ys, t)
    ensures Runs(s, algo, frameLen, channels, xs + ys, t)
    decreases |xs|
  {
    hide Next, Fits, Shape;
    if xs == [] {
      assert xs + ys == ys;
    } else {
      RunsThen(Next(s, algo, frameLen, channels, xs[0]), algo, frameLen, channels, xs[1..], m, ys, t);
      assert (xs + ys)[1..] == xs[1..] + ys;
    }
  }

  lemma TwoSteps(s: State, algo: Algo, frameLen: nat, channels: nat, x: Step, y: Step) returns (t: State)
    requires Fits(algo) && Shape(s, frameLen, channels)
    requires Shape(Next(s, algo, frameLen, channels, x), frameLen, channels)
    ensures t == Next(Next(s, algo, frameLen, channels, x), algo, frameLen, channels, y)
    ensures Runs(s, algo, frameLen, channels, [x, y], t)
  {
    var m := Next(s, algo, frameLen, channels, x);
    t := Next(m, algo, frameLen, channels, y);
    hide Next, Fits, Shape;
    assert [x, y][1..] == [y] && [y][1..] == [];
    assert Runs(t, algo, frameLen, channels, [], t);
    assert Runs(m, algo, frameLen, channels, [y], t);
  }

  lemma Entering(s: State, algo: Algo, frameLen: nat, channels: nat, rq: Request) returns (t: State)
    requires Fits(algo) && Shape(s, frameLen, channels) && Quiet(s) && Legal(rq, frameLen, channels)
    ensures Runs(s, algo, frameLen, channels, [Call(rq), Poll], t)
    ensures t == s.(ap := Entered(rq), log := s.log.(requests := s.log.requests + [rq]))
  {
    t := TwoSteps(s, algo, frameLen, channels, Call(rq), Poll);
  }

  lemma Copying(s: State, algo: Algo, frameLen: nat, channels: nat) returns (t: State)
    requires Fits(algo) && Shape(s, frameLen, channels) && s.ap.Entered?
    ensures Runs(s, algo, frameLen, channels, [CopyIn, CopyOut], t) && Shape(t, frameLen, channels)
    ensures t.ap.CopiedOut? && t.cp == s.cp && t.events == s.events && t.sh.working == s.sh.working
    ensures t.log.requests == s.log.requests && |t.log.results| == |s.log.results| + 1
  {
    t := TwoSteps(s, algo, frameLen, channels, CopyIn, CopyOut);
  }

  lemma Signalling(s: State, algo: Algo, frameLen: nat, channels: nat) returns (t: State)
    requires Fits(algo) && Shape(s, frameLen, channels) && s.ap.CopiedOut?
    ensures Runs(s, algo, frameLen, channels, [Mark, Send], t)
    ensures t == s.(ap := Ready, events := s.events + 1, sh := s.sh.(working := true))
  {
    t := TwoSteps(s, algo, frameLen, channels, Mark, Send);
  }

  lemma Processing(s: State, algo: Algo, frameLen: nat, channels: nat) returns (t: State)
    requires Fits(algo) && Shape(s, frameLen, channels) && s.cp.Waiting? && s.events > 0
    ensures Runs(s, algo, frameLen, channels, [Start, Process], t) && Shape(t, frameLen, channels)
    ensures t.cp.Processed? && t.ap == s.ap && t.events == s.events - 1 && t.sh.working == s.sh.working
    ensures t.log.requests == s.log.requests && t.log.results == s.log.results
  {
    t := TwoSteps(s, algo, frameLen, channels, Start, Process);
  }

  lemma Finishing(s: State, algo: Algo, frameLen: nat, channels: nat) returns (t: State)
    requires Fits(algo) && Shape(s, frameLen, channels) && s.cp.Processed?
    ensures Runs(s, algo, frameLen, channels, [Store, Finish], t) && Shape(t, frameLen, channels)
    ensures t.cp.Waiting? && t.ap == s.ap && t.events == s.events && !t.sh.working && t.log == s.log
  {
    t := TwoSteps(s, algo, frameLen, channels, Store, Finish);
  }

  /** A call made while nothing is under way is served, and nothing is under way afterwards. */
  lemma CallIsServed(s: State, algo: Algo, frameLen: nat, channels: nat, rq: Request)
    returns (steps: seq<Step>, t: State)
    requires Fits(algo) && Shape(s, frameLen, channels) && Quiet(s) && Legal(rq, frameLen, channels)
    ensures steps == [Call(rq), Poll] + [CopyIn, CopyOut] + [Mark, Send] + [Start, Process] + [Store, Finish]
    ensures Runs(s, algo, frameLen, channels, steps, t) && Shape(t, frameLen, channels) && Quiet(t)
    ensures t.log.requests == s.log.requests + [rq] && |t.log.results| == |s.log.results| + 1
  {
    var a := Entering(s, algo, frameLen, channels, rq);
    var b := Copying(a, algo, frameLen, channels);
    var c := Signalling(b, algo, frameLen, channels);
    var d := Processing(c, algo, frameLen, channels);
    t := Finishing(d, algo, frameLen, channels);
    hide Runs, Fits;
    steps := [Call(rq), Poll] + [CopyIn, CopyOut];
    RunsThen(s, algo, frameLen, channels, [Call(rq), Poll], a, [CopyIn, CopyOut], b);
    RunsThen(s, algo, frameLen, channels, steps, b, [Mark, Send], c);
    steps := steps + [Mark, Send];
    RunsThen(s, algo, frameLen, channels, steps, c, [Start, Process], d);
    steps := steps + [Start, Process];
    RunsThen(s, algo, frameLen, channels, steps, d, [Store, Finish], t);
    steps := steps + [Store, Finish];
  }

  /** Every list of legal requests can be served, one after the other. */
  lemma {:induction false} EveryListIsServed(algo: Algo, m0: Memory, frameLen: nat, channels: nat,
                                             requests: seq<Request>) returns (steps: seq<Step>, t: State)
    requires Fits(algo) && frameLen <= 256 && forall rq | rq in requests :: Legal(rq, frameLen, channels)
    ensures Runs(Init(frameLen, m0), algo, frameLen, channels, steps, t) && Shape(t, frameLen, channels) && Quiet(t)
    ensures t.log.requests == requests && |t.log.results| == |requests|
    decreases |requests|
  {
    hide Fits, Legal;
    if requests == [] {
      steps, t := [], Init(frameLen, m0);
    } else {
      var n := |requests| - 1;
      var xs, m := EveryListIsServed(algo, m0, frameLen, channels, requests[..n]);
      hide Runs, Quiet, Shape, Init;
      var ys, u := CallIsServed(m, algo, frameLen, channels, requests[n]);
      RunsThen(Init(frameLen, m0), algo, frameLen, channels, xs, m, ys, u);
      steps, t := xs + ys, u;
      assert requests == requests[..n] + [requests[n]];
    }
  }
}
