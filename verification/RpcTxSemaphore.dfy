/** The counting semaphore between the senders and the transmit thread. */
module RpcTxSemaphore {
  import opened Bytes
  import RpcQueue

  const SEMA_MAX := 65535
  const TX_BUFF_SIZE := 2048

  /** Where the transmit thread is: blocked on the semaphore, holding a token, or past the length
      check and about to pop. */
  datatype Phase = Waiting | Holding | Popping

  /** `senders`: calls of `rpc_bth_dsp_send_cmd` between their push and their release. */
  datatype State = State(entries: seq<seq<byte>>, tokens: nat, senders: nat, phase: Phase, log: Log)

  /** What was stored and what was taken, the calls made and returned, and the tokens taken. */
  datatype Log = Log(stored: seq<seq<byte>>, taken: seq<seq<byte>>, calls: nat, released: nat, acquired: nat)

  datatype Step = Push(entry: seq<byte>) | Release | Acquire | CheckLength | Pop

  predicate Enabled(s: State, step: Step) {
    match step
    case Push(_) => true
    case Release => s.senders > 0
    case Acquire => s.phase == Waiting && s.tokens > 0
    case CheckLength => s.phase == Holding
    case Pop => s.phase == Popping && s.entries != []
  }

  /** A push that finds no room still goes on to release; a release at the maximum has no effect. A
      step that is not enabled waits. */
  function Next(s: State, step: Step): State {
    if !Enabled(s, step) then s
    else match step
      case Push(entry) =>
        var t := s.(senders := s.senders + 1, log := s.log.(calls := s.log.calls + 1));
        if RpcQueue.Pushed(Frame(s.entries), TX_BUFF_SIZE, entry).0 != 0 then t
        else t.(entries := s.entries + [entry], log := t.log.(stored := s.log.stored + [entry]))
      case Release =>
        s.(senders := s.senders - 1, tokens := if s.tokens < SEMA_MAX then s.tokens + 1 else s.tokens,
           log := s.log.(released := s.log.released + 1))
      case Acquire => s.(tokens := s.tokens - 1, phase := Holding, log := s.log.(acquired := s.log.acquired + 1))
      case CheckLength => s.(phase := if s.entries == [] then Waiting else Popping)
      case Pop =>
        s.(entries := s.entries[1..], phase := Waiting, log := s.log.(taken := s.log.taken + [s.entries[0]]))
  }

  const INIT := State([], 0, 0, Waiting, Log([], [], 0, 0, 0))

  function Run(s: State, steps: seq<Step>): State
    decreases |steps|
  {
    if steps == [] then s else Run(Next(s, steps[0]), steps[1..])
  }

  function Held(s: State): nat {
    if s.phase == Waiting then 0 else 1
  }

  ghost predicate Inv(s: State) {
    && |Frame(s.entries)| <= TX_BUFF_SIZE
    && (forall e | e in s.entries :: |e| > 0)
    && (s.phase == Popping ==> s.entries != [])
    && s.tokens + s.senders + Held(s) >= |s.entries|
  }

  /** Three bytes at least per entry, so saturation at 65535 leaves tokens to spare. */
  lemma {:induction false} FrameBoundsCount(es: seq<seq<byte>>)
    requires forall e | e in es :: |e| > 0
    ensures |Frame(es)| >= 3 * |es|
  {
    if es == [] {
    } else {
      assert es[0] in es;
      FrameBoundsCount(es[1..]);
    }
  }

  lemma StepKeepsInv(s: State, step: Step)
    requires Inv(s) && (step.Push? ==> |step.entry| < 65536)
    ensures Inv(Next(s, step))
  {
    match step {
      case Push(entry) => PushKeepsInv(s, entry);
      case _ => ThreadKeepsInv(s, step);
    }
    hide Inv, Next;
  }

  lemma PushKeepsInv(s: State, entry: seq<byte>)
    requires Inv(s) && |entry| < 65536
    ensures Inv(Next(s, Push(entry)))
  {
    RpcQueue.PushAddsMessage(s.entries, TX_BUFF_SIZE, entry);
    hide Frame;
  }

  lemma ThreadKeepsInv(s: State, step: Step)
    requires Inv(s) && !step.Push?
    ensures Inv(Next(s, step))
  {
    FrameBoundsCount(s.entries);
    if s.entries != [] {
      assert Frame(s.entries) == Framed(s.entries[0]) + Frame(s.entries[1..]);
    }
    hide Frame, Framed;
  }

  lemma {:induction false} RunKeepsInv(s: State, steps: seq<Step>)
    requires Inv(s)
    requires forall step | step in steps && step.Push? :: |step.entry| < 65536
    ensures Inv(Run(s, steps))
    decreases |steps|
  {
    if steps == [] {
    } else {
      assert steps[0] in steps;
      StepKeepsInv(s, steps[0]);
      RunKeepsInv(Next(s, steps[0]), steps[1..]);
    }
  }

  /** No command is stranded: whenever the transmit thread is blocked and no sender is between push and
      release, nothing is queued. */
  lemma {:induction false} BlockedMeansEmpty(steps: seq<Step>)
    requires forall step | step in steps && step.Push? :: |step.entry| < 65536
    ensures var s := Run(INIT, steps);
            s.phase == Waiting && s.tokens == 0 && s.senders == 0 ==> s.entries == []
  {
    RunKeepsInv(INIT, steps);
  }

  // ---- Order, and the count of tokens ----

  /** Entries leave in the order in which they were stored, and no token is made or lost below the maximum. */
  ghost predicate Accounts(s: State) {
    && s.log.taken + s.entries == s.log.stored
    && s.log.released + s.senders == s.log.calls
    && s.tokens <= SEMA_MAX && s.tokens + s.log.acquired <= s.log.released
    && (s.log.released <= SEMA_MAX ==> s.tokens + s.log.acquired == s.log.released)
  }

  lemma StepKeepsAccounts(s: State, step: Step)
    requires Accounts(s)
    ensures Accounts(Next(s, step))
  {
    hide Frame, RpcQueue.Pushed;
    if Enabled(s, step) && step.Pop? {
      assert s.entries == [s.entries[0]] + s.entries[1..];
    }
  }

  lemma {:induction false} RunKeepsAccounts(s: State, steps: seq<Step>)
    requires Accounts(s)
    ensures Accounts(Run(s, steps))
    decreases |steps|
  {
    hide Accounts, Next;
    if steps == [] {
    } else {
      StepKeepsAccounts(s, steps[0]);
      RunKeepsAccounts(Next(s, steps[0]), steps[1..]);
    }
  }

  lemma InitAccounts()
    ensures Accounts(INIT)
  {
  }

  /** Over any run what was taken, followed by what is queued, is what was stored; and until 65535 releases
      have been made exactly one token stands for each that was not followed by an acquisition. */
  lemma RunIsFifo(steps: seq<Step>)
    ensures var s := Run(INIT, steps);
      && s.log.taken + s.entries == s.log.stored
      && (s.log.released <= SEMA_MAX ==> s.tokens == s.log.released - s.log.acquired)
  {
    InitAccounts();
    RunKeepsAccounts(INIT, steps);
    hide Run, INIT;
  }

  /** A push stores its entry if and only if there is room for it and its length; either way a token follows. */
  lemma PushStoresIff(s: State, entry: seq<byte>)
    requires Inv(s) && 0 < |entry| < 65536
    ensures var t := Next(s, Push(entry));
      && t.entries == s.entries + (if |Frame(s.entries)| + 2 + |entry| <= TX_BUFF_SIZE then [entry] else [])
      && t.senders == s.senders + 1
  {
    hide Frame;
  }

  lemma RunFirst(s: State, step: Step, rest: seq<Step>)
    ensures Run(s, [step] + rest) == Run(Next(s, step), rest)
  {
    hide Next;
    assert ([step] + rest)[1..] == rest;
  }

  function Rank(s: State): nat {
    match s.phase
    case Waiting => 2
    case Holding => 1
    case Popping => 0
  }

  /** The step by which thread or senders come closer to an empty queue. */
  function Useful(s: State): Step {
    match s.phase
    case Holding => CheckLength
    case Popping => Pop
    case Waiting => if s.tokens > 0 then Acquire else Release
  }

  lemma UsefulHelps(s: State)
    requires Inv(s) && s.entries != []
    ensures var t := Next(s, Useful(s));
      && Inv(t) && t.log.taken + t.entries == s.log.taken + s.entries
      && (|t.entries| < |s.entries| || (t.entries == s.entries && Rank(t) <= Rank(s)
                                        && (Rank(t) < Rank(s) || t.senders < s.senders)))
  {
    StepKeepsInv(s, Useful(s));
    hide Frame;
    assert s.entries == [s.entries[0]] + s.entries[1..];
  }

  /** From every state thread and senders can empty the queue without another push, in order. */
  lemma {:induction false} QueueCanBeEmptied(s: State) returns (steps: seq<Step>)
    requires Inv(s)
    ensures forall step | step in steps :: !step.Push?
    ensures Run(s, steps).entries == [] && Run(s, steps).log.taken == s.log.taken + s.entries
    decreases |s.entries|, Rank(s), s.senders
  {
    if s.entries == [] {
      steps := [];
    } else {
      UsefulHelps(s);
      hide Inv, Next;
      var rest := QueueCanBeEmptied(Next(s, Useful(s)));
      RunFirst(s, Useful(s), rest);
      steps := [Useful(s)] + rest;
    }
  }
}
