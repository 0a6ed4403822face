/** The slots under every interleaving of the two cores, down to single writes of a slot's state. */
module SlotRuns {
  import opened Bytes
  import opened DecodeSlots

  /** Co-processor: between attempts, inside one, or with the final state stored and its index not yet
      moved on. */
  datatype Cp = CpReady | Decoding | Stored

  /** MCU: between calls, past the verdict, or with the slot released and its index not yet moved on. */
  datatype Mcu = McuReady | Judged(ret: int) | Released

  /** What a finished slot held: final state and the bytes decoded into it since it was empty. */
  datatype Frame = Frame(state: SlotState, bytes: seq<byte>)

  /** `acc`: bytes decoded into the slot at `cpIdx` since it was empty. `produced`: every finished slot
      so far, in order; `consumed`: how many were given back; `outputs`: number and bytes of those
      handed to the caller; `overrun`: some write has left its slot. */
  datatype World = World(
    v: Slots, cp: Cp, mcu: Mcu, acc: seq<byte>, produced: seq<Frame>, consumed: nat,
    outputs: seq<(nat, seq<byte>)>, overrun: bool)

  datatype Step =
    | CpBegin | CpEnd(data: seq<byte>, retry: bool) | CpAdvance
    | McuJudge | McuRelease | McuAdvance

  /** A step of a core that is elsewhere does nothing; the decoder never returns more than it is asked
      for. */
  function Next(w: World, fixed: bool, step: Step): World
    requires Shape(w.v)
  {
    var c, m := w.v.slot[w.v.cpIdx], w.v.slot[w.v.mcuIdx];
    match step
    case CpBegin =>
      if !w.cp.CpReady? || Finished(c) then w
      else
        var b := Begin(c, w.v.loop);
        w.(v := w.v.(slot := w.v.slot[w.v.cpIdx := b]), cp := Decoding, acc := if b.outLen == 0 then [] else w.acc)
    case CpEnd(data, retry) =>
      if !w.cp.Decoding? || |data| > Wanted(c, w.v.loop, fixed) then w
      else
        var e := End(c, w.v.loop, fixed, data, retry);
        var acc := w.acc + data;
        var w' := w.(v := w.v.(slot := w.v.slot[w.v.cpIdx := e]), overrun := w.overrun || Overruns(c, w.v.loop, data));
        if retry then w'.(cp := CpReady, acc := acc)
        else w'.(cp := Stored, acc := [], produced := w.produced + [Frame(e.state, acc)])
    case CpAdvance =>
      if !w.cp.Stored? then w else w.(v := w.v.(cpIdx := NextIdx(w.v.cpIdx)), cp := CpReady)
    case McuJudge =>
      if !w.mcu.McuReady? then w
      else
        var ret := Verdict(m, w.v.loop);
        w.(mcu := Judged(ret), outputs := if ret == 0 then w.outputs + [(w.consumed, m.out)] else w.outputs)
    case McuRelease =>
      if !w.mcu.Judged? then w
      else if Finished(m) then
        w.(v := w.v.(slot := w.v.slot[w.v.mcuIdx := m.(state := Idle)]), mcu := Released, consumed := w.consumed + 1)
      else w.(mcu := McuReady)
    case McuAdvance =>
      if !w.mcu.Released? then w else w.(v := w.v.(mcuIdx := NextIdx(w.v.mcuIdx)), mcu := McuReady)
  }

  ghost function Start(loop: nat, lhdc: bool): World {
    var silence := Frame(Done, seq(loop, _ => 0));
    World(Init(loop, lhdc), CpReady, McuReady, [], if lhdc then [silence, silence] else [silence], 0, [], false)
  }

  // ---- Ownership ----

  /** How many slots `i` lies after `from`. */
  function Dist(from: nat, i: nat): nat
    requires from < SLOT_CNT && i < SLOT_CNT
  {
    if i >= from then i - from else i + SLOT_CNT - from
  }

  /** Where the next production and the next consumption take place. */
  function CpAt(w: World): nat {
    if w.cp.Stored? then NextIdx(w.v.cpIdx) else w.v.cpIdx
  }

  function McuAt(w: World): nat {
    if w.mcu.Released? then NextIdx(w.v.mcuIdx) else w.v.mcuIdx
  }

  /** Produced and not yet consumed, oldest first. */
  ghost function Waiting(w: World): seq<Frame>
    requires w.consumed <= |w.produced|
  {
    w.produced[w.consumed..]
  }

  /** The slot holds these bytes. */
  ghost predicate Holds(s: Slot, bytes: seq<byte>, overrun: bool) {
    s.outLen == |bytes| && (!overrun ==> |bytes| <= |s.out| && s.out[..|bytes|] == bytes)
  }

  /** A slot `d` places after the next consumption: the `d`-th waiting frame if there is one; else IDLE,
      or WORKING at the place of the next production. */
  ghost predicate SlotOwned(s: Slot, d: nat, waiting: seq<Frame>, acc: seq<byte>, overrun: bool) {
    if d < |waiting| then Finished(s) && s.state == waiting[d].state && Holds(s, waiting[d].bytes, overrun)
    else s.state == Idle || (d == |waiting| && s.state == Working && Holds(s, acc, overrun))
  }

  ghost predicate SlotsOwned(slots: seq<Slot>, from: nat, waiting: seq<Frame>, acc: seq<byte>, overrun: bool)
    requires |slots| == SLOT_CNT && from < SLOT_CNT
  {
    forall i | 0 <= i < SLOT_CNT :: SlotOwned(slots[i], Dist(from, i), waiting, acc, overrun)
  }

  /** The finished slots are a cyclic run of at most three from `McuAt` to just before `CpAt`, in the
      order of production. */
  ghost predicate Ownership(w: World) {
    && Shape(w.v)
    && w.consumed <= |w.produced| <= w.consumed + SLOT_CNT
    && McuAt(w) < SLOT_CNT && CpAt(w) < SLOT_CNT
    && Dist(McuAt(w), CpAt(w)) == (if |Waiting(w)| == SLOT_CNT then 0 else |Waiting(w)|)
    && SlotsOwned(w.v.slot, McuAt(w), Waiting(w), w.acc, w.overrun)
    && (w.cp.Decoding? ==> |Waiting(w)| < SLOT_CNT && w.v.slot[w.v.cpIdx].state == Working
                           && w.v.slot[w.v.cpIdx].outLen <= w.v.loop)
    && (w.cp.Stored? ==> w.acc == [])
  }

  lemma StartOwned(loop: nat, lhdc: bool)
    ensures Ownership(Start(loop, lhdc))
  {
  }

  lemma BeginOwned(w: World, fixed: bool)
    requires Ownership(w)
    ensures Ownership(Next(w, fixed, CpBegin))
  {
    var t := Next(w, fixed, CpBegin);
    var c := w.v.cpIdx;
    if t != w {
      var s := w.v.slot[c];
      assert SlotOwned(s, Dist(McuAt(w), c), Waiting(w), w.acc, w.overrun);
      assert |Waiting(w)| < SLOT_CNT && Dist(McuAt(w), c) == |Waiting(w)|;
      forall i | 0 <= i < SLOT_CNT
        ensures SlotOwned(t.v.slot[i], Dist(McuAt(t), i), Waiting(t), t.acc, t.overrun)
      {
        assert SlotOwned(w.v.slot[i], Dist(McuAt(w), i), Waiting(w), w.acc, w.overrun);
        assert i != c ==> Dist(McuAt(w), i) != |Waiting(w)|;
      }
    }
  }

  lemma PatchHolds(s: Slot, acc: seq<byte>, data: seq<byte>, overrun: bool)
    requires Holds(s, acc, overrun)
    ensures Holds(Slot(s.state, s.outLen + |data|, Patch(s.out, s.outLen, data)), acc + data,
                  overrun || s.outLen + |data| > |s.out|)
  {
  }

  /** A slot elsewhere is indifferent to the slot at the next production. */
  lemma OtherSlot(s: Slot, d: nat, waiting: seq<Frame>, acc: seq<byte>, acc': seq<byte>, more: seq<Frame>,
                  overrun: bool, overrun': bool)
    requires SlotOwned(s, d, waiting, acc, overrun) && d != |waiting| && |more| <= 1 && (overrun ==> overrun')
    ensures SlotOwned(s, d, waiting + more, acc', overrun')
  {
  }

  /** The slot of the next production changes, and with it perhaps the list of waiting frames. */
  lemma ProductionSlot(slots: seq<Slot>, from: nat, c: nat, e: Slot, waiting: seq<Frame>, acc: seq<byte>,
                       acc': seq<byte>,
                       more: seq<Frame>, overrun: bool, overrun': bool)
    requires |slots| == SLOT_CNT && from < SLOT_CNT && c < SLOT_CNT && Dist(from, c) == |waiting|
    requires |more| <= 1 && (overrun ==> overrun')
    requires SlotsOwned(slots, from, waiting, acc, overrun) && SlotOwned(e, |waiting|, waiting + more, acc', overrun')
    ensures SlotsOwned(slots[c := e], from, waiting + more, acc', overrun')
  {
    hide SlotOwned;
    forall i | 0 <= i < SLOT_CNT
      ensures SlotOwned(slots[c := e][i], Dist(from, i), waiting + more, acc', overrun')
    {
      if i != c {
        assert Dist(from, i) != |waiting|;
        OtherSlot(slots[i], Dist(from, i), waiting, acc, acc', more, overrun, overrun');
      }
    }
  }

  /** The slot an attempt worked on, before and after. */
  lemma EndSlot(w: World, fixed: bool, data: seq<byte>, retry: bool)
    requires Ownership(w) && w.cp.Decoding? && |data| <= Wanted(w.v.slot[w.v.cpIdx], w.v.loop, fixed)
    ensures var t := Next(w, fixed, CpEnd(data, retry));
            var e := t.v.slot[w.v.cpIdx];
            && Dist(McuAt(w), w.v.cpIdx) == |Waiting(w)| && (if retry then e.state == Working else Finished(e))
            && Holds(e, w.acc + data, t.overrun)
  {
    var s := w.v.slot[w.v.cpIdx];
    assert SlotOwned(s, |Waiting(w)|, Waiting(w), w.acc, w.overrun);
    PatchHolds(s, w.acc, data, w.overrun);
  }

  lemma EndOwned(w: World, fixed: bool, data: seq<byte>, retry: bool)
    requires Ownership(w)
    ensures Ownership(Next(w, fixed, CpEnd(data, retry)))
  {
    if w.cp.Decoding? && |data| <= Wanted(w.v.slot[w.v.cpIdx], w.v.loop, fixed) {
      if retry {
        RetryOwned(w, fixed, data);
      } else {
        FinishOwned(w, fixed, data);
      }
    }
    hide Next, Ownership;
  }

  lemma RetryOwned(w: World, fixed: bool, data: seq<byte>)
    requires Ownership(w) && w.cp.Decoding? && |data| <= Wanted(w.v.slot[w.v.cpIdx], w.v.loop, fixed)
    ensures Ownership(Next(w, fixed, CpEnd(data, true)))
  {
    EndSlot(w, fixed, data, true);
    hide Begin, Wanted, Overruns, Patch, Holds, SlotsOwned;
    var t := Next(w, fixed, CpEnd(data, true));
    var c, waiting := w.v.cpIdx, Waiting(w);
    var e := t.v.slot[c];
    assert SlotOwned(e, |waiting|, waiting, t.acc, t.overrun);
    hide SlotOwned;
    assert Waiting(t) == waiting && waiting + [] == waiting;
    ProductionSlot(w.v.slot, McuAt(w), c, e, waiting, w.acc, t.acc, [], w.overrun, t.overrun);
  }

  lemma FinishOwned(w: World, fixed: bool, data: seq<byte>)
    requires Ownership(w) && w.cp.Decoding? && |data| <= Wanted(w.v.slot[w.v.cpIdx], w.v.loop, fixed)
    ensures Ownership(Next(w, fixed, CpEnd(data, false)))
  {
    EndSlot(w, fixed, data, false);
    hide Begin, Wanted, Overruns, Patch, Holds, SlotsOwned;
    var t := Next(w, fixed, CpEnd(data, false));
    var c, waiting := w.v.cpIdx, Waiting(w);
    var e := t.v.slot[c];
    var more := [Frame(e.state, w.acc + data)];
    assert Waiting(t) == waiting + more;
    FinishedSlot(e, waiting, more[0], t.acc, t.overrun);
    hide SlotOwned;
    ProductionSlot(w.v.slot, McuAt(w), c, e, waiting, w.acc, t.acc, more, w.overrun, t.overrun);
  }

  lemma FinishedSlot(e: Slot, waiting: seq<Frame>, f: Frame, acc: seq<byte>, overrun: bool)
    requires Finished(e) && e.state == f.state && Holds(e, f.bytes, overrun)
    ensures SlotOwned(e, |waiting|, waiting + [f], acc, overrun)
  {
    hide Holds;
    assert (waiting + [f])[|waiting|] == f;
  }

  lemma AdvanceAndJudgeOwned(w: World, fixed: bool, step: Step)
    requires Ownership(w) && (step == CpAdvance || step == McuAdvance || step == McuJudge)
    ensures Ownership(Next(w, fixed, step))
  {
    var t := Next(w, fixed, step);
    hide SlotOwned;
    assert McuAt(t) == McuAt(w) && CpAt(t) == CpAt(w) && t.v.slot == w.v.slot && Waiting(t) == Waiting(w);
  }

  lemma DistMoves(m: nat, i: nat)
    requires m < SLOT_CNT && i < SLOT_CNT
    ensures NextIdx(m) < SLOT_CNT && Dist(m, m) == 0
    ensures Dist(NextIdx(m), i) == if i == m then SLOT_CNT - 1 else Dist(m, i) - 1
    ensures i != m ==> Dist(m, i) > 0
  {
  }

  lemma SlotMoves(s: Slot, d: nat, waiting: seq<Frame>, acc: seq<byte>, overrun: bool)
    requires SlotOwned(s, d, waiting, acc, overrun) && d > 0 && waiting != []
    ensures SlotOwned(s, d - 1, waiting[1..], acc, overrun)
  {
  }

  /** Giving the oldest waiting slot back moves every other one a place nearer. */
  lemma ConsumptionSlot(slots: seq<Slot>, m: nat, waiting: seq<Frame>, acc: seq<byte>, overrun: bool)
    requires |slots| == SLOT_CNT && m < SLOT_CNT && 0 < |waiting| <= SLOT_CNT
    requires SlotsOwned(slots, m, waiting, acc, overrun)
    ensures NextIdx(m) < SLOT_CNT
    ensures SlotsOwned(slots[m := slots[m].(state := Idle)], NextIdx(m), waiting[1..], acc, overrun)
  {
    hide SlotOwned, Dist;
    DistMoves(m, m);
    forall i | 0 <= i < SLOT_CNT
      ensures SlotOwned(slots[m := slots[m].(state := Idle)][i], Dist(NextIdx(m), i), waiting[1..], acc, overrun)
    {
      DistMoves(m, i);
      if i == m {
        IdleOwned(slots[m].(state := Idle), SLOT_CNT - 1, waiting[1..], acc, overrun);
      } else {
        SlotMoves(slots[i], Dist(m, i), waiting, acc, overrun);
      }
    }
  }

  lemma ReleaseOwned(w: World, fixed: bool)
    requires Ownership(w)
    ensures Ownership(Next(w, fixed, McuRelease))
  {
    hide Begin, End, Wanted, Overruns, Verdict;
    var t := Next(w, fixed, McuRelease);
    var m := w.v.mcuIdx;
    if t.consumed != w.consumed {
      DistMoves(m, m);
      DistMoves(m, CpAt(w));
      var waiting := Waiting(w);
      assert waiting != [] by {
        assert SlotOwned(w.v.slot[m], 0, waiting, w.acc, w.overrun);
      }
      assert Waiting(t) == waiting[1..];
      hide SlotOwned, SlotsOwned, Holds, Dist;
      ConsumptionSlot(w.v.slot, m, waiting, w.acc, w.overrun);
    }
  }

  lemma IdleOwned(s: Slot, d: nat, waiting: seq<Frame>, acc: seq<byte>, overrun: bool)
    requires s.state == Idle && d >= |waiting|
    ensures SlotOwned(s, d, waiting, acc, overrun)
  {
  }

  lemma NextOwned(w: World, fixed: bool, step: Step)
    requires Ownership(w)
    ensures Ownership(Next(w, fixed, step))
  {
    hide Ownership, Next;
    match step {
      case CpBegin => BeginOwned(w, fixed);
      case CpEnd(data, retry) => EndOwned(w, fixed, data, retry);
      case McuRelease => ReleaseOwned(w, fixed);
      case _ => AdvanceAndJudgeOwned(w, fixed, step);
    }
  }

  // ---- Outputs ----

  /** An output with number `n` is a full DONE frame, with that frame's bytes. */
  ghost predicate OutputOk(o: (nat, seq<byte>), produced: seq<Frame>, loop: nat, overrun: bool) {
    && o.0 < |produced| && produced[o.0].state == Done && |produced[o.0].bytes| == loop
    && (!overrun ==> o.1 == produced[o.0].bytes)
  }

  /** Every output is such a frame, below `limit`, and the numbers increase: no frame comes out twice or
      out of order. */
  ghost predicate OutputsOk(outputs: seq<(nat, seq<byte>)>, produced: seq<Frame>, limit: nat, loop: nat,
                            overrun: bool) {
    && (forall j | 0 <= j < |outputs| :: outputs[j].0 < limit && OutputOk(outputs[j], produced, loop, overrun))
    && (forall i, j | 0 <= i < j < |outputs| :: outputs[i].0 < outputs[j].0)
  }

  ghost predicate OutputsExact(w: World) {
    if w.mcu == Judged(0)
    then w.consumed < |w.produced| && OutputsOk(w.outputs, w.produced, w.consumed + 1, w.v.loop, w.overrun)
    else OutputsOk(w.outputs, w.produced, w.consumed, w.v.loop, w.overrun)
  }

  lemma OutputsGrow(w: World, t: World)
    requires OutputsExact(w) && t.outputs == w.outputs && t.v.loop == w.v.loop && t.consumed == w.consumed
    requires w.produced <= t.produced && (w.overrun ==> t.overrun) && t.mcu == w.mcu
    ensures OutputsExact(t)
  {
  }

  /** A slot judged fit to hand out is the oldest waiting frame. */
  lemma JudgedFrame(w: World)
    requires Ownership(w) && Verdict(w.v.slot[w.v.mcuIdx], w.v.loop) == 0 && !w.mcu.Released?
    ensures w.consumed < |w.produced|
    ensures OutputOk((w.consumed, w.v.slot[w.v.mcuIdx].out), w.produced, w.v.loop, w.overrun)
  {
    var m := w.v.mcuIdx;
    var s := w.v.slot[m];
    DistMoves(m, m);
    assert SlotOwned(s, 0, Waiting(w), w.acc, w.overrun);
    assert w.produced[w.consumed] == Waiting(w)[0];
    assert |s.out| == w.v.loop && s.out[..|s.out|] == s.out;
  }

  lemma JudgeOutputs(w: World, fixed: bool)
    requires Ownership(w) && OutputsExact(w) && w.mcu.McuReady?
    ensures OutputsExact(Next(w, fixed, McuJudge))
  {
    if Verdict(w.v.slot[w.v.mcuIdx], w.v.loop) == 0 {
      JudgedFrame(w);
    }
    hide Ownership, OutputOk, Verdict;
  }

  lemma ReleaseOutputs(w: World, fixed: bool)
    requires Ownership(w) && OutputsExact(w) && w.mcu.Judged?
    ensures OutputsExact(Next(w, fixed, McuRelease))
  {
    var m := w.v.mcuIdx;
    hide OutputOk;
    DistMoves(m, m);
    if w.mcu == Judged(0) {
      assert SlotOwned(w.v.slot[m], 0, Waiting(w), w.acc, w.overrun);
    }
  }

  lemma NextOutputsExact(w: World, fixed: bool, step: Step)
    requires Ownership(w) && OutputsExact(w)
    ensures OutputsExact(Next(w, fixed, step))
  {
    if step == McuJudge && w.mcu.McuReady? {
      JudgeOutputs(w, fixed);
    } else if step == McuRelease && w.mcu.Judged? {
      ReleaseOutputs(w, fixed);
    } else {
      hide Ownership, OutputsOk;
      var t := Next(w, fixed, step);
      if step != McuAdvance {
        OutputsGrow(w, t);
      }
    }
  }

  // ---- Runs ----

  ghost predicate Runs(w: World, fixed: bool, steps: seq<Step>, t: World)
    decreases |steps|
  {
    if steps == [] then w == t else Shape(w.v) && Runs(Next(w, fixed, steps[0]), fixed, steps[1..], t)
  }

  lemma {:induction false} RunKeeps(w: World, fixed: bool, steps: seq<Step>, t: World)
    requires Ownership(w) && OutputsExact(w) && (fixed ==> !w.overrun) && Runs(w, fixed, steps, t)
    ensures Ownership(t) && OutputsExact(t) && (fixed ==> !t.overrun)
    decreases |steps|
  {
    hide Ownership, OutputsExact, Next;
    if steps == [] {
    } else {
      NextOwned(w, fixed, steps[0]);
      NextOutputsExact(w, fixed, steps[0]);
      if fixed {
        FixedStaysInside(w, fixed, steps[0]);
      }
      RunKeeps(Next(w, fixed, steps[0]), fixed, steps[1..], t);
    }
  }

  lemma FixedStaysInside(w: World, fixed: bool, step: Step)
    requires Ownership(w) && fixed && !w.overrun
    ensures !Next(w, fixed, step).overrun
  {
  }

  /** Every interleaving of the two cores keeps slot ownership, and what the MCU hands out are full DONE
      frames, each at most once, in the order of production; their bytes are what was decoded as long as
      no write left its slot, which never happens when the missing length is passed. */
  lemma {:induction false} SlotProtocolIsSafe(loop: nat, lhdc: bool, fixed: bool, steps: seq<Step>, t: World)
    requires Runs(Start(loop, lhdc), fixed, steps, t)
    ensures Ownership(t) && OutputsExact(t) && (fixed ==> !t.overrun)
  {
    StartOwned(loop, lhdc);
    RunKeeps(Start(loop, lhdc), fixed, steps, t);
  }

  // ---- When a frame is handed out ----

  /** An attempt takes up what earlier ones left in the slot, unless that fills it already or the slot is new;
      on a finished slot there is none. */
  lemma AttemptContinuesIff(w: World, fixed: bool)
    requires Ownership(w) && w.cp.CpReady?
    ensures var t := Next(w, fixed, CpBegin);
            if |Waiting(w)| == SLOT_CNT then t == w
            else
              && t.cp.Decoding? && t.v.slot[w.v.cpIdx].outLen == |t.acc|
              && t.acc == if w.v.slot[w.v.cpIdx].state == Working && |w.acc| < w.v.loop then w.acc else []
  {
    var c := w.v.cpIdx;
    assert SlotOwned(w.v.slot[c], Dist(McuAt(w), c), Waiting(w), w.acc, w.overrun);
  }

  /** A frame that is DONE fills its slot exactly when the finishing attempt started with an empty slot;
      with the missing length passed it always does. */
  lemma DoneIsFullIff(w: World, fixed: bool, data: seq<byte>)
    requires Ownership(w) && w.cp.Decoding? && |data| <= Wanted(w.v.slot[w.v.cpIdx], w.v.loop, fixed)
    ensures var t := Next(w, fixed, CpEnd(data, false));
            var f := t.produced[|w.produced|];
            && |t.produced| == |w.produced| + 1
            && (f.state == Done ==> (|f.bytes| == w.v.loop <==> fixed || w.acc == []))
            && (fixed || w.acc == [] ==> (f.state == Done <==> |f.bytes| == w.v.loop))
  {
    hide Patch;
    var c := w.v.cpIdx;
    assert SlotOwned(w.v.slot[c], Dist(McuAt(w), c), Waiting(w), w.acc, w.overrun);
  }

  ghost predicate Full(f: Frame, loop: nat) {
    f.state == Done && |f.bytes| == loop
  }

  /** The MCU's verdict is good exactly when the oldest waiting frame is there, DONE and full. */
  lemma VerdictIff(w: World)
    requires Ownership(w) && !w.mcu.Released?
    ensures Verdict(w.v.slot[w.v.mcuIdx], w.v.loop) == 0
       <==> w.consumed < |w.produced| && Full(w.produced[w.consumed], w.v.loop)
    ensures Verdict(w.v.slot[w.v.mcuIdx], w.v.loop) == 1
       <==> w.consumed == |w.produced| || w.produced[w.consumed].state != Done
    ensures Verdict(w.v.slot[w.v.mcuIdx], w.v.loop) in {0, 1, 2}
  {
    var m := w.v.mcuIdx;
    DistMoves(m, m);
    assert SlotOwned(w.v.slot[m], 0, Waiting(w), w.acc, w.overrun);
    if w.consumed < |w.produced| {
      assert w.produced[w.consumed] == Waiting(w)[0];
    }
  }

  /** A world with what the MCU knew: `judged` is the number of frames produced when it last judged, and
      `seen[n]` that number for the call that gave back frame `n`. */
  datatype Watch = Watch(w: World, judged: nat, seen: seq<nat>)

  function NextWatch(h: Watch, fixed: bool, step: Step): Watch
    requires Shape(h.w.v)
  {
    var t := Next(h.w, fixed, step);
    Watch(t,
          if step == McuJudge && h.w.mcu.McuReady? then |h.w.produced| else h.judged,
          if t.consumed == h.w.consumed + 1 then h.seen + [h.judged] else h.seen)
  }

  /** Frame `n` was handed to the caller. */
  ghost predicate HandedOut(outputs: seq<(nat, seq<byte>)>, n: nat) {
    exists j :: 0 <= j < |outputs| && outputs[j].0 == n
  }

  ghost predicate Explained(h: Watch) {
    && |h.seen| == h.w.consumed <= |h.w.produced| && h.judged <= |h.w.produced|
    && (forall n | 0 <= n < h.w.consumed ::
          HandedOut(h.w.outputs, n) <==> Full(h.w.produced[n], h.w.v.loop) && n < h.seen[n])
    && (h.w.mcu.Judged? ==>
          (HandedOut(h.w.outputs, h.w.consumed) <==>
             h.w.consumed < h.judged && Full(h.w.produced[h.w.consumed], h.w.v.loop)))
    && (!h.w.mcu.Judged? ==> !HandedOut(h.w.outputs, h.w.consumed))
  }

  lemma HandedOutGrows(outputs: seq<(nat, seq<byte>)>, o: (nat, seq<byte>), n: nat)
    ensures HandedOut(outputs + [o], n) <==> HandedOut(outputs, n) || o.0 == n
  {
    var all := outputs + [o];
    if HandedOut(outputs, n) {
      var j :| 0 <= j < |outputs| && outputs[j].0 == n;
      assert all[j].0 == n;
    }
    assert all[|outputs|] == o;
  }

  lemma JudgeExplained(h: Watch, fixed: bool)
    requires Ownership(h.w) && OutputsExact(h.w) && Explained(h) && h.w.mcu.McuReady?
    ensures Explained(NextWatch(h, fixed, McuJudge))
  {
    var o := (h.w.consumed, h.w.v.slot[h.w.v.mcuIdx].out);
    VerdictIff(h.w);
    hide Ownership, HandedOut, Full, OutputsExact, Verdict;
    forall n: nat ensures HandedOut(h.w.outputs + [o], n) <==> HandedOut(h.w.outputs, n) || o.0 == n {
      HandedOutGrows(h.w.outputs, o, n);
    }
  }

  /** Frames are handed out in order: the one to come has not been, unless it is about to be given back. */
  lemma NotYetHandedOut(w: World)
    requires OutputsExact(w) && w.mcu != Judged(0)
    ensures !HandedOut(w.outputs, w.consumed)
  {
    hide OutputOk;
  }

  lemma ReleaseExplained(h: Watch, fixed: bool)
    requires Ownership(h.w) && OutputsExact(h.w) && Explained(h) && h.w.mcu.Judged?
    ensures Explained(NextWatch(h, fixed, McuRelease))
  {
    var t := Next(h.w, fixed, McuRelease);
    NextOwned(h.w, fixed, McuRelease);
    NextOutputsExact(h.w, fixed, McuRelease);
    assert t.consumed <= |t.produced|;
    hide Full, Verdict, HandedOut, Ownership, OutputsExact;
    ReleaseEffect(h.w, fixed);
    NotYetHandedOut(t);
    hide Next;
  }

  lemma ReleaseEffect(w: World, fixed: bool)
    requires Shape(w.v) && w.mcu.Judged?
    ensures var t := Next(w, fixed, McuRelease);
      && t.produced == w.produced && t.outputs == w.outputs && t.v.loop == w.v.loop && !t.mcu.Judged?
      && (t.consumed == w.consumed || t.consumed == w.consumed + 1)
  {
    hide Finished;
  }

  lemma OtherExplained(h: Watch, fixed: bool, step: Step)
    requires Ownership(h.w) && Explained(h)
    requires step != McuRelease && (step == McuJudge ==> !h.w.mcu.McuReady?)
    ensures Explained(NextWatch(h, fixed, step))
  {
    hide Full, HandedOut, Begin, End, Wanted, Overruns, Verdict;
    var t := Next(h.w, fixed, step);
    assert h.w.produced <= t.produced && t.outputs == h.w.outputs && t.consumed == h.w.consumed;
    assert t.v.loop == h.w.v.loop && (t.mcu.Judged? <==> h.w.mcu.Judged?);
    hide Next, Ownership;
  }

  ghost predicate RunsWatch(h: Watch, fixed: bool, steps: seq<Step>, t: Watch)
    decreases |steps|
  {
    if steps == [] then h == t else Shape(h.w.v) && RunsWatch(NextWatch(h, fixed, steps[0]), fixed, steps[1..], t)
  }

  /** Watching changes nothing: every run can be watched. */
  lemma {:induction false} EveryRunIsWatched(h: Watch, fixed: bool, steps: seq<Step>, t: World) returns (k: Watch)
    requires Runs(h.w, fixed, steps, t)
    ensures RunsWatch(h, fixed, steps, k) && k.w == t
    decreases |steps|
  {
    hide Next;
    if steps == [] {
      k := h;
    } else {
      k := EveryRunIsWatched(NextWatch(h, fixed, steps[0]), fixed, steps[1..], t);
    }
  }

  lemma {:induction false} RunExplained(h: Watch, fixed: bool, steps: seq<Step>, t: Watch)
    requires Ownership(h.w) && OutputsExact(h.w) && Explained(h) && RunsWatch(h, fixed, steps, t)
    ensures Explained(t)
    decreases |steps|
  {
    hide Ownership, OutputsExact, Explained, Next;
    if steps == [] {
    } else {
      var step := steps[0];
      NextOwned(h.w, fixed, step);
      NextOutputsExact(h.w, fixed, step);
      if step == McuJudge && h.w.mcu.McuReady? {
        JudgeExplained(h, fixed);
      } else if step == McuRelease && h.w.mcu.Judged? {
        ReleaseExplained(h, fixed);
      } else {
        IdleExplained(h, fixed, step);
      }
      RunExplained(NextWatch(h, fixed, step), fixed, steps[1..], t);
    }
  }

  lemma IdleExplained(h: Watch, fixed: bool, step: Step)
    requires Ownership(h.w) && Explained(h)
    requires step == McuRelease ==> !h.w.mcu.Judged?
    requires step == McuJudge ==> !h.w.mcu.McuReady?
    ensures Explained(NextWatch(h, fixed, step))
  {
    if step != McuRelease {
      OtherExplained(h, fixed, step);
    } else {
      assert NextWatch(h, fixed, step) == h;
    }
  }

  /** Over every interleaving: of the frames given back, those handed out are exactly the full DONE frames
      that had been produced when the call that gave them back came to its verdict. */
  lemma {:induction false} HandedOutIff(loop: nat, lhdc: bool, fixed: bool, steps: seq<Step>, t: Watch, n: nat)
    requires RunsWatch(Watch(Start(loop, lhdc), 0, []), fixed, steps, t) && n < t.w.consumed
    ensures t.w.consumed <= |t.w.produced| && |t.seen| == t.w.consumed
    ensures HandedOut(t.w.outputs, n) <==> Full(t.w.produced[n], t.w.v.loop) && n < t.seen[n]
  {
    StartOwned(loop, lhdc);
    RunExplained(Watch(Start(loop, lhdc), 0, []), fixed, steps, t);
  }

  /** A frame finished between the MCU's verdict and its second look at the state is given back
      without ever being handed out. */
  lemma FinishedLateIsSkipped(w: World, fixed: bool, data: seq<byte>)
    requires Ownership(w) && w.mcu.McuReady? && w.cp.Decoding? && w.v.cpIdx == w.v.mcuIdx
    requires |data| == Wanted(w.v.slot[w.v.cpIdx], w.v.loop, fixed)
    ensures var t := Next(Next(Next(w, fixed, McuJudge), fixed, CpEnd(data, false)), fixed, McuRelease);
            t.produced[|w.produced|].state == Done && t.consumed == w.consumed + 1 && t.outputs == w.outputs
  {
    hide Patch;
  }

  /** Such a run from the start: after the initial silence the MCU judges slot 0 while it is being filled,
      and gives the frame back that is finished in between. */
  lemma SkippedWitness(loop: nat, fixed: bool, data: seq<byte>) returns (t: World)
    requires |data| == loop
    ensures Runs(Start(loop, false), fixed,
                 [McuJudge, McuRelease, McuAdvance] + [CpBegin, McuJudge, CpEnd(data, false), McuRelease], t)
    ensures t.consumed == 2 && |t.produced| == 2 && t.produced[1] == Frame(Done, data) && !HandedOut(t.outputs, 1)
  {
    var w := SilenceHandedOut(loop, fixed);
    t := FilledWhileJudged(loop, fixed, data, w);
    hide Next;
    RunsJoin(Start(loop, false), fixed, [McuJudge, McuRelease, McuAdvance], w,
             [CpBegin, McuJudge, CpEnd(data, false), McuRelease], t);
  }

  /** After the first call of the MCU. */
  ghost function Quiet(loop: nat): World {
    var zeros: seq<byte> := seq(loop, _ => 0);
    var empty := Slot(Idle, 0, zeros);
    World(Slots(loop, [empty, empty, Slot(Idle, loop, zeros)], 0, 0), CpReady, McuReady, [],
          [Frame(Done, zeros)], 1, [(0, zeros)], false)
  }

  lemma SilenceHandedOut(loop: nat, fixed: bool) returns (t: World)
    ensures t == Quiet(loop) && Runs(Start(loop, false), fixed, [McuJudge, McuRelease, McuAdvance], t)
  {
    var zeros: seq<byte> := seq(loop, _ => 0);
    var w0 := Start(loop, false);
    var w1 := w0.(mcu := Judged(0), outputs := [(0, zeros)]);
    t := Quiet(loop);
    var w2 := t.(v := t.v.(mcuIdx := 2), mcu := Released);
    assert Next(w0, fixed, McuJudge) == w1;
    assert Next(w1, fixed, McuRelease) == w2;
    assert Next(w2, fixed, McuAdvance) == t;
    hide Next;
    var none: seq<Step> := [];
    Prepend(w2, fixed, McuAdvance, none, t);
    Prepend(w1, fixed, McuRelease, [McuAdvance], t);
    Prepend(w0, fixed, McuJudge, [McuRelease, McuAdvance], t);
    assert [McuAdvance] + none == [McuAdvance] && [McuRelease] + [McuAdvance] == [McuRelease, McuAdvance]
        && [McuJudge] + [McuRelease, McuAdvance] == [McuJudge, McuRelease, McuAdvance];
  }

  lemma FilledWhileJudged(loop: nat, fixed: bool, data: seq<byte>, w: World) returns (t: World)
    requires |data| == loop && w == Quiet(loop)
    ensures Runs(w, fixed, [CpBegin, McuJudge, CpEnd(data, false), McuRelease], t)
    ensures t.consumed == 2 && t.produced == w.produced + [Frame(Done, data)] && t.outputs == w.outputs
  {
    var m := JudgedTooEarly(loop, fixed, w);
    t := FinishedAndReleased(loop, fixed, data, m);
    hide Next;
    var end := CpEnd(data, false);
    RunsJoin(w, fixed, [CpBegin, McuJudge], m, [end, McuRelease], t);
    assert [CpBegin, McuJudge] + [end, McuRelease] == [CpBegin, McuJudge, end, McuRelease];
  }

  /** The MCU has found slot 0 at work. */
  ghost function Early(loop: nat): World {
    var w, zeros := Quiet(loop), seq(loop, _ => 0 as byte);
    w.(v := w.v.(slot := w.v.slot[0 := Slot(Working, 0, zeros)]), cp := Decoding, mcu := Judged(1))
  }

  lemma JudgedTooEarly(loop: nat, fixed: bool, w: World) returns (t: World)
    requires w == Quiet(loop)
    ensures t == Early(loop) && Runs(w, fixed, [CpBegin, McuJudge], t)
  {
    t := Early(loop);
    var m := t.(mcu := McuReady);
    assert Next(w, fixed, CpBegin) == m;
    assert Next(m, fixed, McuJudge) == t;
    hide Next;
    var none: seq<Step> := [];
    Prepend(m, fixed, McuJudge, none, t);
    Prepend(w, fixed, CpBegin, [McuJudge], t);
    assert [McuJudge] + none == [McuJudge] && [CpBegin] + [McuJudge] == [CpBegin, McuJudge];
  }

  lemma FinishedAndReleased(loop: nat, fixed: bool, data: seq<byte>, w: World) returns (t: World)
    requires |data| == loop && w == Early(loop)
    ensures Runs(w, fixed, [CpEnd(data, false), McuRelease], t)
    ensures t.consumed == 2 && t.produced == w.produced + [Frame(Done, data)] && t.outputs == w.outputs
  {
    var zeros, filled := w.v.slot[0].out, Slot(Done, loop, data);
    var m := w.(v := w.v.(slot := w.v.slot[0 := filled]), cp := Stored, produced := w.produced + [Frame(Done, data)]);
    t := m.(v := w.v.(slot := w.v.slot[0 := filled.(state := Idle)]), mcu := Released, consumed := 2);
    assert Patch(zeros, 0, data) == data && w.acc + data == data;
    assert Next(w, fixed, CpEnd(data, false)) == m;
    assert Next(m, fixed, McuRelease) == t;
    hide Next;
    var end := CpEnd(data, false);
    var none: seq<Step> := [];
    Prepend(m, fixed, McuRelease, none, t);
    Prepend(w, fixed, end, [McuRelease], t);
    assert [McuRelease] + none == [McuRelease] && [end] + [McuRelease] == [end, McuRelease];
  }

  lemma {:induction false} Prepend(w: World, fixed: bool, step: Step, rest: seq<Step>, t: World)
    requires Shape(w.v) && Runs(Next(w, fixed, step), fixed, rest, t)
    ensures Runs(w, fixed, [step] + rest, t)
  {
    hide Next;
    assert ([step] + rest)[1..] == rest;
  }

  lemma {:induction false} RunsJoin(w: World, fixed: bool, xs: seq<Step>, m: World, ys: seq<Step>, t: World)
    requires Runs(w, fixed, xs, m) && Runs(m, fixed, ys, t)
    ensures Runs(w, fixed, xs + ys, t)
    decreases |xs|
  {
    hide Next;
    if xs == [] {
      assert xs + ys == ys;
    } else {
      RunsJoin(Next(w, fixed, xs[0]), fixed, xs[1..], m, ys, t);
      assert (xs + ys)[1..] == xs[1..] + ys;
    }
  }

  // ---- When a write leaves its slot ----

  /** The decoder may run over the end of a slot exactly when the slot held something and the whole size
      was asked for. */
  lemma MayOverrunIff(s: Slot, loop: nat, fixed: bool)
    requires loop > 0 && s.outLen <= loop
    ensures (forall data | |data| <= Wanted(s, loop, fixed) :: !Overruns(s, loop, data)) <==> fixed || s.outLen == 0
  {
    if !fixed && s.outLen > 0 {
      var data: seq<byte> := seq(loop, _ => 0);
      assert Overruns(s, loop, data);
    }
  }

  /** The same at every point of every run that decodes: some output of the decoder leaves the slot if and
      only if the whole size is passed and an earlier attempt left bytes in the slot. */
  lemma {:induction false} OverrunIff(loop: nat, lhdc: bool, fixed: bool, steps: seq<Step>, t: World)
    requires loop > 0 && Runs(Start(loop, lhdc), fixed, steps, t) && t.cp.Decoding? && !t.overrun
    ensures Shape(t.v) && t.v.loop == loop
    ensures (exists data: seq<byte> :: |data| <= Wanted(t.v.slot[t.v.cpIdx], loop, fixed)
                                       && Next(t, fixed, CpEnd(data, true)).overrun)
       <==> !fixed && t.acc != []
  {
    SlotProtocolIsSafe(loop, lhdc, fixed, steps, t);
    LoopStays(Start(loop, lhdc), fixed, steps, t);
    OverrunIffHere(t, fixed);
    hide Next, Ownership, Overruns, Wanted, OutputsExact;
  }

  lemma OverrunIffHere(t: World, fixed: bool)
    requires Ownership(t) && t.v.loop > 0 && t.cp.Decoding? && !t.overrun
    ensures Shape(t.v)
    ensures (exists data: seq<byte> :: |data| <= Wanted(t.v.slot[t.v.cpIdx], t.v.loop, fixed)
                                       && Next(t, fixed, CpEnd(data, true)).overrun)
       <==> !fixed && t.acc != []
  {
    assert Shape(t.v);
    var s := t.v.slot[t.v.cpIdx];
    DecodingSlot(t);
    MayOverrunIff(s, t.v.loop, fixed);
    hide Ownership, Overruns, Next;
    if !fixed && t.acc != [] {
      var data: seq<byte> :| |data| <= Wanted(s, t.v.loop, fixed) && Overruns(s, t.v.loop, data);
      EndOverruns(t, fixed, data);
    } else {
      forall data: seq<byte> | |data| <= Wanted(s, t.v.loop, fixed)
        ensures !Next(t, fixed, CpEnd(data, true)).overrun
      {
        EndOverruns(t, fixed, data);
      }
    }
  }

  lemma EndOverruns(w: World, fixed: bool, data: seq<byte>)
    requires Shape(w.v) && w.cp.Decoding? && |data| <= Wanted(w.v.slot[w.v.cpIdx], w.v.loop, fixed)
    ensures Next(w, fixed, CpEnd(data, true)).overrun
         == (w.overrun || Overruns(w.v.slot[w.v.cpIdx], w.v.loop, data))
  {
    hide Patch, Overruns, Wanted;
  }

  /** The slot being decoded into holds what was decoded since it was empty. */
  lemma DecodingSlot(w: World)
    requires Ownership(w) && w.cp.Decoding?
    ensures var s := w.v.slot[w.v.cpIdx]; s.outLen == |w.acc| && s.outLen <= w.v.loop
  {
    var c := w.v.cpIdx;
    assert SlotOwned(w.v.slot[c], Dist(McuAt(w), c), Waiting(w), w.acc, w.overrun);
  }

  lemma {:induction false} LoopStays(w: World, fixed: bool, steps: seq<Step>, t: World)
    requires Runs(w, fixed, steps, t)
    ensures t.v.loop == w.v.loop
    decreases |steps|
  {
    if steps == [] {
    } else {
      LoopOfNext(w, fixed, steps[0]);
      hide Next;
      LoopStays(Next(w, fixed, steps[0]), fixed, steps[1..], t);
    }
  }

  lemma LoopOfNext(w: World, fixed: bool, step: Step)
    requires Shape(w.v)
    ensures Next(w, fixed, step).v.loop == w.v.loop
  {
    hide Begin, End, Wanted, Overruns, Verdict;
  }

  /** Every attempt of the run starts with an empty slot. */
  ghost predicate StartsEmpty(w: World, fixed: bool, steps: seq<Step>)
    decreases |steps|
  {
    steps == [] ||
    (Shape(w.v) && (steps[0].CpEnd? && w.cp.Decoding? ==> w.acc == [])
     && StartsEmpty(Next(w, fixed, steps[0]), fixed, steps[1..]))
  }

  /** In a run without attempts on a slot that already holds bytes nothing ever leaves its slot, so that
      the bytes handed out are exact with the whole size passed, too. */
  lemma {:induction false} EmptyStartsStayInside(loop: nat, lhdc: bool, fixed: bool, steps: seq<Step>, t: World)
    requires Runs(Start(loop, lhdc), fixed, steps, t) && StartsEmpty(Start(loop, lhdc), fixed, steps)
    ensures !t.overrun
  {
    StartOwned(loop, lhdc);
    RunStaysInside(Start(loop, lhdc), fixed, steps, t);
  }

  lemma {:induction false} RunStaysInside(w: World, fixed: bool, steps: seq<Step>, t: World)
    requires Ownership(w) && !w.overrun && Runs(w, fixed, steps, t) && StartsEmpty(w, fixed, steps)
    ensures !t.overrun
    decreases |steps|
  {
    hide Ownership, Next;
    if steps == [] {
    } else {
      NextOwned(w, fixed, steps[0]);
      EmptyStartStaysInside(w, fixed, steps[0]);
      RunStaysInside(Next(w, fixed, steps[0]), fixed, steps[1..], t);
    }
  }

  lemma EmptyStartStaysInside(w: World, fixed: bool, step: Step)
    requires Ownership(w) && !w.overrun && (step.CpEnd? && w.cp.Decoding? ==> w.acc == [])
    ensures !Next(w, fixed, step).overrun
  {
    if step.CpEnd? && w.cp.Decoding? {
      DecodingSlot(w);
    }
    hide Patch, Ownership;
  }

  /** A run that does: two bytes and a retry, then the four bytes that were asked for. */
  lemma OverrunWitness() returns (t: World)
    ensures Runs(Start(4, false), false, [CpBegin, CpEnd([1, 2], true)] + [CpBegin, CpEnd([1, 2, 3, 4], false)], t)
    ensures t.overrun && |t.produced| == 2 && t.produced[1] == Frame(Done, [1, 2, 1, 2, 3, 4])
  {
    t := SecondAttempt();
    FirstAttempt();
    hide Next;
    RunsJoin(Start(4, false), false, [CpBegin, CpEnd([1, 2], true)], Retrying(),
             [CpBegin, CpEnd([1, 2, 3, 4], false)], t);
  }

  /** Two bytes decoded into slot 0, to be continued. */
  ghost function Retrying(): World {
    var w := Start(4, false);
    w.(v := w.v.(slot := w.v.slot[0 := Slot(Working, 2, [1, 2, 0, 0])]), acc := [1, 2])
  }

  lemma FirstAttempt()
    ensures Runs(Start(4, false), false, [CpBegin, CpEnd([1, 2], true)], Retrying())
  {
    var w, t := Start(4, false), Retrying();
    var m := w.(v := w.v.(slot := w.v.slot[0 := Slot(Working, 0, [0, 0, 0, 0])]), cp := Decoding);
    assert w.v.slot[0].out == [0, 0, 0, 0];
    assert Next(w, false, CpBegin) == m;
    assert Patch([0, 0, 0, 0], 0, [1, 2]) == [1, 2, 0, 0];
    assert Next(m, false, CpEnd([1, 2], true)) == t;
    hide Next, Start, Retrying;
    var end := CpEnd([1, 2], true);
    var none: seq<Step> := [];
    Prepend(m, false, end, none, t);
    Prepend(w, false, CpBegin, [end], t);
    assert [end] + none == [end] && [CpBegin] + [end] == [CpBegin, end];
  }

  lemma SecondAttempt() returns (t: World)
    ensures Runs(Retrying(), false, [CpBegin, CpEnd([1, 2, 3, 4], false)], t)
    ensures t.overrun && |t.produced| == 2 && t.produced[1] == Frame(Done, [1, 2, 1, 2, 3, 4])
  {
    var w := Retrying();
    var m := w.(cp := Decoding);
    t := w.(v := w.v.(slot := w.v.slot[0 := Slot(Done, 6, [1, 2, 0, 0])]), cp := Stored, acc := [], overrun := true,
            produced := w.produced + [Frame(Done, [1, 2, 1, 2, 3, 4])]);
    assert [1, 2] + [1, 2, 3, 4] == [1, 2, 1, 2, 3, 4];
    assert Next(w, false, CpBegin) == m;
    assert Next(m, false, CpEnd([1, 2, 3, 4], false)) == t;
    hide Next, Retrying;
    var end := CpEnd([1, 2, 3, 4], false);
    var none: seq<Step> := [];
    Prepend(m, false, end, none, t);
    Prepend(w, false, CpBegin, [end], t);
    assert [end] + none == [end] && [CpBegin] + [end] == [CpBegin, end];
  }

  // ---- Progress ----

  /** No core is inside a routine, no slot is half filled, and every frame so far is full. */
  ghost predicate Calm(w: World) {
    && Ownership(w) && w.cp.CpReady? && w.mcu.McuReady? && !w.overrun
    && (forall i | 0 <= i < SLOT_CNT :: w.v.slot[i].state != Working)
    && (forall f | f in w.produced :: Full(f, w.v.loop))
  }

  lemma ThreeSteps(w: World, fixed: bool, x: Step, a: World, y: Step, b: World, z: Step, t: World)
    requires Shape(w.v) && Next(w, fixed, x) == a
    requires Shape(a.v) && Next(a, fixed, y) == b
    requires Shape(b.v) && Next(b, fixed, z) == t
    ensures Runs(w, fixed, [x, y, z], t)
  {
    hide Next, Shape;
    var none: seq<Step> := [];
    Prepend(b, fixed, z, none, t);
    Prepend(a, fixed, y, [z], t);
    Prepend(w, fixed, x, [y, z], t);
    assert [z] + none == [z] && [y] + [z] == [y, z] && [x] + [y, z] == [x, y, z];
  }

  lemma OwnedSteps(w: World, fixed: bool, x: Step, y: Step)
    requires Ownership(w)
    ensures Shape(w.v) && Shape(Next(w, fixed, x).v)
    ensures Ownership(Next(Next(w, fixed, x), fixed, y))
  {
    NextOwned(w, fixed, x);
    var a := Next(w, fixed, x);
    assert Shape(a.v);
    NextOwned(a, fixed, y);
  }

  /** The slot of the next production is free. */
  lemma BeginsEmpty(w: World, fixed: bool)
    requires Calm(w) && |Waiting(w)| < SLOT_CNT
    ensures var c := w.v.cpIdx;
            var begun := w.v.slot[c].(state := Working, outLen := 0);
            Next(w, fixed, CpBegin) == w.(v := w.v.(slot := w.v.slot[c := begun]), cp := Decoding, acc := [])
  {
    var c := w.v.cpIdx;
    assert SlotOwned(w.v.slot[c], Dist(McuAt(w), c), Waiting(w), w.acc, w.overrun);
    hide SlotOwned, SlotsOwned, Full;
  }

  lemma EndsFull(w: World, fixed: bool, data: seq<byte>)
    requires Shape(w.v) && w.cp.Decoding? && w.acc == [] && !w.overrun && |data| == w.v.loop
    requires w.v.slot[w.v.cpIdx].outLen == 0
    ensures var c := w.v.cpIdx;
            var done := Slot(Done, |data|, Patch(w.v.slot[c].out, 0, data));
            Next(w, fixed, CpEnd(data, false)) ==
            w.(v := w.v.(slot := w.v.slot[c := done]), cp := Stored, produced := w.produced + [Frame(Done, data)])
  {
    hide Patch;
    assert [] + data == data;
  }

  /** With fewer than three frames waiting the co-processor can decode another one. */
  lemma ProduceOne(w: World, fixed: bool, data: seq<byte>) returns (t: World)
    requires Calm(w) && |Waiting(w)| < SLOT_CNT && |data| == w.v.loop
    ensures Runs(w, fixed, [CpBegin, CpEnd(data, false), CpAdvance], t) && Calm(t)
    ensures t.produced == w.produced + [Frame(Done, data)] && t.consumed == w.consumed && t.outputs == w.outputs
    ensures t.v.loop == w.v.loop
  {
    BeginsEmpty(w, fixed);
    var a := Next(w, fixed, CpBegin);
    assert Shape(a.v);
    EndsFull(a, fixed, data);
    var b := Next(a, fixed, CpEnd(data, false));
    t := b.(v := b.v.(cpIdx := NextIdx(b.v.cpIdx)), cp := CpReady);
    assert Next(b, fixed, CpAdvance) == t;
    OwnedSteps(w, fixed, CpBegin, CpEnd(data, false));
    assert Shape(b.v);
    NextOwned(b, fixed, CpAdvance);
    hide Next, Ownership, Patch;
    ThreeSteps(w, fixed, CpBegin, a, CpEnd(data, false), b, CpAdvance, t);
  }

  lemma OldestIsReady(w: World)
    requires Calm(w) && Waiting(w) != []
    ensures var s, f := w.v.slot[w.v.mcuIdx], w.produced[w.consumed];
      s.state == Done && s.outLen == w.v.loop && s.out == f.bytes && |f.bytes| == w.v.loop
  {
    var m := w.v.mcuIdx;
    DistMoves(m, m);
    var s := w.v.slot[m];
    assert SlotOwned(s, 0, Waiting(w), w.acc, w.overrun);
    assert w.produced[w.consumed] == Waiting(w)[0] && w.produced[w.consumed] in w.produced;
    assert s.out[..|s.out|] == s.out;
  }

  /** With a frame waiting the MCU can hand it out. */
  lemma ConsumeOne(w: World, fixed: bool) returns (t: World)
    requires Calm(w) && Waiting(w) != []
    ensures Runs(w, fixed, [McuJudge, McuRelease, McuAdvance], t) && Calm(t)
    ensures t.produced == w.produced && t.consumed == w.consumed + 1 && t.v.loop == w.v.loop
    ensures t.outputs == w.outputs + [(w.consumed, w.produced[w.consumed].bytes)]
  {
    OldestIsReady(w);
    var m, s := w.v.mcuIdx, w.v.slot[w.v.mcuIdx];
    var a := w.(mcu := Judged(0), outputs := w.outputs + [(w.consumed, s.out)]);
    assert Next(w, fixed, McuJudge) == a;
    var b := a.(v := w.v.(slot := w.v.slot[m := s.(state := Idle)]), mcu := Released, consumed := w.consumed + 1);
    assert Next(a, fixed, McuRelease) == b;
    t := b.(v := b.v.(mcuIdx := NextIdx(m)), mcu := McuReady);
    assert Next(b, fixed, McuAdvance) == t;
    OwnedSteps(w, fixed, McuJudge, McuRelease);
    assert Shape(b.v);
    NextOwned(b, fixed, McuAdvance);
    hide Next, Ownership;
    ThreeSteps(w, fixed, McuJudge, a, McuRelease, b, McuAdvance, t);
  }

  /** The frames have been produced behind the `first` ones, and as many have been handed out, in order. */
  ghost predicate Played(w: World, first: nat, frames: seq<seq<byte>>) {
    && |w.produced| == first + |frames| && w.consumed == |w.outputs| == |frames|
    && (forall k | 0 <= k < |frames| :: w.produced[first + k] == Frame(Done, frames[k]))
    && (forall k | 0 <= k < |frames| :: w.outputs[k] == (k, w.produced[k].bytes))
  }

  lemma PlayedMore(w: World, t: World, first: nat, frames: seq<seq<byte>>, data: seq<byte>)
    requires Played(w, first, frames) && first > 0
    requires t.produced == w.produced + [Frame(Done, data)] && t.consumed == w.consumed + 1
    requires t.outputs == w.outputs + [(w.consumed, t.produced[w.consumed].bytes)]
    ensures Played(t, first, frames + [data])
  {
  }

  lemma PlayOne(w: World, fixed: bool, first: nat, frames: seq<seq<byte>>, data: seq<byte>) returns (t: World)
    requires Calm(w) && Played(w, first, frames) && 0 < first < SLOT_CNT && |data| == w.v.loop
    ensures Runs(w, fixed, [CpBegin, CpEnd(data, false), CpAdvance] + [McuJudge, McuRelease, McuAdvance], t)
    ensures Calm(t) && t.v.loop == w.v.loop && Played(t, first, frames + [data])
  {
    assert |Waiting(w)| == first;
    hide Next, Runs, Ownership, Shape;
    var m := ProduceOne(w, fixed, data);
    assert Waiting(m) != [];
    t := ConsumeOne(m, fixed);
    hide Calm;
    PlayedMore(w, t, first, frames, data);
    hide Played;
    RunsJoin(w, fixed, [CpBegin, CpEnd(data, false), CpAdvance], m, [McuJudge, McuRelease, McuAdvance], t);
  }

  lemma StartIsCalm(loop: nat, lhdc: bool)
    ensures Calm(Start(loop, lhdc)) && Played(Start(loop, lhdc), if lhdc then 2 else 1, [])
  {
    StartOwned(loop, lhdc);
    hide Ownership;
  }

  /** Any list of full frames can be decoded and handed out, after the silence of the start and in order. */
  lemma {:induction false} EveryFrameIsPlayed(loop: nat, lhdc: bool, fixed: bool, frames: seq<seq<byte>>)
    returns (steps: seq<Step>, t: World)
    requires forall f | f in frames :: |f| == loop
    ensures Runs(Start(loop, lhdc), fixed, steps, t) && Calm(t) && t.v.loop == loop
    ensures Played(t, if lhdc then 2 else 1, frames)
  {
    if frames == [] {
      steps, t := [], Start(loop, lhdc);
      StartIsCalm(loop, lhdc);
    } else {
      hide *;
      var n := |frames| - 1;
      assert frames[n] in frames && frames == frames[..n] + [frames[n]];
      var before, m := EveryFrameIsPlayed(loop, lhdc, fixed, frames[..n]);
      steps, t := PlayNext(Start(loop, lhdc), fixed, before, m, if lhdc then 2 else 1, frames[..n], frames[n]);
    }
  }

  lemma PlayNext(w: World, fixed: bool, before: seq<Step>, m: World, first: nat, frames: seq<seq<byte>>,
                 data: seq<byte>) returns (steps: seq<Step>, t: World)
    requires Runs(w, fixed, before, m) && Calm(m) && Played(m, first, frames) && 0 < first < SLOT_CNT
    requires |data| == m.v.loop
    ensures Runs(w, fixed, steps, t) && Calm(t) && t.v.loop == m.v.loop && Played(t, first, frames + [data])
  {
    hide *;
    t := PlayOne(m, fixed, first, frames, data);
    var round := [CpBegin, CpEnd(data, false), CpAdvance] + [McuJudge, McuRelease, McuAdvance];
    RunsJoin(w, fixed, before, m, round, t);
    steps := before + round;
  }
}
