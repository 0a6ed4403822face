/** The three PCM slots that the co-processor fills and the MCU empties, `apps/audioplayers/a2dpplay.cpp`.
    `Slots` holds the shared variables; the module `SlotRuns` interleaves the two cores. */
module DecodeSlots {
  import opened Bytes

  const SLOT_CNT := 3

  datatype SlotState = Idle | Working | Done | Failed

  /** `cp_dec_state[i]`, `cp_out_len[i]`, and the slot's region of `cp_out_cache`. */
  datatype Slot = Slot(state: SlotState, outLen: nat, out: seq<byte>)

  /** `loop` is `cp_out_loop_size`, the length of every region. */
  datatype Slots = Slots(loop: nat, slot: seq<Slot>, cpIdx: nat, mcuIdx: nat)

  ghost predicate Shape(v: Slots) {
    && |v.slot| == SLOT_CNT && v.cpIdx < SLOT_CNT && v.mcuIdx < SLOT_CNT
    && forall s | s in v.slot :: |s.out| == v.loop
  }

  function NextIdx(i: nat): nat {
    if i + 1 >= SLOT_CNT then 0 else i + 1
  }

  predicate Finished(s: Slot) {
    s.state == Done || s.state == Failed
  }

  /** Start of an attempt (`cp_a2dp_main` before the decode, and `cp_decode_a2dp_begin`): a finished
      slot is refused, an idle one is taken empty, a working one goes on behind what it holds unless
      that already fills it. */
  function Begin(s: Slot, loop: nat): Slot {
    if Finished(s) then s
    else s.(state := Working, outLen := if s.state == Idle || s.outLen >= loop then 0 else s.outLen)
  }

  /** The length the decoder is asked for. The source passes the whole loop size; `fixed` passes what
      is still missing. */
  function Wanted(s: Slot, loop: nat, fixed: bool): nat {
    if fixed && s.outLen <= loop then loop - s.outLen else loop
  }

  /** The decoder's bytes reach beyond the slot. */
  predicate Overruns(s: Slot, loop: nat, data: seq<byte>) {
    s.outLen + |data| > loop
  }

  /** `region` with `data` written at `at`. A write that reaches beyond the region is not followed into
      the neighbouring memory; see `Overruns`. */
  function Patch(region: seq<byte>, at: nat, data: seq<byte>): (r: seq<byte>)
    ensures |r| == |region|
  {
    if at + |data| <= |region| then region[..at] + data + region[at + |data|..] else region
  }

  /** The decoded bytes and `cp_decode_a2dp_end` up to the store of the final state. */
  function End(s: Slot, loop: nat, fixed: bool, data: seq<byte>, retry: bool): Slot {
    Slot(if retry then s.state else if |data| == Wanted(s, loop, fixed) then Done else Failed,
         s.outLen + |data|, Patch(s.out, s.outLen, data))
  }

  /** Result of `mcu_decode_a2dp_process` before `_exit`: 0 hands the slot's bytes out. */
  function Verdict(s: Slot, loop: nat): int {
    if s.state != Done then 1 else if s.outLen != loop then 2 else 0
  }

  /** The state after `mcu_decode_a2dp_init`: the last slots count as finished with silence. */
  function Init(loop: nat, lhdc: bool): Slots {
    var empty := Slot(Idle, 0, seq(loop, _ => 0));
    var silence := Slot(Done, loop, seq(loop, _ => 0));
    if lhdc then Slots(loop, [empty, silence, silence], 0, 1)
    else Slots(loop, [empty, empty, silence], 0, SLOT_CNT - 1)
  }

  /** The variables of the two cores, each routine run without interference. */
  class SlotBuffer {
    const loop: nat
    var slot: seq<Slot>
    var cpDecIdx: nat
    var mcuDecIdx: nat

    function View(): Slots
      reads this
    {
      Slots(loop, slot, cpDecIdx, mcuDecIdx)
    }

    /** `mcu_decode_a2dp_init`, with the co-processor's variables zeroed. */
    constructor (loop: nat, lhdc: bool)
      ensures View() == Init(loop, lhdc) && Shape(View())
    {
      this.loop := loop;
      cpDecIdx := 0;
      mcuDecIdx := if lhdc then 1 else SLOT_CNT - 1;
      slot := seq(SLOT_CNT, _ => Slot(Idle, 0, seq(loop, _ => 0)));
      new;
      for i := mcuDecIdx to SLOT_CNT
        invariant mcuDecIdx == (if lhdc then 1 else 2) && mcuDecIdx <= i && cpDecIdx == 0 && |slot| == SLOT_CNT
        invariant forall k | 0 <= k < SLOT_CNT ::
          slot[k] == if mcuDecIdx <= k < i then Init(loop, lhdc).slot[2] else Init(loop, lhdc).slot[0]
      {
        slot := slot[i := slot[i].(state := Done, outLen := loop)];
      }
    }

    /** One attempt of the co-processor: begin, the decoder's output, end. */
    method DecodeFrame(fixed: bool, data: seq<byte>, retry: bool) returns (started: bool)
      requires Shape(View())
      modifies this
      ensures Shape(View())
      ensures started <==> !Finished(old(slot[cpDecIdx]))
      ensures !started ==> View() == old(View())
      ensures started ==>
                var s := End(Begin(old(slot[cpDecIdx]), loop), loop, fixed, data, retry);
                && slot == old(slot)[old(cpDecIdx) := s] && mcuDecIdx == old(mcuDecIdx)
                && cpDecIdx == if retry then old(cpDecIdx) else NextIdx(old(cpDecIdx))
    {
      hide Patch;
      var s := slot[cpDecIdx];
      if s.state != Idle && s.state != Working {
        return false;
      }
      if s.state == Working {
        if s.outLen >= loop {
          s := s.(outLen := 0);
        }
      } else {
        s := s.(state := Working, outLen := 0);
      }
      var wanted := Wanted(s, loop, fixed);
      s := s.(out := Patch(s.out, s.outLen, data), outLen := s.outLen + |data|);
      if !retry {
        s := s.(state := if wanted == |data| then Done else Failed);
      }
      slot := slot[cpDecIdx := s];
      if !retry {
        cpDecIdx := cpDecIdx + 1;
        if cpDecIdx >= SLOT_CNT {
          cpDecIdx := 0;
        }
      }
      return true;
    }

    /** `mcu_decode_a2dp_process` with the output buffer as long as a slot. */
    method Process() returns (ret: int, pcm: seq<byte>)
      requires Shape(View())
      modifies this
      ensures Shape(View())
      ensures var s := old(slot[mcuDecIdx]);
              && ret == Verdict(s, loop)
              && pcm == (if ret == 0 then s.out else [])
              && cpDecIdx == old(cpDecIdx)
              && if Finished(s)
                 then slot == old(slot)[old(mcuDecIdx) := s.(state := Idle)] && mcuDecIdx == NextIdx(old(mcuDecIdx))
                 else slot == old(slot) && mcuDecIdx == old(mcuDecIdx)
    {
      var s := slot[mcuDecIdx];
      pcm := [];
      if s.state != Done {
        ret := 1;
      } else if s.outLen != loop {
        ret := 2;
      } else {
        ret := 0;
        pcm := s.out;
      }
      if s.state == Done || s.state == Failed {
        slot := slot[mcuDecIdx := s.(state := Idle)];
        mcuDecIdx := mcuDecIdx + 1;
        if mcuDecIdx >= SLOT_CNT {
          mcuDecIdx := 0;
        }
      }
    }
  }
}
