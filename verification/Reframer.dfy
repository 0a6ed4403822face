/** The queues of `apps/audioplayers/bt_sco_chain_reframe.c`, which turn 120- or 240-sample IO frames
    into 320-sample processing frames. `ReframerRuns` interleaves the caller with the worker thread. */
module Reframer {
  import opened Copies

  type Pcm = int

  const CHANNEL_QTY := 4
  const CHANNEL_VP := 2
  const PROCESS_FRAME_LEN := 320
  const QUEUE_BUF_PCM_NUM := PROCESS_FRAME_LEN * 4
  const PRE_CACHE_OUT_PCM := PROCESS_FRAME_LEN * 2

  /** One block of samples for every channel. */
  predicate IsBlock(b: seq<seq<Pcm>>, n: nat) {
    |b| == CHANNEL_QTY && forall ch | 0 <= ch < CHANNEL_QTY :: |b[ch]| == n
  }

  function Silence(n: nat): seq<Pcm> {
    seq(n, _ => 0)
  }

  class Queues {
    const inBuf: array2<Pcm>
    const outBuf: array<Pcm>
    var inLen: nat
    var outLen: nat

    ghost predicate Valid()
      reads this
    {
      && inBuf.Length0 == CHANNEL_QTY && inBuf.Length1 == QUEUE_BUF_PCM_NUM && inLen <= QUEUE_BUF_PCM_NUM
      && outBuf.Length == QUEUE_BUF_PCM_NUM && outLen <= QUEUE_BUF_PCM_NUM
    }

    /** The queued input samples of every channel. */
    ghost function InQ(): (q: seq<seq<Pcm>>)
      requires Valid()
      reads this, inBuf
      ensures IsBlock(q, inLen)
    {
      seq(CHANNEL_QTY, ch requires 0 <= ch < CHANNEL_QTY reads this, inBuf requires Valid() =>
        seq(inLen, i requires 0 <= i < inLen reads this, inBuf requires Valid() => inBuf[ch, i]))
    }

    ghost function OutQ(): (q: seq<Pcm>)
      requires Valid()
      reads this, outBuf
      ensures |q| == outLen
    {
      outBuf[..outLen]
    }

    /** `bt_sco_chain_reframe_open`: empty input, two frames of silence queued for output. */
    constructor ()
      ensures Valid() && fresh(inBuf) && fresh(outBuf)
      ensures inLen == 0 && OutQ() == Silence(PRE_CACHE_OUT_PCM)
    {
      inBuf := new Pcm[CHANNEL_QTY, QUEUE_BUF_PCM_NUM]((_, _) => 0);
      outBuf := new Pcm[QUEUE_BUF_PCM_NUM](_ => 0);
      inLen, outLen := 0, 0;
      new;
      var _ := WriteOutput(Silence(PRE_CACHE_OUT_PCM));
    }

    method WriteInput(pcm: seq<seq<Pcm>>, frameLen: nat) returns (ret: int)
      requires Valid() && IsBlock(pcm, frameLen)
      modifies this, inBuf
      ensures Valid() && outLen == old(outLen)
      ensures ret == if old(inLen) + frameLen > QUEUE_BUF_PCM_NUM then -1 else 0
      ensures ret != 0 ==> InQ() == old(InQ())
      ensures ret == 0 ==> forall ch | 0 <= ch < CHANNEL_QTY :: InQ()[ch] == old(InQ())[ch] + pcm[ch]
    {
      if inLen + frameLen > QUEUE_BUF_PCM_NUM {
        return -1;
      }
      for ch := 0 to CHANNEL_QTY
        modifies inBuf
        invariant forall c, i | 0 <= c < CHANNEL_QTY && 0 <= i < inLen :: inBuf[c, i] == old(inBuf[c, i])
        invariant forall c, i | 0 <= c < ch && 0 <= i < frameLen :: inBuf[c, inLen + i] == pcm[c][i]
      {
        for k := 0 to frameLen
          modifies inBuf
          invariant forall c, i | 0 <= c < CHANNEL_QTY && 0 <= i < inLen :: inBuf[c, i] == old(inBuf[c, i])
          invariant forall c, i | 0 <= c < ch && 0 <= i < frameLen :: inBuf[c, inLen + i] == pcm[c][i]
          invariant forall i | 0 <= i < k :: inBuf[ch, inLen + i] == pcm[ch][i]
        {
          inBuf[ch, inLen + k] := pcm[ch][k];
        }
      }
      inLen := inLen + frameLen;
      ghost var was := old(InQ());
      forall ch | 0 <= ch < CHANNEL_QTY
        ensures InQ()[ch] == was[ch] + pcm[ch]
      {
        forall i | 0 <= i < inLen
          ensures InQ()[ch][i] == (was[ch] + pcm[ch])[i]
        {
          if i >= old(inLen) {
            assert inBuf[ch, old(inLen) + (i - old(inLen))] == pcm[ch][i - old(inLen)];
          }
        }
      }
      return 0;
    }

    /** The two copies of `_read_input_queue` for one channel: out to the caller, rest to the front. */
    method TakeChannel(ch: nat, frameLen: nat) returns (pcm: seq<Pcm>)
      requires Valid() && ch < CHANNEL_QTY && frameLen <= inLen
      modifies inBuf
      ensures |pcm| == frameLen && forall i | 0 <= i < frameLen :: pcm[i] == old(inBuf[ch, i])
      ensures forall i | 0 <= i < inLen - frameLen :: inBuf[ch, i] == old(inBuf[ch, frameLen + i])
      ensures forall c, i | 0 <= c < CHANNEL_QTY && c != ch && 0 <= i < inLen :: inBuf[c, i] == old(inBuf[c, i])
    {
      pcm := [];
      for k := 0 to frameLen
        invariant |pcm| == k && forall i | 0 <= i < k :: pcm[i] == old(inBuf[ch, i])
      {
        pcm := pcm + [inBuf[ch, k]];
      }
      for k := 0 to inLen - frameLen
        modifies inBuf
        invariant forall i | 0 <= i < k :: inBuf[ch, i] == old(inBuf[ch, frameLen + i])
        invariant forall i | k <= i < inLen :: inBuf[ch, i] == old(inBuf[ch, i])
        invariant forall c, i | 0 <= c < CHANNEL_QTY && c != ch && 0 <= i < inLen :: inBuf[c, i] == old(inBuf[c, i])
      {
        inBuf[ch, k] := inBuf[ch, frameLen + k];
      }
    }

    method ReadInput(frameLen: nat) returns (ret: int, pcm: seq<seq<Pcm>>)
      requires Valid()
      modifies this, inBuf
      ensures Valid() && outLen == old(outLen) && IsBlock(pcm, frameLen)
      ensures ret == if old(inLen) >= frameLen then 0 else -1
      ensures ret != 0 ==> InQ() == old(InQ()) && forall ch | 0 <= ch < CHANNEL_QTY :: pcm[ch] == Silence(frameLen)
      ensures ret == 0 ==> forall ch | 0 <= ch < CHANNEL_QTY ::
                old(InQ())[ch][..frameLen] == pcm[ch] && InQ()[ch] == old(InQ())[ch][frameLen..]
    {
      if inLen < frameLen {
        return -1, seq(CHANNEL_QTY, _ => Silence(frameLen));
      }
      pcm := [];
      ghost var was := InQ();
      for ch := 0 to CHANNEL_QTY
        modifies inBuf
        invariant |pcm| == ch && forall c | 0 <= c < ch :: pcm[c] == was[c][..frameLen]
        invariant forall c, i | 0 <= c < ch && 0 <= i < inLen - frameLen :: inBuf[c, i] == was[c][frameLen + i]
        invariant forall c, i | ch <= c < CHANNEL_QTY && 0 <= i < inLen :: inBuf[c, i] == was[c][i]
      {
        var out := TakeChannel(ch, frameLen);
        assert out == was[ch][..frameLen];
        pcm := pcm + [out];
      }
      inLen := inLen - frameLen;
      ret := 0;
    }

    method WriteOutput(pcm: seq<Pcm>) returns (ret: int)
      requires Valid()
      modifies this, outBuf
      ensures Valid() && inLen == old(inLen)
      ensures ret == if old(outLen) + |pcm| > QUEUE_BUF_PCM_NUM then -1 else 0
      ensures OutQ() == old(OutQ()) + (if ret == 0 then pcm else [])
    {
      if outLen + |pcm| > QUEUE_BUF_PCM_NUM {
        return -1;
      }
      CopyInto(outBuf, outLen, pcm);
      outLen := outLen + |pcm|;
      return 0;
    }

    method ReadOutput(frameLen: nat) returns (ret: int, pcm: seq<Pcm>)
      requires Valid()
      modifies this, outBuf
      ensures Valid() && inLen == old(inLen)
      ensures ret == if old(outLen) < frameLen then -1 else 0
      ensures ret != 0 ==> pcm == Silence(frameLen) && OutQ() == old(OutQ())
      ensures ret == 0 ==> pcm == old(OutQ())[..frameLen] && OutQ() == old(OutQ())[frameLen..]
    {
      if outLen < frameLen {
        return -1, Silence(frameLen);
      }
      ghost var was := OutQ();
      pcm := outBuf[..frameLen];
      ShiftDown(outBuf, frameLen, outLen - frameLen);
      outLen := outLen - frameLen;
      assert OutQ() == was[frameLen..];
      ret := 0;
    }

    /** One pass of the inner loop of `_reframe_thread`: a whole frame is read from all channels; its voice
        channel goes to the output if there is room, and is lost otherwise. */
    method ForwardFrame() returns (more: bool)
      requires Valid()
      modifies this, inBuf, outBuf
      ensures Valid()
      ensures more <==> old(inLen) >= PROCESS_FRAME_LEN && old(outLen) + PROCESS_FRAME_LEN <= QUEUE_BUF_PCM_NUM
      ensures OutQ() == old(OutQ()) + (if more then old(InQ())[CHANNEL_VP][..PROCESS_FRAME_LEN] else [])
      ensures if old(inLen) < PROCESS_FRAME_LEN then InQ() == old(InQ())
              else Taken(old(InQ()), InQ(), PROCESS_FRAME_LEN)
    {
      ghost var o := OutQ();
      var ret, block := ReadInput(PROCESS_FRAME_LEN);
      more := false;
      if ret == 0 && outLen + PROCESS_FRAME_LEN <= QUEUE_BUF_PCM_NUM {
        var _ := WriteOutput(block[CHANNEL_VP]);
        more := true;
      }
      assert o + [] == o;
    }

    /** The inner loop, undisturbed: whole frames are forwarded as long as there is room; the first one for
        which there is none is read and lost, and the loop ends. */
    method Drain()
      requires Valid()
      modifies this, inBuf, outBuf
      ensures Valid()
      ensures var k := Forwarded(old(inLen), old(outLen));
              var read := if NothingLost(old(inLen), old(outLen)) then k else k + 1;
              && PROCESS_FRAME_LEN * read <= old(inLen)
              && OutQ() == old(OutQ()) + old(InQ())[CHANNEL_VP][..PROCESS_FRAME_LEN * k]
              && Taken(old(InQ()), InQ(), PROCESS_FRAME_LEN * read)
    {
      hide Forwarded, NothingLost, Taken;
      ghost var q, o, k := InQ(), OutQ(), 0;
      ghost var lost := false;
      var more := true;
      NothingTaken(q);
      while more
        invariant Valid() && 0 <= k && outLen == |o| + PROCESS_FRAME_LEN * k
        invariant inLen == |q[0]| - PROCESS_FRAME_LEN * (if lost then k + 1 else k) && (lost ==> !more)
        invariant OutQ() == o + q[CHANNEL_VP][..PROCESS_FRAME_LEN * k]
        invariant Taken(q, InQ(), PROCESS_FRAME_LEN * (if lost then k + 1 else k))
        invariant !more && !lost ==> inLen < PROCESS_FRAME_LEN
        invariant !more && lost ==> outLen + PROCESS_FRAME_LEN > QUEUE_BUF_PCM_NUM
        decreases more, inLen
      {
        ghost var n, before, out := PROCESS_FRAME_LEN * k, InQ(), OutQ();
        lost := inLen >= PROCESS_FRAME_LEN && outLen + PROCESS_FRAME_LEN > QUEUE_BUF_PCM_NUM;
        more := ForwardFrame();
        if |before[0]| >= PROCESS_FRAME_LEN {
          FrameTaken(q, before, InQ(), n);
          assert more ==> OutQ() == o + (q[CHANNEL_VP][..n] + before[CHANNEL_VP][..PROCESS_FRAME_LEN]);
        }
        k := if more then k + 1 else k;
      }
      DrainEnds(|q[0]|, |o|, k, lost);
    }
  }

  lemma TakeAndDrop<T>(s: seq<T>, n: nat, m: nat)
    requires n + m <= |s|
    ensures s[n..][m..] == s[n + m..] && s[..n] + s[n..][..m] == s[..n + m]
  {
  }

  /** `n` samples have been taken off every channel of `q`. */
  ghost predicate Taken(q: seq<seq<Pcm>>, rest: seq<seq<Pcm>>, n: nat) {
    && |q| == |rest| == CHANNEL_QTY
    && forall ch | 0 <= ch < CHANNEL_QTY :: n <= |q[ch]| && rest[ch] == q[ch][n..]
  }

  lemma NothingTaken(q: seq<seq<Pcm>>)
    requires |q| == CHANNEL_QTY
    ensures Taken(q, q, 0)
  {
  }

  /** Taking a frame off what is left after `n` samples leaves what is left after `n` plus a frame. */
  lemma FrameTaken(q: seq<seq<Pcm>>, before: seq<seq<Pcm>>, after: seq<seq<Pcm>>, n: nat)
    requires Taken(q, before, n) && Taken(before, after, PROCESS_FRAME_LEN)
    ensures Taken(q, after, n + PROCESS_FRAME_LEN)
    ensures n + PROCESS_FRAME_LEN <= |q[CHANNEL_VP]| && PROCESS_FRAME_LEN <= |before[CHANNEL_VP]|
    ensures q[CHANNEL_VP][..n] + before[CHANNEL_VP][..PROCESS_FRAME_LEN] == q[CHANNEL_VP][..n + PROCESS_FRAME_LEN]
  {
    forall ch | 0 <= ch < CHANNEL_QTY ensures after[ch] == q[ch][n + PROCESS_FRAME_LEN..] {
      TakeAndDrop(q[ch], n, PROCESS_FRAME_LEN);
    }
    TakeAndDrop(q[CHANNEL_VP], n, PROCESS_FRAME_LEN);
  }

  /** Whole frames in the input queue for which the output queue has room. */
  function Forwarded(inLen: nat, outLen: nat): nat
    requires outLen <= QUEUE_BUF_PCM_NUM
  {
    var frames, room := inLen / PROCESS_FRAME_LEN, (QUEUE_BUF_PCM_NUM - outLen) / PROCESS_FRAME_LEN;
    if frames <= room then frames else room
  }

  /** There is room for every whole frame. */
  predicate NothingLost(inLen: nat, outLen: nat)
    requires outLen <= QUEUE_BUF_PCM_NUM
  {
    inLen / PROCESS_FRAME_LEN <= (QUEUE_BUF_PCM_NUM - outLen) / PROCESS_FRAME_LEN
  }

  lemma DrainEnds(inLen: nat, outLen: nat, k: nat, lost: bool)
    requires outLen + PROCESS_FRAME_LEN * k <= QUEUE_BUF_PCM_NUM && PROCESS_FRAME_LEN * k <= inLen
    requires if lost then PROCESS_FRAME_LEN * (k + 1) <= inLen
                          && outLen + PROCESS_FRAME_LEN * (k + 1) > QUEUE_BUF_PCM_NUM
             else inLen < PROCESS_FRAME_LEN * (k + 1)
    ensures Forwarded(inLen, outLen) == k && NothingLost(inLen, outLen) == !lost
  {
  }

  /** With at most one queue's worth of samples in both queues nothing is lost, and less than a frame is
      left. */
  lemma RoomForAll(inLen: nat, outLen: nat)
    requires inLen + outLen <= QUEUE_BUF_PCM_NUM
    ensures NothingLost(inLen, outLen) && inLen - PROCESS_FRAME_LEN * Forwarded(inLen, outLen) < PROCESS_FRAME_LEN
  {
  }
}
