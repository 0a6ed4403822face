/** The realignment of CVSD input in `apps/audioplayers/bt_sco_codec_cvsd.c`: packets are delayed by a
    fixed number of bytes so that they line up with the controller's mute pattern. */
module CvsdDelay {
  import opened Bytes
  import opened Copies

  const PACKET_SIZE := 120
  const MUTE_PATTERN: byte := 0x55

  function Mute(n: nat): (bs: seq<byte>) {
    seq(n, _ => MUTE_PATTERN)
  }

  /** `check_cvsd_mute_pattern`. */
  predicate IsMute(bs: seq<byte>) {
    forall i | 0 <= i < |bs| :: bs[i] == MUTE_PATTERN
  }

  /** What a delay line that holds `carry` gives out for `input`, and what it then holds. */
  function Delayed(carry: seq<byte>, input: seq<byte>): (seq<byte>, seq<byte>) {
    ((carry + input)[..|input|], (carry + input)[|input|..])
  }

  /** Packets of a stream that consist of the mute pattern. */
  function MutePackets(bs: seq<byte>): nat
    requires |bs| % PACKET_SIZE == 0
    decreases |bs|
  {
    if bs == [] then 0
    else MutePackets(bs[..|bs| - PACKET_SIZE]) + (if IsMute(bs[|bs| - PACKET_SIZE..]) then 1 else 0)
  }

  class Decoder {
    const offset: nat
    const bufAll: array<byte>
    var total: nat
    var btMute: nat

    /** The offset is at most one packet, so that the last copy does not overlap itself. */
    ghost predicate Valid() {
      offset <= PACKET_SIZE && bufAll.Length == PACKET_SIZE + offset
    }

    ghost function Carry(): seq<byte>
      requires Valid()
      reads bufAll
    {
      bufAll[..offset]
    }

    constructor (offset: nat)
      requires offset <= PACKET_SIZE
      ensures Valid() && fresh(bufAll) && this.offset == offset && Carry() == Mute(offset) && total == btMute == 0
    {
      this.offset := offset;
      bufAll := new byte[PACKET_SIZE + offset](_ => MUTE_PATTERN);
      total, btMute := 0, 0;
    }

    /** One packet: into the buffer behind the carry, the oldest packet out, the rest to the front. */
    method Realign(packet: seq<byte>) returns (out: seq<byte>)
      requires Valid() && |packet| == PACKET_SIZE
      modifies bufAll
      ensures (out, Carry()) == Delayed(old(Carry()), packet)
    {
      ghost var line := Carry() + packet;
      CopyInto(bufAll, offset, packet);
      assert bufAll[..] == line;
      out := bufAll[..PACKET_SIZE];
      CopyInto(bufAll, 0, bufAll[PACKET_SIZE..]);
      assert bufAll[..offset] == line[PACKET_SIZE..];
    }

    /** `bt_sco_codec_cvsd_decoder` up to the sample decoder: the caller's buffer is replaced, packet by
        packet, by what the delay line gives out; mute packets are counted. */
    method Decode(buf: array<byte>)
      requires Valid() && buf != bufAll && buf.Length % PACKET_SIZE == 0
      modifies this, bufAll, buf
      ensures Valid()
      ensures (buf[..], Carry()) == Delayed(old(Carry()), old(buf[..]))
      ensures total == old(total) + buf.Length / PACKET_SIZE
      ensures btMute == old(btMute) + MutePackets(buf[..])
    {
      hide IsMute, MutePackets;
      ghost var carry, input := Carry(), buf[..];
      assert Delayed(carry, []) == ([], carry) by {
        assert carry + [] == carry;
      }
      MuteNone();
      var i := 0;
      while i < buf.Length
        invariant 0 <= i <= buf.Length && i % PACKET_SIZE == 0
        invariant buf[i..] == input[i..]
        invariant (buf[..i], Carry()) == Delayed(carry, input[..i])
        invariant total == old(total) + i / PACKET_SIZE
        invariant btMute == old(btMute) + MutePackets(buf[..i])
      {
        ghost var done := buf[..i];
        var packet := buf[i..i + PACKET_SIZE];
        PacketAt(buf[..], input, i, PACKET_SIZE);
        DelayedJoins(carry, input[..i], packet);
        var out := Realign(packet);
        ghost var before := buf[..];
        CopyInto(buf, i, out);
        PacketReplaced(before, buf[..], input, i, out);
        assert buf[..i + PACKET_SIZE] == done + out;
        MuteSnoc(done, out);
        if IsMute(out) {
          btMute := btMute + 1;
        }
        total := total + 1;
        i := i + PACKET_SIZE;
      }
      assert buf[..i] == buf[..] && input[..i] == input;
    }
  }

  lemma PacketAt(buf: seq<byte>, input: seq<byte>, i: nat, n: nat)
    requires i + n <= |buf| == |input| && buf[i..] == input[i..]
    ensures buf[i..i + n] == input[i..i + n] && input[..i] + buf[i..i + n] == input[..i + n]
  {
    assert buf[i..i + n] == buf[i..][..n] && input[i..i + n] == input[i..][..n];
  }

  lemma PacketReplaced(before: seq<byte>, after: seq<byte>, input: seq<byte>, i: nat, out: seq<byte>)
    requires i + |out| <= |before| == |input| && before[i..] == input[i..]
    requires after == before[..i] + out + before[i + |out|..]
    ensures after[..i + |out|] == before[..i] + out && after[i + |out|..] == input[i + |out|..]
  {
    assert before[i + |out|..] == before[i..][|out|..] && input[i + |out|..] == input[i..][|out|..];
  }

  lemma MuteNone()
    ensures MutePackets([]) == 0
  {
  }

  lemma {:induction false} MuteSnoc(bs: seq<byte>, p: seq<byte>)
    requires |bs| % PACKET_SIZE == 0 && |p| == PACKET_SIZE
    ensures (|bs| + PACKET_SIZE) % PACKET_SIZE == 0
    ensures MutePackets(bs + p) == MutePackets(bs) + (if IsMute(p) then 1 else 0)
  {
    hide IsMute;
    var all := bs + p;
    assert all[..|all| - PACKET_SIZE] == bs && all[|all| - PACKET_SIZE..] == p;
  }

  /** Feeding two inputs one after the other is feeding them together. */
  lemma DelayedJoins(carry: seq<byte>, a: seq<byte>, b: seq<byte>)
    ensures var (out1, c1) := Delayed(carry, a);
            var (out2, c2) := Delayed(c1, b);
            Delayed(carry, a + b) == (out1 + out2, c2)
  {
    var line := carry + a + b;
    var n, k := |a|, |a + b|;
    assert carry + (a + b) == line;
    assert (carry + a)[n..] + b == line[n..];
    assert (carry + a)[..n] == line[..n];
    assert line[n..][..|b|] == line[n..k] && line[n..][|b|..] == line[k..];
    assert line[..k] == line[..n] + line[n..k];
  }

  lemma MuteIff(bs: seq<byte>)
    ensures IsMute(bs) <==> bs == Mute(|bs|)
    ensures forall i | 0 <= i < |bs| :: Mute(|bs|)[i] == 0x55
  {
  }

  /** A packet's worth of mute that ends `|carry|` bytes before a packet boundary of the input leaves the delay
      line as a whole packet, and is counted. */
  lemma {:induction false} MuteLinesUp(carry: seq<byte>, input: seq<byte>, k: nat)
    requires PACKET_SIZE * (k + 1) <= |input| && |carry| <= PACKET_SIZE * k && |input| % PACKET_SIZE == 0
    requires var at := PACKET_SIZE * k - |carry|; input[at..at + PACKET_SIZE] == Mute(PACKET_SIZE)
    ensures var out := Delayed(carry, input).0;
      && out[PACKET_SIZE * k..PACKET_SIZE * (k + 1)] == Mute(PACKET_SIZE)
      && MutePackets(out) >= 1
  {
    hide Mute, MutePackets;
    var out, at := Delayed(carry, input).0, PACKET_SIZE * k - |carry|;
    assert out[PACKET_SIZE * k..PACKET_SIZE * (k + 1)] == input[at..at + PACKET_SIZE];
    MuteIff(out[PACKET_SIZE * k..PACKET_SIZE * (k + 1)]);
    OneIsCounted(out, k);
  }

  lemma {:induction false} OneIsCounted(bs: seq<byte>, k: nat)
    requires |bs| % PACKET_SIZE == 0 && PACKET_SIZE * (k + 1) <= |bs|
    requires IsMute(bs[PACKET_SIZE * k..PACKET_SIZE * (k + 1)])
    ensures MutePackets(bs) >= 1
    decreases |bs|
  {
    hide IsMute;
    var n := |bs| - PACKET_SIZE;
    if PACKET_SIZE * (k + 1) <= n {
      assert bs[..n][PACKET_SIZE * k..PACKET_SIZE * (k + 1)] == bs[PACKET_SIZE * k..PACKET_SIZE * (k + 1)];
      OneIsCounted(bs[..n], k);
    } else {
      assert PACKET_SIZE * k == n;
      assert bs[n..] == bs[n..n + PACKET_SIZE];
    }
  }

  // ---- Runs ----

  /** The packets given to the decoder over a sequence of calls, and the carry they leave. */
  function RunCalls(carry: seq<byte>, inputs: seq<seq<byte>>): (seq<byte>, seq<byte>)
    decreases |inputs|
  {
    if inputs == [] then ([], carry)
    else
      var (out, c) := Delayed(carry, inputs[0]);
      var (rest, last) := RunCalls(c, inputs[1..]);
      (out + rest, last)
  }

  function Joined(inputs: seq<seq<byte>>): seq<byte>
    decreases |inputs|
  {
    if inputs == [] then [] else inputs[0] + Joined(inputs[1..])
  }

  /** However the input is grouped into calls, the stream given to the decoder is the initial mute bytes
      followed by the input, and the carry is the last bytes of that stream. */
  lemma {:induction false} GroupingIsInvisible(carry: seq<byte>, inputs: seq<seq<byte>>)
    ensures RunCalls(carry, inputs) == Delayed(carry, Joined(inputs))
    ensures RunCalls(carry, inputs).0 + RunCalls(carry, inputs).1 == carry + Joined(inputs)
    ensures |RunCalls(carry, inputs).1| == |carry|
    decreases |inputs|
  {
    if inputs == [] {
      assert carry + [] == carry;
    } else {
      GroupingIsInvisible(Delayed(carry, inputs[0]).1, inputs[1..]);
      DelayedJoins(carry, inputs[0], Joined(inputs[1..]));
    }
  }
}
