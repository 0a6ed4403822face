/** Reassembly of fragmented LHDC media packets, `assemble_lhdc_packet` of
    `apps/audioplayers/a2dpplay.cpp`. */
module LhdcAssembler {
  import opened Bytes
  import opened Copies

  const PACKET_BUFFER_LENGTH := 4 * 1024

  // Bits of the header byte: 0x80 fragmented, 0x40 start, 0x20 last.

  /** `hdr & A2DP_LHDC_HDR_FLAG_MSK` is zero. */
  predicate IsSingle(hdr: byte) {
    hdr / 32 == 0
  }

  predicate HasStart(hdr: byte) {
    hdr / 64 % 2 == 1
  }

  predicate HasLast(hdr: byte) {
    hdr / 32 % 2 == 1
  }

  /** The flags are the upper three bits of the header byte. */
  lemma FlagsOfBits(fragmented: nat, start: nat, last: nat, latency: nat)
    requires fragmented < 2 && start < 2 && last < 2 && latency < 32
    ensures var hdr := 128 * fragmented + 64 * start + 32 * last + latency;
      && (IsSingle(hdr) <==> fragmented == start == last == 0)
      && (HasStart(hdr) <==> start == 1) && (HasLast(hdr) <==> last == 1)
  {
  }

  datatype Status = WaitStart | WaitLast

  /** The assembler's variables as a value; `buffered` is the used part of `packet_buffer`. */
  datatype Asm = Asm(synced: bool, serial: byte, status: Status, buffered: seq<byte>)

  /** A fragment as it reaches the assembler. */
  datatype Fragment = Fragment(hdr: byte, seqNo: byte, payload: seq<byte>)

  /** Return code and, when it is 1, the payload handed out. */
  datatype Outcome = Outcome(ret: int, payload: seq<byte>)

  /** `uint8_t` increment. */
  function Succ(n: int): byte {
    (n + 1) % 256
  }

  function Reset(a: Asm): Asm {
    Asm(false, a.serial, WaitStart, [])
  }

  function Sync(a: Asm, f: Fragment): Asm {
    if a.synced then a else a.(synced := true, serial := Succ(f.seqNo))
  }

  /** The `switch` on the assembly status. */
  function Consume(a: Asm, f: Fragment): (Asm, Outcome) {
    match a.status
    case WaitStart =>
      if IsSingle(f.hdr) then (Sync(a, f).(buffered := []), Outcome(1, f.payload))
      else if HasStart(f.hdr) then
        if |a.buffered| + |f.payload| >= PACKET_BUFFER_LENGTH then (a.(buffered := []), Outcome(0, []))
        else (Sync(a, f).(status := WaitLast, buffered := f.payload), Outcome(0, []))
      else (a, Outcome(-1, []))
    case WaitLast =>
      if |a.buffered| + |f.payload| >= PACKET_BUFFER_LENGTH
      then (a.(status := WaitStart, buffered := []), Outcome(-1, []))
      else if HasLast(f.hdr) then (a.(status := WaitStart, buffered := []), Outcome(1, a.buffered + f.payload))
      else (a.(buffered := a.buffered + f.payload), Outcome(0, []))
  }

  /** The whole routine: sequence check first, then the `switch`. */
  function Next(a: Asm, f: Fragment): (Asm, Outcome) {
    if a.synced && f.seqNo != a.serial then
      if IsSingle(f.hdr) || HasStart(f.hdr) then Consume(Reset(a), f) else (Reset(a), Outcome(0, []))
    else Consume(if a.synced then a.(serial := Succ(f.seqNo)) else a, f)
  }

  class Assembler {
    var isSynced: bool
    var serialNo: byte
    var asmPktSt: Status
    const packetBuffer: array<byte>
    var packetBufLen: nat

    ghost predicate Valid()
      reads this
    {
      && packetBuffer.Length == PACKET_BUFFER_LENGTH
      && packetBufLen < PACKET_BUFFER_LENGTH
      && (asmPktSt == WaitStart ==> packetBufLen == 0)
    }

    ghost function View(): Asm
      requires Valid()
      reads this, packetBuffer
    {
      Asm(isSynced, serialNo, asmPktSt, packetBuffer[..packetBufLen])
    }

    /** `initial_lhdc_assemble_packet`. */
    constructor ()
      ensures Valid() && fresh(packetBuffer) && View() == INIT
    {
      packetBuffer := new byte[PACKET_BUFFER_LENGTH](_ => 0);
      isSynced, serialNo, asmPktSt, packetBufLen := false, 255, WaitStart, 0;
    }

    method ResetAssembly()
      requires Valid()
      modifies this
      ensures Valid() && View() == Reset(old(View()))
    {
      isSynced := false;
      asmPktSt := WaitStart;
      packetBufLen := 0;
    }

    /** The routine from `lhdc_start` on. An unfragmented payload is copied without a length check, so
        the caller owes the bound. The payload handed out is `packetBuffer[..outLen]`. */
    method Start(hdr: byte, seqno: byte, payload: seq<byte>) returns (ret: int, outLen: nat)
      requires Valid()
      requires IsSingle(hdr) ==> |payload| <= PACKET_BUFFER_LENGTH
      modifies this, packetBuffer
      ensures Valid() && outLen <= PACKET_BUFFER_LENGTH
      ensures (View(), Outcome(ret, packetBuffer[..outLen])) == Consume(old(View()), Fragment(hdr, seqno, payload))
    {
      hide IsSingle, HasStart, HasLast, Succ;
      outLen := 0;
      match asmPktSt {
        case WaitStart =>
          if IsSingle(hdr) {
            CopyInto(packetBuffer, 0, payload);
            assert packetBuffer[..|payload|] == payload;
            outLen := |payload|;
            ret := 1;
          } else if HasStart(hdr) {
            ret := 0;
            if packetBufLen + |payload| >= PACKET_BUFFER_LENGTH {
              return;
            }
            CopyInto(packetBuffer, 0, payload);
            assert packetBuffer[..|payload|] == payload;
            packetBufLen := |payload|;
            asmPktSt := WaitLast;
          } else {
            ret := -1;
          }
          if ret >= 0 && !isSynced {
            isSynced := true;
            serialNo := Succ(seqno);
          }
        case WaitLast =>
          if packetBufLen + |payload| >= PACKET_BUFFER_LENGTH {
            packetBufLen := 0;
            asmPktSt := WaitStart;
            return -1, 0;
          }
          ghost var was := packetBuffer[..packetBufLen];
          CopyInto(packetBuffer, packetBufLen, payload);
          assert packetBuffer[..packetBufLen + |payload|] == was + payload;
          packetBufLen := packetBufLen + |payload|;
          ret := 0;
          if HasLast(hdr) {
            outLen := packetBufLen;
            packetBufLen := 0;
            ret := 1;
            asmPktSt := WaitStart;
          }
      }
    }

    /** `assemble_lhdc_packet`: two header bytes, then the payload. */
    method Assemble(input: seq<byte>) returns (ret: int, outLen: nat)
      requires Valid() && |input| >= 2
      requires IsSingle(input[0]) ==> |input| - 2 <= PACKET_BUFFER_LENGTH
      modifies this, packetBuffer
      ensures Valid() && outLen <= PACKET_BUFFER_LENGTH
      ensures (View(), Outcome(ret, packetBuffer[..outLen])) ==
              Next(old(View()), Fragment(input[0], input[1], input[2..]))
    {
      hide Consume, IsSingle, HasStart, Succ;
      var hdr, seqno := input[0], input[1];
      if isSynced {
        if seqno != serialNo {
          ResetAssembly();
          if !(IsSingle(hdr) || HasStart(hdr)) {
            return 0, 0;
          }
        } else {
          serialNo := Succ(seqno);
        }
      }
      ret, outLen := Start(hdr, seqno, input[2..]);
    }
  }

  const INIT := Asm(false, 255, WaitStart, [])

  /** The payloads handed out while a sequence of fragments is fed in. */
  function Emitted(a: Asm, frags: seq<Fragment>): seq<seq<byte>>
    decreases |frags|
  {
    if frags == [] then []
    else
      var (a', o) := Next(a, frags[0]);
      (if o.ret == 1 then [o.payload] else []) + Emitted(a', frags[1..])
  }

  // ---- Sender and channel ----

  /** A fragment the sender produced, and whether the channel delivered it. */
  datatype Sent = Sent(hdr: byte, payload: seq<byte>, arrived: bool)

  type Packet = seq<Sent>

  /** One unfragmented piece that fits the buffer, or first, any number of middle ones, last. */
  ghost predicate WellFormed(p: Packet) {
    && p != []
    && (|p| == 1 ==> IsSingle(p[0].hdr) && |p[0].payload| <= PACKET_BUFFER_LENGTH)
    && (|p| > 1 ==>
          && !IsSingle(p[0].hdr) && HasStart(p[0].hdr) && !HasLast(p[0].hdr)
          && forall k | 0 < k < |p| ::
               !IsSingle(p[k].hdr) && !HasStart(p[k].hdr) && (HasLast(p[k].hdr) <==> k == |p| - 1))
  }

  function Content(p: Packet): seq<byte> {
    if p == [] then [] else Content(p[..|p| - 1]) + p[|p| - 1].payload
  }

  ghost predicate AllArrived(p: Packet) {
    forall k | 0 <= k < |p| :: p[k].arrived
  }

  /** A packet that can come out: nothing lost and, when fragmented, small enough for the buffer. */
  ghost predicate Deliverable(p: Packet) {
    AllArrived(p) && (|p| == 1 || |Content(p)| < PACKET_BUFFER_LENGTH)
  }

  ghost function Delivered(stream: seq<Packet>): seq<seq<byte>> {
    if stream == [] then []
    else (if Deliverable(stream[0]) then [Content(stream[0])] else []) + Delivered(stream[1..])
  }

  function Flatten(stream: seq<Packet>): seq<Sent> {
    if stream == [] then [] else stream[0] + Flatten(stream[1..])
  }

  /** What reaches the assembler from position `p` on; fragment `i` carries number `s0 + i` mod 256. */
  function Arriving(sent: seq<Sent>, s0: nat, p: nat): seq<Fragment>
    requires p <= |sent|
    decreases |sent| - p
  {
    if p == |sent| then []
    else if sent[p].arrived then [Fragment(sent[p].hdr, (s0 + p) % 256, sent[p].payload)] + Arriving(sent, s0, p + 1)
    else Arriving(sent, s0, p + 1)
  }

  /** `i` and `j` arrived and everything between them was lost. */
  ghost predicate Neighbours(sent: seq<Sent>, i: int, j: int) {
    && 0 <= i < j < |sent| && sent[i].arrived && sent[j].arrived
    && forall k | i < k < j :: !sent[k].arrived
  }

  /** More of the packet is to come after this fragment. */
  predicate Open(hdr: byte) {
    !IsSingle(hdr) && !HasLast(hdr)
  }

  /** No run of losses that starts inside a packet, behind an arrival, is a positive multiple of 256
      fragments long. Losses between packets may have any length. */
  ghost predicate GapsDetectable(sent: seq<Sent>) {
    forall i, j | Neighbours(sent, i, j) && Open(sent[i].hdr) :: j == i + 1 || (j - i - 1) % 256 != 0
  }

  // ---- The simulation ----

  /** The piece of packet `p` that should be in the buffer after its first `k` fragments. */
  ghost function Part(p: Packet, k: nat): seq<byte>
    requires k <= |p|
  {
    Content(p[..k])
  }

  ghost predicate InPart(p: Packet, k: nat)
    requires k <= |p|
  {
    0 < k < |p| && AllArrived(p[..k]) && |Part(p, k)| < PACKET_BUFFER_LENGTH
  }

  /** The assembler after position `pos`, the last arrival being at `last` (-1 if none), when the
      current packet has had `k` fragments. */
  ghost predicate Sim(a: Asm, sent: seq<Sent>, s0: nat, pos: nat, last: int, p: Packet, k: nat)
    requires k <= |p|
  {
    && -1 <= last < pos <= |sent|
    && (last >= 0 ==> sent[last].arrived)
    && (forall i | last < i < pos :: !sent[i].arrived)
    && (a.synced ==> last >= 0 && a.serial == (s0 + last + 1) % 256)
    && (a.status == WaitLast ==> a.synced && Open(sent[last].hdr))
    && (a.status == WaitStart ==> a.buffered == [])
    && (a.status == WaitLast && last == pos - 1 <==> InPart(p, k))
    && (InPart(p, k) ==> a.buffered == Part(p, k))
  }

  /** The number of the next arrival is the expected one exactly when nothing was lost. */
  lemma SerialMatchesIff(s0: nat, pos: nat, last: nat)
    requires last < pos && (pos == last + 1 || (pos - last - 1) % 256 != 0)
    ensures (s0 + pos) % 256 == (s0 + last + 1) % 256 <==> pos == last + 1
  {
  }

  lemma PartGrows(p: Packet, k: nat)
    requires k < |p|
    ensures Part(p, k + 1) == Part(p, k) + p[k].payload
    ensures AllArrived(p[..k + 1]) <==> AllArrived(p[..k]) && p[k].arrived
  {
    assert p[..k + 1][..k] == p[..k];
    assert AllArrived(p[..k + 1]) ==> AllArrived(p[..k]) && p[..k + 1][k].arrived;
  }

  lemma LossStep(a: Asm, sent: seq<Sent>, s0: nat, pos: nat, last: int, p: Packet, k: nat)
    requires k < |p| && Sim(a, sent, s0, pos, last, p, k)
    requires pos < |sent| && sent[pos] == p[k] && !p[k].arrived
    ensures Sim(a, sent, s0, pos + 1, last, p, k + 1)
  {
    PartGrows(p, k);
  }

  /** A fragment that does not continue the buffered part: a single is handed out, a start opens a new
      part, anything else leaves no part open. */
  lemma NextWithoutPart(a: Asm, f: Fragment)
    requires a.status == WaitStart ==> a.buffered == []
    requires a.status == WaitLast ==> a.synced && f.seqNo != a.serial
    ensures var (b, o) := Next(a, f);
            && (b.synced ==> b.serial == Succ(f.seqNo))
            && (b.status == WaitStart ==> b.buffered == [])
            && (o.ret == 1 <==> IsSingle(f.hdr))
            && (o.ret == -1 <==> !IsSingle(f.hdr) && !HasStart(f.hdr) && !(a.synced && f.seqNo != a.serial))
            && o.ret in {-1, 0, 1}
            && (o.ret == 1 ==> o.payload == f.payload)
            && (b.status == WaitLast <==> !IsSingle(f.hdr) && HasStart(f.hdr) && |f.payload| < PACKET_BUFFER_LENGTH)
            && (b.status == WaitLast ==> b.synced && b.buffered == f.payload)
  {
  }

  /** The next fragment in order extends the part, ends it, or no longer fits. */
  lemma NextWithPart(a: Asm, f: Fragment)
    requires a.status == WaitLast && a.synced && f.seqNo == a.serial
    ensures var (b, o) := Next(a, f);
            var whole := a.buffered + f.payload;
            && b.synced && b.serial == Succ(f.seqNo)
            && (o.ret == 1 <==> HasLast(f.hdr) && |whole| < PACKET_BUFFER_LENGTH)
            && (o.ret == -1 <==> |whole| >= PACKET_BUFFER_LENGTH) && o.ret in {-1, 0, 1}
            && (o.ret == 1 ==> o.payload == whole)
            && (b.status == WaitLast <==> !HasLast(f.hdr) && |whole| < PACKET_BUFFER_LENGTH)
            && b.buffered == if b.status == WaitLast then whole else []
  {
  }

  lemma {:induction false} ArrivalStep(a: Asm, sent: seq<Sent>, s0: nat, pos: nat, last: int, p: Packet, k: nat)
    requires WellFormed(p) && k < |p| && Sim(a, sent, s0, pos, last, p, k)
    requires pos < |sent| && sent[pos] == p[k] && p[k].arrived && GapsDetectable(sent)
    ensures var (a', o) := Next(a, Fragment(p[k].hdr, (s0 + pos) % 256, p[k].payload));
            && Sim(a', sent, s0, pos + 1, pos, p, k + 1)
            && (o.ret == 1 <==> k == |p| - 1 && Deliverable(p))
            && (o.ret == 1 ==> o.payload == Content(p))
  {
    hide Next, IsSingle, HasStart, HasLast, Content;
    var f := Fragment(p[k].hdr, (s0 + pos) % 256, p[k].payload);
    PartGrows(p, k);
    PartEnds(p);
    SuccOfNumber(s0, pos);
    if a.status == WaitLast {
      assert Neighbours(sent, last, pos);
      SerialMatchesIff(s0, pos, last);
    }
    if InPart(p, k) {
      NextWithPart(a, f);
    } else {
      NextWithoutPart(a, f);
    }
  }

  lemma {:induction false} PartEnds(p: Packet)
    ensures Part(p, |p|) == Content(p) && Part(p, 0) == [] && p[..|p|] == p
  {
    assert p[..|p|] == p;
  }

  lemma SuccOfNumber(s0: nat, pos: nat)
    ensures Succ((s0 + pos) % 256) == (s0 + pos + 1) % 256
  {
  }

  /** One position of the sender's stream, lost or not. */
  lemma StepOnce(a: Asm, sent: seq<Sent>, s0: nat, pos: nat, last: int, p: Packet, k: nat) returns (a': Asm, last': int)
    requires WellFormed(p) && k < |p| && Sim(a, sent, s0, pos, last, p, k)
    requires pos < |sent| && sent[pos] == p[k] && GapsDetectable(sent)
    ensures Sim(a', sent, s0, pos + 1, last', p, k + 1)
    ensures Emitted(a, Arriving(sent, s0, pos)) ==
            (if k == |p| - 1 && Deliverable(p) then [Content(p)] else []) + Emitted(a', Arriving(sent, s0, pos + 1))
  {
    if p[k].arrived {
      ArrivalStep(a, sent, s0, pos, last, p, k);
      var (b, o) := Next(a, Fragment(p[k].hdr, (s0 + pos) % 256, p[k].payload));
      assert Arriving(sent, s0, pos)[1..] == Arriving(sent, s0, pos + 1);
      a', last' := b, pos;
    } else {
      LossStep(a, sent, s0, pos, last, p, k);
      a', last' := a, last;
    }
  }

  /** At the end of a packet the simulation starts afresh for the next one. */
  lemma NextPacket(a: Asm, sent: seq<Sent>, s0: nat, pos: nat, last: int, p: Packet, q: Packet)
    requires Sim(a, sent, s0, pos, last, p, |p|)
    ensures Sim(a, sent, s0, pos, last, q, 0)
  {
  }

  lemma SliceTail<T>(s: seq<T>, pos: nat, p: seq<T>, k: nat, rest: seq<T>)
    requires pos <= |s| && k < |p| && s[pos..] == p[k..] + rest
    ensures pos < |s| && s[pos] == p[k] && s[pos + 1..] == p[k + 1..] + rest
  {
    assert s[pos] == s[pos..][0] && s[pos + 1..] == s[pos..][1..];
  }

  lemma {:induction false} RunFrom(a: Asm, sent: seq<Sent>, s0: nat, pos: nat, last: int, p: Packet, k: nat,
                                   rest: seq<Packet>)
    requires WellFormed(p) && k < |p| && (forall q | q in rest :: WellFormed(q))
    requires pos <= |sent| && sent[pos..] == p[k..] + Flatten(rest)
    requires GapsDetectable(sent) && Sim(a, sent, s0, pos, last, p, k)
    ensures Emitted(a, Arriving(sent, s0, pos)) == (if Deliverable(p) then [Content(p)] else []) + Delivered(rest)
    decreases |sent| - pos, 0
  {
    hide Sim, Emitted, Arriving, Deliverable, GapsDetectable, Content;
    SliceTail(sent, pos, p, k, Flatten(rest));
    var a', last' := StepOnce(a, sent, s0, pos, last, p, k);
    if k + 1 < |p| {
      RunFrom(a', sent, s0, pos + 1, last', p, k + 1, rest);
      assert [] + Emitted(a', Arriving(sent, s0, pos + 1)) == Emitted(a', Arriving(sent, s0, pos + 1));
    } else {
      assert p[k + 1..] + Flatten(rest) == Flatten(rest);
      RunRest(a', sent, s0, pos + 1, last', p, rest);
    }
  }

  lemma {:induction false} RunRest(a: Asm, sent: seq<Sent>, s0: nat, pos: nat, last: int, p: Packet, rest: seq<Packet>)
    requires forall q | q in rest :: WellFormed(q)
    requires pos <= |sent| && sent[pos..] == Flatten(rest)
    requires GapsDetectable(sent) && Sim(a, sent, s0, pos, last, p, |p|)
    ensures Emitted(a, Arriving(sent, s0, pos)) == Delivered(rest)
    decreases |sent| - pos, 1
  {
    if rest == [] {
      assert |sent[pos..]| == 0;
    } else {
      var q := rest[0];
      assert q in rest && q[0..] == q;
      NextPacket(a, sent, s0, pos, last, p, q);
      RunFrom(a, sent, s0, pos, last, q, 0, rest[1..]);
    }
  }

  /** Sound and complete reassembly under loss: from the initial state, whatever the first sequence
      number, the payloads handed out are exactly, in order, the contents of the packets all of whose
      fragments arrived (fragmented ones shorter than the buffer). */
  lemma {:induction false} ReassemblyIsExact(stream: seq<Packet>, s0: nat)
    requires forall p | p in stream :: WellFormed(p)
    requires GapsDetectable(Flatten(stream))
    ensures Emitted(INIT, Arriving(Flatten(stream), s0, 0)) == Delivered(stream)
  {
    if stream == [] {
    } else {
      assert stream[0][0..] == stream[0] && stream[0] in stream;
      var sent := Flatten(stream);
      assert sent[0..] == sent;
      RunFrom(INIT, sent, s0, 0, -1, stream[0], 0, stream[1..]);
    }
  }

  /** The bound on gaps is needed: after any gap that is a multiple of 256, the tail of another packet
      continues the head of this one. */
  lemma UndetectableGapMixes(s: byte, gap: nat, head: seq<byte>, tail: seq<byte>)
    requires gap % 256 == 0 && |head| + |tail| < PACKET_BUFFER_LENGTH
    ensures var first := Fragment(0xC0, s, head);
            var lastOfOther := Fragment(0xA0, (s + 1 + gap) % 256, tail);
            Emitted(INIT, [first, lastOfOther]) == [head + tail]
  {
    var first := Fragment(0xC0, s, head);
    var second := Fragment(0xA0, (s + 1 + gap) % 256, tail);
    var a := Asm(true, Succ(s), WaitLast, head);
    assert Next(INIT, first) == (a, Outcome(0, []));
    assert second.seqNo == Succ(s);
    assert Next(a, second).1 == Outcome(1, head + tail);
    assert [first, second][1..] == [second] && [second][1..] == [];
    assert Emitted(a, [second]) == [head + tail];
  }
}
