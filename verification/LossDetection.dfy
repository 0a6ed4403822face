/** The sequence numbers written by `bt_sco_codec_msbc_encoder` (`apps/audioplayers/bt_sco_codec_msbc.c`) and
    the verdicts that `packet_loss_detection_process` (`apps/audioplayers/plc_utils.c`) gives on the
    packets that arrive. The CRC of the mSBC frame is a parameter: any predicate of the packet. */
module LossDetection {
  import opened Bytes

  const PACKET_SIZE := 60
  const PAYLOAD_SIZE := 57
  const MUTE_PATTERN: byte := 0x55
  const NONE := 0xff
  const TWO32 := 0x1_0000_0000

  type Packet = p: seq<byte> | |p| == PACKET_SIZE witness seq(PACKET_SIZE, _ => 0)

  datatype Plc =
    | Pass | ControllerMute | HeaderError | CrcError | PadError | DataMissing
    | SequenceDiscontinue | BleConflict | DecoderError | TransmitterOffset
  {
    function Index(): nat {
      match this
      case Pass => 0
      case ControllerMute => 1
      case HeaderError => 2
      case CrcError => 3
      case PadError => 4
      case DataMissing => 5
      case SequenceDiscontinue => 6
      case BleConflict => 7
      case DecoderError => 8
      case TransmitterOffset => 9
    }
  }

  /** `last` is a sequence number or `NONE`; `older` and `newer` are the last two packets;
      `flag0` and `flag1` say of the last two packets that got as far whether they were in conflict. */
  datatype Det = Det(last: nat, older: Packet, newer: Packet, flag0: bool, flag1: bool)

  const START := Det(NONE, seq(PACKET_SIZE, _ => 0), seq(PACKET_SIZE, _ => 0), false, false)

  // Encoder

  function SeqByte(i: nat): byte
    requires i < 4
  {
    if i == 0 then 0x08 else if i == 1 then 0x38 else if i == 2 then 0xC8 else 0xF8
  }

  /** `sco_msbc_packet_t`. */
  function Encoded(index: nat, payload: seq<byte>): Packet
    requires index < 4 && |payload| == PAYLOAD_SIZE
  {
    [0x01, SeqByte(index)] + payload + [0x00]
  }

  function Stream(index: nat, payloads: seq<seq<byte>>): (r: seq<Packet>)
    requires index < 4 && forall i | 0 <= i < |payloads| :: |payloads[i]| == PAYLOAD_SIZE
    decreases |payloads|
  {
    if payloads == [] then [] else [Encoded(index, payloads[0])] + Stream((index + 1) % 4, payloads[1..])
  }

  lemma {:induction false} StreamAt(index: nat, payloads: seq<seq<byte>>, k: nat)
    requires index < 4 && forall i | 0 <= i < |payloads| :: |payloads[i]| == PAYLOAD_SIZE
    requires k < |payloads|
    ensures |Stream(index, payloads)| == |payloads|
    ensures Stream(index, payloads)[k] == Encoded((index + k) % 4, payloads[k])
    decreases |payloads|
  {
    if k > 0 {
      StreamAt((index + 1) % 4, payloads[1..], k - 1);
    } else if |payloads| > 1 {
      StreamAt((index + 1) % 4, payloads[1..], 0);
    }
  }

  /** `g_encoder_seq_index`. The payloads are what the codec makes of the samples. */
  class Encoder {
    var seqIndex: nat

    ghost predicate Valid()
      reads this
    {
      seqIndex < 4
    }

    constructor ()
      ensures Valid() && seqIndex == 0
    {
      seqIndex := 0;
    }

    method Encode(payloads: seq<seq<byte>>) returns (packets: seq<Packet>)
      requires Valid() && forall i | 0 <= i < |payloads| :: |payloads[i]| == PAYLOAD_SIZE
      modifies this
      ensures Valid() && seqIndex == (old(seqIndex) + |payloads|) % 4
      ensures packets == Stream(old(seqIndex), payloads)
    {
      hide Encoded, Stream, AreEncoded;
      packets := [];
      NoneEncoded(seqIndex, payloads);
      for i := 0 to |payloads|
        invariant Valid() && seqIndex == (old(seqIndex) + i) % 4 && |packets| == i
        invariant AreEncoded(old(seqIndex), payloads, packets)
      {
        OneMoreEncoded(old(seqIndex), payloads, packets);
        IndexMoves(old(seqIndex), i);
        packets := packets + [Encoded(seqIndex, payloads[i])];
        seqIndex := (seqIndex + 1) % 4;
      }
      StreamIs(old(seqIndex), payloads, packets);
    }
  }

  /** The packets of the first payloads. */
  ghost predicate AreEncoded(index: nat, payloads: seq<seq<byte>>, packets: seq<Packet>)
    requires index < 4 && forall i | 0 <= i < |payloads| :: |payloads[i]| == PAYLOAD_SIZE
  {
    && |packets| <= |payloads|
    && forall k | 0 <= k < |packets| :: packets[k] == Encoded((index + k) % 4, payloads[k])
  }

  lemma IndexMoves(index: nat, i: nat)
    ensures ((index + i) % 4 + 1) % 4 == (index + (i + 1)) % 4
  {
  }

  lemma NoneEncoded(index: nat, payloads: seq<seq<byte>>)
    requires index < 4 && forall i | 0 <= i < |payloads| :: |payloads[i]| == PAYLOAD_SIZE
    ensures AreEncoded(index, payloads, [])
  {
  }

  lemma OneMoreEncoded(index: nat, payloads: seq<seq<byte>>, packets: seq<Packet>)
    requires index < 4 && forall i | 0 <= i < |payloads| :: |payloads[i]| == PAYLOAD_SIZE
    requires AreEncoded(index, payloads, packets) && |packets| < |payloads|
    ensures var n := |packets|; AreEncoded(index, payloads, packets + [Encoded((index + n) % 4, payloads[n])])
  {
    hide Encoded;
  }

  lemma {:induction false} StreamIs(index: nat, payloads: seq<seq<byte>>, packets: seq<Packet>)
    requires index < 4 && forall i | 0 <= i < |payloads| :: |payloads[i]| == PAYLOAD_SIZE
    requires |packets| == |payloads| && AreEncoded(index, payloads, packets)
    ensures packets == Stream(index, payloads)
  {
    hide Encoded;
    if payloads != [] {
      hide Stream;
      StreamAt(index, payloads, 0);
      forall k | 0 <= k < |packets| ensures packets[k] == Stream(index, payloads)[k] {
        StreamAt(index, payloads, k);
      }
    }
  }

  // Verdicts

  predicate SamePacket(p: Packet, q: Packet) {
    p[..PACKET_SIZE - 1] == q[..PACKET_SIZE - 1]
  }

  predicate Mute(p: Packet) {
    forall i | 0 <= i < PACKET_SIZE - 1 :: p[i] == MUTE_PATTERN
  }

  /** Mute cut off by a packet boundary `index` bytes out of place. */
  predicate PartlyMute(p: Packet, index: nat)
    requires index < PACKET_SIZE
  {
    && index != 0
    && if p[0] == MUTE_PATTERN then forall i | 0 <= i < PACKET_SIZE - index :: p[i] == MUTE_PATTERN
       else forall i | PACKET_SIZE - index <= i < PACKET_SIZE :: p[i] == MUTE_PATTERN
  }

  /** Equal to the packet two before, unless that was in conflict itself. */
  predicate Conflict(d: Det, p: Packet) {
    !d.flag1 && SamePacket(d.older, p)
  }

  datatype Parsed = Bad(error: int) | Good(sn: nat)

  function Parse(crcOk: Packet -> bool, p: Packet): (r: Parsed) {
    var sn1, sn2 := p[1] / 16 % 4, p[1] / 64;
    if p[0] != 0x01 || p[1] % 16 != 0x08 || p[2] != 0xAD then Bad(-1)
    else if sn1 != 0 && sn1 != 3 then Bad(-2)
    else if sn2 != 0 && sn2 != 3 then Bad(-3)
    else if p[3] != 0 || p[4] != 0 || !crcOk(p) then Bad(-4)
    else Good(sn1 % 2 + sn2 / 2 * 2)
  }

  function NextNum(n: nat): nat {
    if n + 1 == 4 then 0 else n + 1
  }

  /** The verdict on a packet, and the state after it. */
  function Judge(crcOk: Packet -> bool, d: Det, p: Packet, index: nat): (Plc, Det)
    requires index < PACKET_SIZE
  {
    var moved := d.(older := d.newer, newer := p);
    var conflict := Conflict(d, p);
    var checked := moved.(flag0 := conflict, flag1 := d.flag0);
    if Mute(p) then (ControllerMute, moved.(last := NONE))
    else if PartlyMute(p, index) then (TransmitterOffset, moved.(last := NONE))
    else if conflict then (BleConflict, checked.(last := NONE))
    else
      match Parse(crcOk, p)
      case Bad(e) => (if e == -4 then CrcError else HeaderError, checked.(last := NONE))
      case Good(sn) =>
        if d.last == NONE || sn == NextNum(d.last) then (Pass, checked.(last := sn))
        else (SequenceDiscontinue, checked.(last := NONE))
  }

  /** `PacketLossState`. */
  class PacketLossState {
    var lastSeqNum: nat
    const lastPkt: array<byte>
    const flags: array<bool>
    const hist: array<nat>

    ghost predicate Valid()
      reads this, lastPkt, flags, hist
    {
      && lastPkt.Length == 2 * PACKET_SIZE && flags.Length == 2 && hist.Length == 10
      && forall i | 0 <= i < hist.Length :: hist[i] < TWO32
    }

    ghost function View(): Det
      requires Valid()
      reads this, lastPkt, flags, hist
    {
      Det(lastSeqNum, lastPkt[..PACKET_SIZE], lastPkt[PACKET_SIZE..], flags[0], flags[1])
    }

    constructor ()
      ensures Valid() && fresh(lastPkt) && fresh(flags) && fresh(hist)
      ensures View() == START && hist[..] == seq(10, _ => 0)
    {
      lastSeqNum := NONE;
      lastPkt := new byte[2 * PACKET_SIZE](_ => 0);
      flags := new bool[2](_ => false);
      hist := new nat[10](_ => 0);
    }

    /** Compares with the packet two before, then shifts the two packets kept. */
    method UpdateBleScoConflict(p: Packet) returns (conflict: bool)
      requires Valid()
      modifies lastPkt
      ensures Valid() && conflict == Conflict(old(View()), p)
      ensures View() == old(View()).(older := old(View()).newer, newer := p)
    {
      conflict := !flags[1];
      for i := 0 to PACKET_SIZE - 1
        invariant conflict <==> !flags[1] && lastPkt[..i] == p[..i]
      {
        if lastPkt[i] != p[i] {
          conflict := false;
        }
      }
      assert lastPkt[..PACKET_SIZE][..PACKET_SIZE - 1] == lastPkt[..PACKET_SIZE - 1];
      forall i | 0 <= i < PACKET_SIZE {
        lastPkt[i] := lastPkt[PACKET_SIZE + i];
      }
      forall i | 0 <= i < PACKET_SIZE {
        lastPkt[PACKET_SIZE + i] := p[i];
      }
      assert lastPkt[..PACKET_SIZE] == old(lastPkt[PACKET_SIZE..]);
      assert lastPkt[PACKET_SIZE..] == p;
    }

    method CheckBleScoConflict(conflict: bool)
      requires Valid()
      modifies flags
      ensures Valid() && View() == old(View()).(flag0 := conflict, flag1 := old(View()).flag0)
    {
      flags[1] := flags[0];
      flags[0] := conflict;
    }

    method UpdateHistogram(t: Plc)
      requires Valid()
      modifies hist
      ensures Valid() && hist[..] == Counted(old(hist[..]), t)
    {
      if t == DecoderError {
        hist[0] := if hist[0] == 0 then TWO32 - 1 else hist[0] - 1;
      }
      hist[t.Index()] := (hist[t.Index()] + 1) % TWO32;
    }

    /** `packet_loss_detection_process`; `index` is how far the packets are out of the transmitter's phase. */
    method Process(crcOk: Packet -> bool, p: Packet, index: nat) returns (t: Plc)
      requires Valid() && index < PACKET_SIZE
      modifies this, lastPkt, flags, hist
      ensures Valid() && (t, View()) == Judge(crcOk, old(View()), p, index)
      ensures hist[..] == Counted(old(hist[..]), t)
    {
      hide Conflict, PartlyMute, Counted;
      var conflict := UpdateBleScoConflict(p);
      var mute := AllOf(p, 0, PACKET_SIZE - 1);
      var partly := false;
      if !mute {
        partly := CheckTransmitterOffset(p, index);
      }
      if mute {
        t, lastSeqNum := ControllerMute, NONE;
      } else if partly {
        t, lastSeqNum := TransmitterOffset, NONE;
      } else {
        CheckBleScoConflict(conflict);
        if conflict {
          t, lastSeqNum := BleConflict, NONE;
        } else {
          match Parse(crcOk, p)
          case Bad(e) =>
            t, lastSeqNum := if e == -4 then CrcError else HeaderError, NONE;
          case Good(sn) =>
            if lastSeqNum == NONE || sn == NextNum(lastSeqNum) {
              t, lastSeqNum := Pass, sn;
            } else {
              t, lastSeqNum := SequenceDiscontinue, NONE;
            }
        }
      }
      UpdateHistogram(t);
    }
  }

  /** `msbc_check_controller_mute_pattern` and the loops of `msbc_check_transmitter_offset`. */
  method AllOf(p: Packet, from: nat, to: nat) returns (all: bool)
    requires from <= to <= PACKET_SIZE
    ensures all <==> forall i | from <= i < to :: p[i] == MUTE_PATTERN
  {
    for i := from to to
      invariant forall k | from <= k < i :: p[k] == MUTE_PATTERN
    {
      if p[i] != MUTE_PATTERN {
        return false;
      }
    }
    return true;
  }

  method CheckTransmitterOffset(p: Packet, index: nat) returns (partly: bool)
    requires index < PACKET_SIZE
    ensures partly == PartlyMute(p, index)
  {
    if index == 0 {
      return false;
    }
    if p[0] == MUTE_PATTERN {
      partly := AllOf(p, 0, PACKET_SIZE - index);
    } else if p[PACKET_SIZE - 1] == MUTE_PATTERN {
      partly := AllOf(p, PACKET_SIZE - index, PACKET_SIZE);
    } else {
      partly := false;
    }
  }

  // Histogram

  /** The histogram after one more verdict, in 32-bit counters. */
  function Counted(h: seq<nat>, t: Plc): (r: seq<nat>)
    requires |h| == 10 && forall i | 0 <= i < 10 :: h[i] < TWO32
    ensures |r| == 10 && forall i | 0 <= i < 10 :: r[i] < TWO32
  {
    var h' := if t == DecoderError then h[0 := (h[0] + TWO32 - 1) % TWO32] else h;
    h'[t.Index() := (h'[t.Index()] + 1) % TWO32]
  }

  // Properties

  /** A packet as a sender makes it, with sequence number `sn`; the last byte matters only in that it
      is not the mute pattern. */
  predicate Sound(crcOk: Packet -> bool, p: Packet, sn: nat) {
    && p[0] == 0x01 && sn < 4 && p[1] == SeqByte(sn) && p[2] == 0xAD && p[3] == 0 && p[4] == 0
    && p[PACKET_SIZE - 1] != MUTE_PATTERN && crcOk(p)
  }

  lemma SoundParses(crcOk: Packet -> bool, p: Packet, sn: nat)
    requires Sound(crcOk, p, sn)
    ensures Parse(crcOk, p) == Good(sn)
    ensures forall other | Sound(crcOk, p, other) :: other == sn
  {
  }

  /** The parser accepts exactly the four headers the encoder writes, with the number each stands for;
      a header that is one of them fails only by what follows it. */
  lemma ParseInverts(crcOk: Packet -> bool, p: Packet, sn: nat)
    requires sn < 4
    ensures Parse(crcOk, p) == Good(sn) <==>
              p[0] == 0x01 && p[1] == SeqByte(sn) && p[2] == 0xAD && p[3] == 0 && p[4] == 0 && crcOk(p)
    ensures p[0] == 0x01 && p[1] == SeqByte(sn) && p[2] == 0xAD ==> Parse(crcOk, p) in {Good(sn), Bad(-4)}
    ensures Parse(crcOk, p) == Bad(-4) ==> p[0] == 0x01 && p[1] in {0x08, 0x38, 0xC8, 0xF8} && p[2] == 0xAD
  {
  }

  /** Whatever went wrong, the number is forgotten: the next sound packet passes unless it is in conflict,
      whichever number it has. */
  lemma RecoversAtOnce(crcOk: Packet -> bool, d: Det, p: Arrival, q: Arrival, sn: nat)
    requires p.index < PACKET_SIZE && q.index < PACKET_SIZE && Sound(crcOk, q.packet, sn)
    requires Judge(crcOk, d, p.packet, p.index).0 != Pass
    ensures var d1 := Judge(crcOk, d, p.packet, p.index).1;
      && d1.last == NONE
      && (Judge(crcOk, d1, q.packet, q.index).0 == Pass <==> !Conflict(d1, q.packet))
      && (Judge(crcOk, d1, q.packet, q.index).0 == Pass ==> Judge(crcOk, d1, q.packet, q.index).1.last == sn)
  {
    NonPassForgets(crcOk, d, p.packet, p.index);
    SoundVerdict(crcOk, Judge(crcOk, d, p.packet, p.index).1, q.packet, sn, q.index);
    hide Judge, Conflict, Sound;
  }

  lemma NonPassForgets(crcOk: Packet -> bool, d: Det, p: Packet, index: nat)
    requires index < PACKET_SIZE
    ensures var (t, d') := Judge(crcOk, d, p, index); t != Pass ==> d'.last == NONE
  {
    hide Parse, Mute, PartlyMute, Conflict;
  }

  /** What encoder and codec owe each other for a packet to be sound. */
  lemma EncodedIsSound(crcOk: Packet -> bool, index: nat, payload: seq<byte>)
    requires index < 4 && |payload| == PAYLOAD_SIZE
    ensures Sound(crcOk, Encoded(index, payload), index)
       <==> payload[0] == 0xAD && payload[1] == 0 && payload[2] == 0 && crcOk(Encoded(index, payload))
  {
    var p := Encoded(index, payload);
    assert p[2] == payload[0] && p[3] == payload[1] && p[4] == payload[2];
  }

  /** The verdict on a sound packet depends on the packet two before and on the last number only. */
  lemma SoundVerdict(crcOk: Packet -> bool, d: Det, p: Packet, sn: nat, index: nat)
    requires Sound(crcOk, p, sn) && index < PACKET_SIZE
    ensures var (t, d') := Judge(crcOk, d, p, index);
      && t == (if Conflict(d, p) then BleConflict
               else if d.last == NONE || sn == NextNum(d.last) then Pass
               else SequenceDiscontinue)
      && d'.last == (if t == Pass then sn else NONE) && d'.older == d.newer && d'.newer == p
  {
    hide Conflict;
    SoundParses(crcOk, p, sn);
    assert !Mute(p) by {
      assert p[0] != MUTE_PATTERN;
    }
    assert !PartlyMute(p, index);
  }

  // Verdicts by the bytes of the packet

  /** Bytes `from` up to `to` are what a controller writes for a lost packet. */
  predicate AllMute(s: seq<byte>, from: nat, to: nat)
    requires from <= to <= |s|
  {
    forall i | from <= i < to :: s[i] == 0x55
  }

  predicate SameBytes(p: Packet, q: Packet) {
    forall i | 0 <= i < 59 :: p[i] == q[i]
  }

  /** The sender's word, and one of its four sequence bytes. */
  predicate HasHeader(p: Packet) {
    p[0] == 0x01 && p[1] in {0x08, 0x38, 0xC8, 0xF8} && p[2] == 0xAD
  }

  /** Reported as lost in whole or in part. */
  predicate LooksLost(p: Packet, index: nat)
    requires index < 60
  {
    || AllMute(p, 0, 59)
    || (index > 0 && (AllMute(p, 0, 60 - index) || (p[0] != 0x55 && AllMute(p, 60 - index, 60))))
  }

  lemma SameBytesIff(p: Packet, q: Packet)
    ensures SamePacket(p, q) <==> SameBytes(p, q)
  {
    SameHeads(p, q);
  }

  /** Which packets are taken for lost ones, and which of the two verdicts they get; such a packet is kept
      for comparison but moves no flag. */
  lemma LostVerdictIff(crcOk: Packet -> bool, d: Det, p: Packet, index: nat)
    requires index < 60
    ensures var (t, d') := Judge(crcOk, d, p, index);
      && (t == ControllerMute <==> AllMute(p, 0, 59))
      && (t in {ControllerMute, TransmitterOffset} <==> LooksLost(p, index))
      && (LooksLost(p, index) ==> d' == Det(0xff, d.newer, p, d.flag0, d.flag1))
  {
    hide Parse, Conflict;
    assert Mute(p) <==> AllMute(p, 0, 59);
    if index > 0 && AllMute(p, 0, 60 - index) {
      assert p[0] == 0x55;
    }
    assert PartlyMute(p, index) <==>
        index > 0 && (AllMute(p, 0, 60 - index) || (p[0] != 0x55 && AllMute(p, 60 - index, 60)));
    hide Mute, PartlyMute, AllMute;
  }

  /** The verdict on every other packet: first the comparison with the packet two before, then the header,
      then checksum and zero bytes, last the number. */
  lemma ArrivedVerdictIff(crcOk: Packet -> bool, d: Det, p: Packet, index: nat)
    requires index < 60 && !LooksLost(p, index)
    ensures var (t, d') := Judge(crcOk, d, p, index);
      var repeated := SameBytes(d.older, p) && !d.flag1;
      var intact := HasHeader(p) && p[3] == 0 && p[4] == 0 && crcOk(p);
      && (t == BleConflict <==> repeated)
      && (t == HeaderError <==> !repeated && !HasHeader(p))
      && (t == CrcError <==> !repeated && HasHeader(p) && !intact)
      && (t in {Pass, SequenceDiscontinue} <==> !repeated && intact)
      && d'.older == d.newer && d'.newer == p && d'.flag0 == repeated && d'.flag1 == d.flag0
  {
    LostVerdictIff(crcOk, d, p, index);
    SameBytesIff(d.older, p);
    HeaderOf(crcOk, p);
    hide Parse, Mute, PartlyMute, SamePacket, SameBytes, HasHeader, AllMute;
  }

  lemma HeaderOf(crcOk: Packet -> bool, p: Packet)
    ensures match Parse(crcOk, p)
            case Bad(e) => (e == -4 <==> HasHeader(p)) && !(HasHeader(p) && p[3] == 0 && p[4] == 0 && crcOk(p))
            case Good(_) => HasHeader(p) && p[3] == 0 && p[4] == 0 && crcOk(p)
  {
  }

  /** A packet lost by a sender whose packets are cut `index` bytes out of place mutes the end of one packet
      received and the front of the next. Both are found: the first unless it happens to start with the
      mute byte itself, and for the whole packet muted the verdict is that of the controller. */
  lemma LostPacketIsFound(crcOk: Packet -> bool, d: Det, s: seq<byte>, a: nat, index: nat)
    requires 0 < index < 60 && a + 120 <= |s| && AllMute(s, a + 60 - index, a + 120 - index)
    ensures Run(crcOk, d, [Arrival(s[a..a + 60], index), Arrival(s[a + 60..a + 120], index)]).0[1]
         == if AllMute(s, a + 60, a + 119) then ControllerMute else TransmitterOffset
    ensures var first := Run(crcOk, d, [Arrival(s[a..a + 60], index), Arrival(s[a + 60..a + 120], index)]).0[0];
      && (first == ControllerMute <==> AllMute(s, a, a + 60 - index))
      && (first == TransmitterOffset <==> s[a] != 0x55)
      && (first !in {ControllerMute, TransmitterOffset} ==> first in {BleConflict, HeaderError})
  {
    var p, q := s[a..a + 60], s[a + 60..a + 120];
    RunOfTwo(crcOk, d, Arrival(p, index), Arrival(q, index));
    var d1 := Judge(crcOk, d, p, index).1;
    MuteInPacket(s, a, index);
    LostVerdictIff(crcOk, d, p, index);
    LostVerdictIff(crcOk, d1, q, index);
    if !LooksLost(p, index) {
      ArrivedVerdictIff(crcOk, d, p, index);
    }
    hide Judge, AllMute, SameBytes, Run;
  }

  lemma MuteInPacket(s: seq<byte>, a: nat, index: nat)
    requires 0 < index < 60 && a + 120 <= |s| && AllMute(s, a + 60 - index, a + 120 - index)
    ensures var p, q := s[a..a + 60], s[a + 60..a + 120];
      && AllMute(p, 60 - index, 60) && p[0] == s[a] && AllMute(q, 0, 60 - index)
      && (AllMute(p, 0, 59) <==> AllMute(s, a, a + 60 - index))
      && (AllMute(p, 0, 60 - index) <==> AllMute(s, a, a + 60 - index))
      && (AllMute(s, a, a + 60 - index) ==> s[a] == 0x55)
      && (AllMute(q, 0, 59) <==> AllMute(s, a + 60, a + 119))
  {
    InSlice(s, a, a + 60, 60 - index, 60);
    InSlice(s, a, a + 60, 0, 59);
    InSlice(s, a, a + 60, 0, 60 - index);
    InSlice(s, a + 60, a + 120, 0, 60 - index);
    InSlice(s, a + 60, a + 120, 0, 59);
  }

  lemma InSlice(s: seq<byte>, a: nat, b: nat, from: nat, to: nat)
    requires a <= b <= |s| && from <= to <= b - a
    ensures AllMute(s[a..b], from, to) <==> AllMute(s, a + from, a + to)
  {
    if AllMute(s[a..b], from, to) {
      forall i | a + from <= i < a + to ensures s[i] == 0x55 {
        assert s[i] == s[a..b][i - a];
      }
    }
  }

  // Streams without loss

  /** `q` is not a packet with sequence number `sn`. */
  predicate NotNumbered(q: Packet, sn: nat)
    requires sn < 4
  {
    q[0] != 0x01 || q[1] != SeqByte(sn) || q[2] != 0xAD
  }

  /** The detector expects number `sn`, and neither packet it keeps can be taken for the one to come. */
  predicate Expecting(d: Det, sn: nat)
    requires sn < 4
  {
    && (d.last == NONE || (d.last < 4 && sn == NextNum(d.last)))
    && NotNumbered(d.older, sn) && NotNumbered(d.newer, NextNum(sn))
  }

  lemma StartExpects(sn: nat)
    requires sn < 4
    ensures Expecting(START, sn)
  {
  }

  lemma NotNumberedNoConflict(d: Det, p: Packet, sn: nat)
    requires sn < 4 && NotNumbered(d.older, sn) && p[0] == 0x01 && p[1] == SeqByte(sn) && p[2] == 0xAD
    ensures !Conflict(d, p)
  {
    SameHeads(d.older, p);
    hide SamePacket;
  }

  lemma SameHeads(q: Packet, p: Packet)
    ensures SamePacket(q, p) ==> forall i | 0 <= i < PACKET_SIZE - 1 :: q[i] == p[i]
  {
    var a, b := q[..PACKET_SIZE - 1], p[..PACKET_SIZE - 1];
    assert forall i | 0 <= i < PACKET_SIZE - 1 :: q[i] == a[i] && p[i] == b[i];
  }

  lemma SoundPasses(crcOk: Packet -> bool, d: Det, p: Packet, sn: nat, index: nat)
    requires Sound(crcOk, p, sn) && index < PACKET_SIZE && Expecting(d, sn)
    ensures var (t, d') := Judge(crcOk, d, p, index); t == Pass && d'.last == sn && Expecting(d', NextNum(sn))
  {
    SoundVerdict(crcOk, d, p, sn, index);
    NotNumberedNoConflict(d, p, sn);
    hide Judge, Conflict;
  }

  datatype Arrival = Arrival(packet: Packet, index: nat)

  /** The verdicts on a run of packets, and the state left. */
  function Run(crcOk: Packet -> bool, d: Det, arrivals: seq<Arrival>): (r: (seq<Plc>, Det))
    requires forall i | 0 <= i < |arrivals| :: arrivals[i].index < PACKET_SIZE
    ensures |r.0| == |arrivals|
    decreases |arrivals|
  {
    if arrivals == [] then ([], d)
    else
      var (t, d') := Judge(crcOk, d, arrivals[0].packet, arrivals[0].index);
      var rest := Run(crcOk, d', arrivals[1..]);
      ([t] + rest.0, rest.1)
  }

  /** A stream without loss passes for ever, whatever the payloads and whatever the phase. */
  lemma {:induction false} LosslessPasses(crcOk: Packet -> bool, d: Det, arrivals: seq<Arrival>, sn: nat)
    requires forall i | 0 <= i < |arrivals| ::
        arrivals[i].index < PACKET_SIZE && Sound(crcOk, arrivals[i].packet, (sn + i) % 4)
    requires sn < 4 && Expecting(d, sn)
    ensures forall i | 0 <= i < |arrivals| :: Run(crcOk, d, arrivals).0[i] == Pass
    ensures Expecting(Run(crcOk, d, arrivals).1, (sn + |arrivals|) % 4)
    decreases |arrivals|
  {
    hide Judge, Expecting, Sound;
    if arrivals == [] {
    } else {
      assert Sound(crcOk, arrivals[0].packet, (sn + 0) % 4);
      SoundPasses(crcOk, d, arrivals[0].packet, sn, arrivals[0].index);
      var d' := Judge(crcOk, d, arrivals[0].packet, arrivals[0].index).1;
      var tail := arrivals[1..];
      forall i | 0 <= i < |tail| ensures Sound(crcOk, tail[i].packet, (NextNum(sn) + i) % 4) {
        assert Sound(crcOk, arrivals[i + 1].packet, (sn + (i + 1)) % 4);
      }
      LosslessPasses(crcOk, d', tail, NextNum(sn));
    }
  }

  /** Does not start with a synchronization header. */
  predicate Headless(p: Packet) {
    p[0] != 0x01 || p[1] % 16 != 0x08 || p[2] != 0xAD
  }

  /** Nothing but headless packets so far. */
  predicate Blank(d: Det) {
    d.last == NONE && Headless(d.older) && Headless(d.newer)
  }

  lemma StartIsBlank()
    ensures Blank(START)
  {
  }

  lemma BlankExpects(d: Det, sn: nat)
    requires Blank(d) && sn < 4
    ensures Expecting(d, sn)
  {
  }

  lemma HeadlessStaysBlank(crcOk: Packet -> bool, d: Det, p: Packet, index: nat)
    requires Blank(d) && Headless(p) && index < PACKET_SIZE
    ensures var (t, d') := Judge(crcOk, d, p, index); t != Pass && Blank(d')
  {
    hide Mute, PartlyMute, Conflict;
    assert Parse(crcOk, p) == Bad(-1);
  }

  /** A stream that has not started yet leaves no trace in the detector, and nothing of it passes. */
  lemma {:induction false} NoiseStaysBlank(crcOk: Packet -> bool, d: Det, arrivals: seq<Arrival>)
    requires Blank(d)
    requires forall i | 0 <= i < |arrivals| :: arrivals[i].index < PACKET_SIZE && Headless(arrivals[i].packet)
    ensures var (ts, d') := Run(crcOk, d, arrivals); Blank(d') && forall i | 0 <= i < |ts| :: ts[i] != Pass
    decreases |arrivals|
  {
    hide Judge, Blank, Headless;
    if arrivals == [] {
    } else {
      var a := arrivals[0];
      HeadlessStaysBlank(crcOk, d, a.packet, a.index);
      NoiseStaysBlank(crcOk, Judge(crcOk, d, a.packet, a.index).1, arrivals[1..]);
    }
  }

  /** The encoder's packets, starting anywhere in its cycle, pass at a detector that has just started. */
  lemma {:induction false} EncoderStreamPasses(crcOk: Packet -> bool, seqIndex: nat, payloads: seq<seq<byte>>,
                                               arrivals: seq<Arrival>)
    requires seqIndex < 4 && |arrivals| == |payloads|
    requires forall i | 0 <= i < |payloads| :: |payloads[i]| == PAYLOAD_SIZE
    requires forall i | 0 <= i < |payloads| ::
        && payloads[i][..3] == [0xAD, 0, 0] && crcOk(Encoded((seqIndex + i) % 4, payloads[i]))
        && arrivals[i].index < PACKET_SIZE
    requires seq(|arrivals|, i requires 0 <= i < |arrivals| => arrivals[i].packet) == Stream(seqIndex, payloads)
    ensures forall i | 0 <= i < |arrivals| :: Run(crcOk, START, arrivals).0[i] == Pass
  {
    hide Encoded;
    forall i | 0 <= i < |arrivals|
      ensures arrivals[i].index < PACKET_SIZE && Sound(crcOk, arrivals[i].packet, (seqIndex + i) % 4)
    {
      StreamAt(seqIndex, payloads, i);
      assert arrivals[i].packet == Stream(seqIndex, payloads)[i];
      var h := payloads[i][..3];
      assert payloads[i][0] == h[0] && payloads[i][1] == h[1] && payloads[i][2] == h[2];
      EncodedIsSound(crcOk, (seqIndex + i) % 4, payloads[i]);
    }
    StartExpects(seqIndex);
    LosslessPasses(crcOk, START, arrivals, seqIndex);
  }

  // Gaps

  /** After a pass, `lost` packets vanish without trace and a sound packet arrives: the exact verdict.
      A gap of a multiple of four is not seen; every other gap is reported, one way or the other. */
  lemma GapVerdict(crcOk: Packet -> bool, d: Det, p: Packet, lost: nat, index: nat)
    requires d.last < 4 && index < PACKET_SIZE && Sound(crcOk, p, (d.last + 1 + lost) % 4)
    ensures var t := Judge(crcOk, d, p, index).0;
      && (t == Pass <==> lost % 4 == 0 && !Conflict(d, p))
      && (t == BleConflict <==> Conflict(d, p))
      && (t == SequenceDiscontinue <==> lost % 4 != 0 && !Conflict(d, p))
  {
    hide Judge, Conflict;
    SoundVerdict(crcOk, d, p, (d.last + 1 + lost) % 4, index);
  }

  /** A passed packet parses, and its number follows the last one if there was one. */
  lemma PassParses(crcOk: Packet -> bool, d: Det, p: Packet, index: nat)
    requires index < PACKET_SIZE && Judge(crcOk, d, p, index).0 == Pass
    ensures var d' := Judge(crcOk, d, p, index).1;
      && Parse(crcOk, p) == Good(d'.last) && d'.last < 4
      && (d.last == NONE || d'.last == NextNum(d.last)) && d'.older == d.newer && d'.newer == p
  {
  }

  lemma SameHeaderSameNumber(crcOk: Packet -> bool, q: Packet, p: Packet, sn: nat, sn': nat)
    requires SamePacket(q, p) && Parse(crcOk, q) == Good(sn) && Parse(crcOk, p) == Good(sn')
    ensures sn == sn'
  {
    SameHeads(q, p);
    assert q[1] == p[1];
  }

  /** After two passes in a row no gap can look like a conflict unless it is one of two packets, so a
      clean packet passes exactly when the gap is a multiple of four. */
  lemma {:induction false} GapAfterTwoPasses(crcOk: Packet -> bool, d: Det, a: Arrival, b: Arrival, p: Arrival,
                                             lost: nat)
    requires a.index < PACKET_SIZE && b.index < PACKET_SIZE && p.index < PACKET_SIZE
    requires var (verdicts, d') := Run(crcOk, d, [a, b]);
      && verdicts == [Pass, Pass] && Sound(crcOk, p.packet, (d'.last + 1 + lost) % 4)
    ensures var (verdicts, d') := Run(crcOk, d, [a, b]);
      && (Judge(crcOk, d', p.packet, p.index).0 == Pass <==> lost % 4 == 0)
      && (Conflict(d', p.packet) ==> lost % 4 == 2)
  {
    hide Judge, Parse, SamePacket, Sound;
    var (t1, d1) := Judge(crcOk, d, a.packet, a.index);
    var (t2, d2) := Judge(crcOk, d1, b.packet, b.index);
    RunOfTwo(crcOk, d, a, b);
    PassParses(crcOk, d, a.packet, a.index);
    PassParses(crcOk, d1, b.packet, b.index);
    var sn := (d2.last + 1 + lost) % 4;
    GapVerdict(crcOk, d2, p.packet, lost, p.index);
    SoundParses(crcOk, p.packet, sn);
    if Conflict(d2, p.packet) {
      SameHeaderSameNumber(crcOk, a.packet, p.packet, d1.last, sn);
    }
  }

  /** Over a whole run: packets carry the numbers `n` of a sender that counts every packet, lost ones
      included. Wherever the last two arrivals passed, the next one passes if and only if the number of
      packets lost before it is a multiple of four. */
  lemma {:induction false} GapsOverARun(crcOk: Packet -> bool, d: Det, arrivals: seq<Arrival>, n: seq<nat>, i: nat)
    requires |n| == |arrivals| && 2 <= i < |arrivals| && n[i - 1] < n[i]
    requires forall k | 0 <= k < |arrivals| ::
        arrivals[k].index < PACKET_SIZE && Sound(crcOk, arrivals[k].packet, n[k] % 4)
    requires Run(crcOk, d, arrivals).0[i - 2] == Pass == Run(crcOk, d, arrivals).0[i - 1]
    ensures Run(crcOk, d, arrivals).0[i] == Pass <==> (n[i] - n[i - 1] - 1) % 4 == 0
  {
    hide Judge, Sound, Run;
    var (head, d0) := Run(crcOk, d, arrivals[..i - 2]);
    var a, b, p := arrivals[i - 2], arrivals[i - 1], arrivals[i];
    var d1 := Judge(crcOk, d0, a.packet, a.index).1;
    var d2 := Judge(crcOk, d1, b.packet, b.index).1;
    VerdictAt(crcOk, d, arrivals, i - 2);
    VerdictAt(crcOk, d, arrivals, i - 1);
    VerdictAt(crcOk, d, arrivals, i);
    StateMoves(crcOk, d, arrivals, i - 2);
    StateMoves(crcOk, d, arrivals, i - 1);
    RunOfTwo(crcOk, d0, a, b);
    PassParses(crcOk, d1, b.packet, b.index);
    SoundParses(crcOk, b.packet, n[i - 1] % 4);
    hide Parse;
    var lost := n[i] - n[i - 1] - 1;
    NumberAfter(n[i - 1], lost);
    GapAfterTwoPasses(crcOk, d0, a, b, p, lost);
  }

  lemma NumberAfter(n: nat, lost: nat)
    ensures (n % 4 + 1 + lost) % 4 == (n + 1 + lost) % 4
  {
  }

  lemma {:induction false} VerdictAt(crcOk: Packet -> bool, d: Det, arrivals: seq<Arrival>, i: nat)
    requires i < |arrivals| && forall k | 0 <= k < |arrivals| :: arrivals[k].index < PACKET_SIZE
    ensures Run(crcOk, d, arrivals).0[i]
         == Judge(crcOk, Run(crcOk, d, arrivals[..i]).1, arrivals[i].packet, arrivals[i].index).0
  {
    hide Judge;
    assert arrivals == arrivals[..i] + arrivals[i..];
    RunJoins(crcOk, d, arrivals[..i], arrivals[i..]);
  }

  lemma {:induction false} StateMoves(crcOk: Packet -> bool, d: Det, arrivals: seq<Arrival>, i: nat)
    requires i < |arrivals| && forall k | 0 <= k < |arrivals| :: arrivals[k].index < PACKET_SIZE
    ensures Run(crcOk, d, arrivals[..i + 1]).1
         == Judge(crcOk, Run(crcOk, d, arrivals[..i]).1, arrivals[i].packet, arrivals[i].index).1
  {
    hide Judge, Run;
    assert arrivals[..i + 1] == arrivals[..i] + [arrivals[i]];
    RunJoins(crcOk, d, arrivals[..i], [arrivals[i]]);
    RunOfOne(crcOk, Run(crcOk, d, arrivals[..i]).1, arrivals[i]);
  }

  lemma {:induction false} RunOfTwo(crcOk: Packet -> bool, d: Det, a: Arrival, b: Arrival)
    requires a.index < PACKET_SIZE && b.index < PACKET_SIZE
    ensures var (t1, d1) := Judge(crcOk, d, a.packet, a.index);
      var (t2, d2) := Judge(crcOk, d1, b.packet, b.index);
      Run(crcOk, d, [a, b]) == ([t1, t2], d2)
  {
    hide Judge;
    var (t1, d1) := Judge(crcOk, d, a.packet, a.index);
    RunOfOne(crcOk, d1, b);
    assert [a, b][1..] == [b];
    var (t2, d2) := Judge(crcOk, d1, b.packet, b.index);
    assert Run(crcOk, d, [a, b]) == ([t1] + [t2], d2);
    assert [t1] + [t2] == [t1, t2];
  }

  lemma {:induction false} RunOfOne(crcOk: Packet -> bool, d: Det, a: Arrival)
    requires a.index < PACKET_SIZE
    ensures var (t, d') := Judge(crcOk, d, a.packet, a.index); Run(crcOk, d, [a]) == ([t], d')
  {
    hide Judge;
    var (t, d') := Judge(crcOk, d, a.packet, a.index);
    assert [a][1..] == [] && Run(crcOk, d', []) == ([], d');
    assert [t] + [] == [t];
  }

  /** After one pass only, a packet in sequence can be taken for a conflict: packets 3, 1, 0, 1 of a
      signal that stays the same (nothing is lost before the last one). */
  lemma FalseConflictWitness(crcOk: Packet -> bool, c: Packet, a: Packet, b: Packet)
    requires Sound(crcOk, c, 3) && Sound(crcOk, a, 1) && Sound(crcOk, b, 0)
    ensures Run(crcOk, START, [Arrival(c, 0), Arrival(a, 0), Arrival(b, 0), Arrival(a, 0)]).0
         == [Pass, SequenceDiscontinue, Pass, BleConflict]
  {
    hide Judge, Conflict, SamePacket;
    var d1 := Judge(crcOk, START, c, 0).1;
    var d2 := Judge(crcOk, d1, a, 0).1;
    var d3 := Judge(crcOk, d2, b, 0).1;
    SoundVerdict(crcOk, START, c, 3, 0);
    NotNumberedNoConflict(START, c, 3);
    SoundVerdict(crcOk, d1, a, 1, 0);
    NotNumberedNoConflict(d1, a, 1);
    SoundVerdict(crcOk, d2, b, 0, 0);
    NotNumberedNoConflict(d2, b, 0);
    SoundVerdict(crcOk, d3, a, 1, 0);
    FlagOfSound(crcOk, d1, a, 1, 0);
    FlagOfSound(crcOk, d2, b, 0, 0);
    SameIsConflict(d3, a);
    RunOfTwo(crcOk, START, Arrival(c, 0), Arrival(a, 0));
    RunOfTwo(crcOk, d2, Arrival(b, 0), Arrival(a, 0));
    RunJoins(crcOk, START, [Arrival(c, 0), Arrival(a, 0)], [Arrival(b, 0), Arrival(a, 0)]);
    assert [Arrival(c, 0), Arrival(a, 0)] + [Arrival(b, 0), Arrival(a, 0)]
        == [Arrival(c, 0), Arrival(a, 0), Arrival(b, 0), Arrival(a, 0)];
  }

  lemma SameIsConflict(d: Det, p: Packet)
    ensures !d.flag1 && d.older == p ==> Conflict(d, p)
  {
  }

  lemma FlagOfSound(crcOk: Packet -> bool, d: Det, p: Packet, sn: nat, index: nat)
    requires Sound(crcOk, p, sn) && index < PACKET_SIZE
    ensures var d' := Judge(crcOk, d, p, index).1; d'.flag0 == Conflict(d, p) && d'.flag1 == d.flag0
  {
    hide Conflict;
    assert !Mute(p) by {
      assert p[0] != MUTE_PATTERN;
    }
    FlagsMove(crcOk, d, p, index);
  }

  lemma ConflictIsReal(crcOk: Packet -> bool, d: Det, p: Packet, index: nat)
    requires index < PACKET_SIZE
    ensures Judge(crcOk, d, p, index).0 == BleConflict ==> Conflict(d, p)
  {
    hide Parse, Mute, PartlyMute, Conflict;
  }

  lemma FlagsMove(crcOk: Packet -> bool, d: Det, p: Packet, index: nat)
    requires index < PACKET_SIZE && !Mute(p) && !PartlyMute(p, index)
    ensures var (t, d') := Judge(crcOk, d, p, index);
      d'.flag0 == Conflict(d, p) && d'.flag1 == d.flag0 && (t == BleConflict <==> Conflict(d, p))
  {
    hide Parse, Mute, PartlyMute, Conflict;
  }

  lemma {:induction false} RunJoins(crcOk: Packet -> bool, d: Det, xs: seq<Arrival>, ys: seq<Arrival>)
    requires forall i | 0 <= i < |xs| :: xs[i].index < PACKET_SIZE
    requires forall i | 0 <= i < |ys| :: ys[i].index < PACKET_SIZE
    ensures var (ts, d') := Run(crcOk, d, xs); var (us, d'') := Run(crcOk, d', ys);
      Run(crcOk, d, xs + ys) == (ts + us, d'')
    decreases |xs|
  {
    hide Judge;
    if xs == [] {
      assert xs + ys == ys;
      assert [] + Run(crcOk, d, ys).0 == Run(crcOk, d, ys).0;
    } else {
      var (t, d1) := Judge(crcOk, d, xs[0].packet, xs[0].index);
      assert (xs + ys)[1..] == xs[1..] + ys;
      RunJoins(crcOk, d1, xs[1..], ys);
      var (ts, d2) := Run(crcOk, d1, xs[1..]);
      var us := Run(crcOk, d2, ys).0;
      assert [t] + (ts + us) == ([t] + ts) + us;
    }
  }

  /** A packet that the controller repeats is reported when it comes back, and not a second time. */
  lemma ConflictNotTwice(crcOk: Packet -> bool, d: Det, p: Packet, q: Packet, r: Packet, index: nat)
    requires index < PACKET_SIZE && Judge(crcOk, d, p, index).0 == BleConflict
    requires !Mute(q) && !PartlyMute(q, index)
    ensures var d1 := Judge(crcOk, d, p, index).1;
      Judge(crcOk, Judge(crcOk, d1, q, index).1, r, index).0 != BleConflict
  {
    hide Parse, Mute, PartlyMute, SamePacket;
    var (t, d1) := Judge(crcOk, d, p, index);
    assert d1.flag0;
    FlagsMove(crcOk, d1, q, index);
    var d2 := Judge(crcOk, d1, q, index).1;
    assert d2.flag1 && !Conflict(d2, r);
    ConflictIsReal(crcOk, d2, r, index);
    hide Judge;
  }

  // Histogram over a run

  /** A packet, or the report that the codec failed on a packet that had passed. */
  datatype Event = Arrived(arrival: Arrival) | Failure

  /** What is counted in the course of a run. */
  function Verdicts(crcOk: Packet -> bool, d: Det, events: seq<Event>): (r: seq<Plc>)
    requires forall e | e in events && e.Arrived? :: e.arrival.index < PACKET_SIZE
    ensures |r| == |events|
    decreases |events|
  {
    if events == [] then []
    else
      match events[0]
      case Arrived(a) =>
        var (t, d') := Judge(crcOk, d, a.packet, a.index);
        [t] + Verdicts(crcOk, d', events[1..])
      case Failure => [DecoderError] + Verdicts(crcOk, d, events[1..])
  }

  function HistOf(ts: seq<Plc>): (h: seq<nat>)
    ensures |h| == 10 && forall i | 0 <= i < 10 :: h[i] < TWO32
  {
    if ts == [] then seq(10, _ => 0) else Counted(HistOf(ts[..|ts| - 1]), ts[|ts| - 1])
  }

  /** The number of packets with verdict `t`, less, for passes, those the codec failed on. */
  function Net(ts: seq<Plc>, t: Plc): int {
    (multiset(ts)[t] as int) - if t == Pass then multiset(ts)[DecoderError] as int else 0
  }

  function Sum(c: seq<int>): int {
    if c == [] then 0 else c[0] + Sum(c[1..])
  }

  const KINDS := [Pass, ControllerMute, HeaderError, CrcError, PadError, DataMissing,
                  SequenceDiscontinue, BleConflict, DecoderError, TransmitterOffset]

  function Nets(ts: seq<Plc>): (c: seq<int>)
    ensures |c| == 10
  {
    seq(10, i requires 0 <= i < 10 => Net(ts, KINDS[i]))
  }

  lemma KindsAreIndexed(i: nat)
    requires i < 10
    ensures KINDS[i].Index() == i
    ensures forall t: Plc :: KINDS[t.Index()] == t
  {
  }

  lemma NetStep(ts: seq<Plc>, t: Plc, k: Plc)
    ensures Net(ts + [t], k) == Net(ts, k) + (if k == t then 1 else 0)
                              - (if k == Pass && t == DecoderError then 1 else 0)
  {
    assert multiset(ts + [t]) == multiset(ts) + multiset{t};
  }

  /** Every counter is the net number of its verdict, modulo 2^32. */
  lemma {:induction false} HistogramCounts(ts: seq<Plc>, t: Plc)
    ensures HistOf(ts)[t.Index()] == Net(ts, t) % TWO32
  {
    if ts == [] {
      assert multiset(ts) == multiset{};
    } else {
      var n := |ts| - 1;
      var init, last := ts[..n], ts[n];
      assert ts == init + [last];
      NetStep(init, last, t);
      HistogramCounts(init, t);
      CountedStep(HistOf(init), last, t, Net(init, t));
    }
  }

  lemma CountedStep(h: seq<nat>, last: Plc, t: Plc, net: int)
    requires |h| == 10 && (forall i | 0 <= i < 10 :: h[i] < TWO32) && h[t.Index()] == net % TWO32
    ensures Counted(h, last)[t.Index()]
         == (net + (if t == last then 1 else 0) - (if t == Pass && last == DecoderError then 1 else 0)) % TWO32
  {
    SameIndex(t, last);
    SameIndex(t, Pass);
    ModUp(net);
    ModDown(net);
  }

  lemma SameIndex(t: Plc, u: Plc)
    ensures t.Index() == u.Index() <==> t == u
  {
  }

  lemma ModUp(n: int)
    ensures (n % TWO32 + 1) % TWO32 == (n + 1) % TWO32
  {
  }

  lemma ModDown(n: int)
    ensures (n % TWO32 + TWO32 - 1) % TWO32 == (n - 1) % TWO32
  {
  }

  lemma {:induction false} SumUpdate(c: seq<int>, i: nat, v: int)
    requires i < |c|
    ensures Sum(c[i := v]) == Sum(c) - c[i] + v
  {
    if i == 0 {
      assert c[0 := v][1..] == c[1..];
    } else {
      assert c[i := v][1..] == c[1..][i - 1 := v];
      SumUpdate(c[1..], i - 1, v);
    }
  }

  lemma {:induction false} SumMod(h: seq<int>, c: seq<int>)
    requires |h| == |c| && forall i | 0 <= i < |h| :: h[i] == c[i] % TWO32
    ensures Sum(h) % TWO32 == Sum(c) % TWO32
  {
    if h == [] {
    } else {
      SumMod(h[1..], c[1..]);
      ModSum(c[0], Sum(h[1..]), Sum(c[1..]));
    }
  }

  lemma ModSum(a: int, x: int, y: int)
    requires x % TWO32 == y % TWO32
    ensures (a % TWO32 + x) % TWO32 == (a + y) % TWO32
  {
    var r := a % TWO32 + x % TWO32;
    ModShift(r, x / TWO32);
    ModShift(r, a / TWO32 + y / TWO32);
    assert a % TWO32 + x == r + x / TWO32 * TWO32;
    assert a + y == r + (a / TWO32 + y / TWO32) * TWO32;
  }

  lemma {:induction false} ModShift(r: int, k: int)
    ensures (r + k * TWO32) % TWO32 == r % TWO32
  {
    var q, m := r / TWO32, r % TWO32;
    assert r + k * TWO32 == (q + k) * TWO32 + m;
  }

  lemma {:induction false} SumZero(c: seq<int>)
    requires forall i | 0 <= i < |c| :: c[i] == 0
    ensures Sum(c) == 0
  {
    if c == [] {
    } else {
      SumZero(c[1..]);
    }
  }

  /** A failure moves a packet from the passes to the failures: it does not change the number of packets. */
  lemma {:induction false} NetsSum(ts: seq<Plc>)
    ensures Sum(Nets(ts)) == |ts| - multiset(ts)[DecoderError]
  {
    hide Net;
    if ts == [] {
      assert multiset(ts) == multiset{};
      forall i | 0 <= i < 10 ensures Nets(ts)[i] == 0 {
        NetOfNothing(KINDS[i]);
      }
      SumZero(Nets(ts));
    } else {
      var n := |ts| - 1;
      var init, last := ts[..n], ts[n];
      assert ts == init + [last];
      assert multiset(ts) == multiset(init) + multiset{last};
      NetsSum(init);
      NetsStep(init, last);
      var c := Nets(init);
      SumUpdate(c, last.Index(), c[last.Index()] + 1);
      if last == DecoderError {
        var c' := c[last.Index() := c[last.Index()] + 1];
        SumUpdate(c', 0, c'[0] - 1);
      }
    }
  }

  lemma NetOfNothing(t: Plc)
    ensures Net([], t) == 0
  {
  }

  lemma NetsStep(ts: seq<Plc>, t: Plc)
    ensures var c := Nets(ts)[t.Index() := Nets(ts)[t.Index()] + 1];
      Nets(ts + [t]) == if t == DecoderError then c[0 := c[0] - 1] else c
  {
    hide Net;
    var c := Nets(ts)[t.Index() := Nets(ts)[t.Index()] + 1];
    var c' := if t == DecoderError then c[0 := c[0] - 1] else c;
    forall i | 0 <= i < 10 ensures Nets(ts + [t])[i] == c'[i] {
      KindsAreIndexed(i);
      NetStep(ts, t, KINDS[i]);
    }
  }

  function Arrivals(events: seq<Event>): nat {
    if events == [] then 0 else (if events[0].Arrived? then 1 else 0) + Arrivals(events[1..])
  }

  lemma {:induction false} VerdictsCount(crcOk: Packet -> bool, d: Det, events: seq<Event>)
    requires forall e | e in events && e.Arrived? :: e.arrival.index < PACKET_SIZE
    ensures |events| - multiset(Verdicts(crcOk, d, events))[DecoderError] == Arrivals(events)
    decreases |events|
  {
    hide Judge;
    if events == [] {
      assert multiset(Verdicts(crcOk, d, events)) == multiset{};
    } else {
      match events[0]
      case Arrived(a) =>
        var (t, d') := Judge(crcOk, d, a.packet, a.index);
        NeverDecoderError(crcOk, d, a.packet, a.index);
        VerdictsCount(crcOk, d', events[1..]);
        var rest := Verdicts(crcOk, d', events[1..]);
        assert multiset([t] + rest) == multiset{t} + multiset(rest);
      case Failure =>
        VerdictsCount(crcOk, d, events[1..]);
        assert multiset([DecoderError] + Verdicts(crcOk, d, events[1..]))
            == multiset{DecoderError} + multiset(Verdicts(crcOk, d, events[1..]));
    }
  }

  lemma NeverDecoderError(crcOk: Packet -> bool, d: Det, p: Packet, index: nat)
    requires index < PACKET_SIZE
    ensures Judge(crcOk, d, p, index).0 != DecoderError
  {
    hide Parse, Mute, PartlyMute, Conflict;
  }

  /** Over any run the counters add up to the number of packets, failures or not, modulo 2^32. */
  lemma {:induction false} HistogramSums(crcOk: Packet -> bool, d: Det, events: seq<Event>)
    requires forall e | e in events && e.Arrived? :: e.arrival.index < PACKET_SIZE
    ensures Sum(HistOf(Verdicts(crcOk, d, events))) % TWO32 == Arrivals(events) % TWO32
  {
    hide Verdicts, Net, HistOf;
    var ts := Verdicts(crcOk, d, events);
    forall i | 0 <= i < 10 ensures HistOf(ts)[i] == Nets(ts)[i] % TWO32 {
      KindsAreIndexed(i);
      HistogramCounts(ts, KINDS[i]);
    }
    SumMod(HistOf(ts), Nets(ts));
    NetsSum(ts);
    VerdictsCount(crcOk, d, events);
  }

  /** Failures are reported right after the pass they correct. */
  predicate FailuresFollowPasses(ts: seq<Plc>) {
    forall i | 0 <= i < |ts| :: ts[i] == DecoderError ==> i > 0 && ts[i - 1] == Pass
  }

  lemma {:induction false} NetIsNatural(ts: seq<Plc>, t: Plc)
    requires FailuresFollowPasses(ts)
    ensures 0 <= Net(ts, t) <= |ts|
    ensures t == Pass && ts != [] && ts[|ts| - 1] == Pass ==> Net(ts, t) > 0
  {
    if ts == [] {
      assert multiset(ts) == multiset{};
    } else {
      var n := |ts| - 1;
      var init, last := ts[..n], ts[n];
      assert ts == init + [last];
      NetStep(init, last, t);
      NetIsNatural(init, t);
    }
  }

  /** Before a counter can wrap, the histogram is exact. */
  lemma {:induction false} HistogramIsExact(ts: seq<Plc>, t: Plc)
    requires FailuresFollowPasses(ts) && |ts| < TWO32
    ensures HistOf(ts)[t.Index()] == Net(ts, t)
  {
    hide Net, HistOf;
    HistogramCounts(ts, t);
    NetIsNatural(ts, t);
    SmallMod(Net(ts, t));
  }

  lemma SmallMod(n: int)
    requires 0 <= n < TWO32
    ensures n % TWO32 == n
  {
  }

  /** So is its sum, then. */
  lemma {:induction false} SumIsExact(ts: seq<Plc>)
    requires FailuresFollowPasses(ts) && |ts| < TWO32
    ensures Sum(HistOf(ts)) == |ts| - multiset(ts)[DecoderError]
  {
    hide Net, HistOf, FailuresFollowPasses, Sum;
    forall i | 0 <= i < 10 ensures HistOf(ts)[i] == Nets(ts)[i] {
      KindsAreIndexed(i);
      HistogramIsExact(ts, KINDS[i]);
    }
    assert HistOf(ts) == Nets(ts);
    NetsSum(ts);
  }

  /** And then it is the number of packets that arrived. */
  lemma {:induction false} SumIsArrivals(crcOk: Packet -> bool, d: Det, events: seq<Event>)
    requires forall e | e in events && e.Arrived? :: e.arrival.index < PACKET_SIZE
    requires FailuresFollowPasses(Verdicts(crcOk, d, events)) && |events| < TWO32
    ensures Sum(HistOf(Verdicts(crcOk, d, events))) == Arrivals(events)
  {
    hide Verdicts, HistOf, Sum, FailuresFollowPasses;
    SumIsExact(Verdicts(crcOk, d, events));
    VerdictsCount(crcOk, d, events);
  }
}
