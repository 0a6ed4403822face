/** Encoder, air, alignment and loss detection together (`bt_sco_codec_msbc_encoder`,
    `bt_sco_codec_msbc_decoder`, `packet_loss_detection_process`): what the encoder sends at any phase
    of the byte stream comes out of the decoder unchanged and passes. */
module MsbcLink {
  import opened Bytes
  import A = MsbcDecoder
  import L = LossDetection

  ghost predicate Payloads(payloads: seq<seq<byte>>) {
    forall k | 0 <= k < |payloads| :: |payloads[k]| == L.PAYLOAD_SIZE && payloads[k][..3] == [0xAD, 0, 0]
  }

  /** The stream holds packet `e` at `at`; its last byte may not have arrived yet. */
  ghost predicate Carries(s: seq<byte>, at: nat, e: L.Packet) {
    && at + A.PACKET_SIZE - 1 <= |s|
    && s[at..at + A.PACKET_SIZE - 1] == e[..A.PACKET_SIZE - 1]
    && (at + A.PACKET_SIZE <= |s| ==> s[at + A.PACKET_SIZE - 1] == e[A.PACKET_SIZE - 1])
  }

  /** From `from` on the stream is the encoder's packets, one after the other. */
  ghost predicate Sends(s: seq<byte>, from: nat, seqIndex: nat, payloads: seq<seq<byte>>)
    requires seqIndex < 4 && Payloads(payloads)
  {
    && (forall k | 0 <= k < |payloads| ::
          Carries(s, from + A.PACKET_SIZE * k, L.Encoded((seqIndex + k) % 4, payloads[k])))
    && from + A.PACKET_SIZE * |payloads| + A.PACKET_SIZE - 1 > |s|
  }

  /** Decoder and loss detection agree on what starts a packet. */
  lemma HeaderIsParsed(crcOk: L.Packet -> bool, p: L.Packet)
    ensures A.Header(p, 0) <==> L.Parse(crcOk, p) != L.Bad(-1)
  {
  }

  lemma CarriedHeader(s: seq<byte>, at: nat, i: nat, payload: seq<byte>)
    requires i < 4 && |payload| == L.PAYLOAD_SIZE && payload[..3] == [0xAD, 0, 0]
    requires Carries(s, at, L.Encoded(i, payload))
    ensures A.SlotOk(s, at)
  {
    var e := L.Encoded(i, payload);
    var x := s[at..at + A.PACKET_SIZE - 1];
    var h := payload[..3];
    assert payload[0] == h[0];
    assert x[0] == e[0] == 0x01 && x[1] == e[1] == L.SeqByte(i) && x[2] == e[2] == payload[0];
    assert s[at] == x[0] && s[at + 1] == x[1] && s[at + 2] == x[2];
  }

  lemma ExactIsCarried(p: seq<byte>, s: seq<byte>, at: nat, whole: bool, pad: byte, i: nat, payload: seq<byte>)
    requires i < 4 && |payload| == L.PAYLOAD_SIZE && Carries(s, at, L.Encoded(i, payload))
    requires A.Exact(p, s, at, whole, pad) && (whole || pad == 0)
    ensures p == L.Encoded(i, payload)
  {
    var e := L.Encoded(i, payload);
    assert p == p[..A.PACKET_SIZE - 1] + [p[A.PACKET_SIZE - 1]];
    assert e == e[..A.PACKET_SIZE - 1] + [e[A.PACKET_SIZE - 1]];
  }

  /** Whatever of such a stream is due at its phase is a packet. */
  lemma SendsSlotsOk(s: seq<byte>, offset: nat, from: nat, seqIndex: nat, payloads: seq<seq<byte>>)
    requires seqIndex < 4 && Payloads(payloads) && Sends(s, from, seqIndex, payloads)
    requires offset == from % A.PACKET_SIZE
    ensures A.SlotsOk(s, offset, from)
  {
    hide Carries, L.Encoded, A.SlotOk;
    forall k: nat | from <= A.SlotPos(offset, k) && A.SlotPos(offset, k) + A.PACKET_SIZE - 1 <= |s|
      ensures A.SlotOk(s, A.SlotPos(offset, k))
    {
      var j := (A.SlotPos(offset, k) - from) / A.PACKET_SIZE;
      assert A.SlotPos(offset, k) == from + A.PACKET_SIZE * j;
      CarriedHeader(s, A.SlotPos(offset, k), (seqIndex + j) % 4, payloads[j]);
    }
  }

  /** A packet of a decoder in sync at the encoder's phase. */
  lemma InSyncIsEncoded(p: seq<byte>, s: seq<byte>, offset: nat, k: nat, last: bool, pad: byte,
                        from: nat, j: nat, seqIndex: nat, payloads: seq<seq<byte>>)
    requires seqIndex < 4 && Payloads(payloads) && Sends(s, from, seqIndex, payloads) && j < |payloads|
    requires A.InSync(p, s, offset, k, last, pad) && (offset != 1 || pad == 0)
    requires A.SlotPos(offset, k) == from + A.PACKET_SIZE * j
    ensures p == L.Encoded((seqIndex + j) % 4, payloads[j])
  {
    hide Carries, L.Encoded, A.Exact;
    ExactIsCarried(p, s, A.SlotPos(offset, k), offset != 1 || !last, pad, (seqIndex + j) % 4, payloads[j]);
  }

  /** The number of packets sent into a stream. */
  lemma SendsCount(s: seq<byte>, from: nat, seqIndex: nat, payloads: seq<seq<byte>>)
    requires seqIndex < 4 && Payloads(payloads) && Sends(s, from, seqIndex, payloads) && payloads != []
    ensures from + A.PACKET_SIZE * |payloads| - 1 <= |s| < from + A.PACKET_SIZE * |payloads| + A.PACKET_SIZE - 1
  {
    var k := |payloads| - 1;
    assert Carries(s, from + A.PACKET_SIZE * k, L.Encoded((seqIndex + k) % 4, payloads[k]));
  }

  /** The encoder pads with zero. */
  lemma SendsPadding(s: seq<byte>, from: nat, seqIndex: nat, payloads: seq<seq<byte>>)
    requires seqIndex < 4 && Payloads(payloads) && Sends(s, from, seqIndex, payloads) && from % A.PACKET_SIZE == 1
    ensures A.PaddedWithZero(s, from)
  {
    forall i: nat | from <= A.PadPos(i) < |s| ensures s[A.PadPos(i)] == 0 {
      var j := (A.PadPos(i) - from) / A.PACKET_SIZE;
      assert A.PadPos(i) == from + A.PACKET_SIZE * j + A.PACKET_SIZE - 1;
      assert Carries(s, from + A.PACKET_SIZE * j, L.Encoded((seqIndex + j) % 4, payloads[j]));
    }
  }

  /** The packets of a decoder in sync are the encoder's, byte for byte, for every mix of call sizes, if and
      only if the first call does not find something other than zero where at phase 1 a padding byte is
      missing. */
  lemma {:induction false} EncoderToDecoder(d: A.Dec, inputs: seq<seq<byte>>, seqIndex: nat, payloads: seq<seq<byte>>)
    requires A.Shape(d) && A.Sized(inputs) && d.synced
    requires seqIndex < 4 && Payloads(payloads)
    requires Sends(A.Line(d, inputs), A.LowDelay(d.offset), seqIndex, payloads)
    ensures A.RunCalls(d, inputs).0 == L.Stream(seqIndex, payloads)
       <==> d.offset != 1 || inputs == [] || A.PadOf(A.Cell(d), |inputs[0]|) == 0
    ensures A.RunCalls(d, inputs).1.synced && A.RunCalls(d, inputs).1.offset == d.offset
  {
    var s, from, packets := A.Line(d, inputs), A.LowDelay(d.offset), A.RunCalls(d, inputs).0;
    assert d.offset < A.PACKET_SIZE && s[A.PACKET_SIZE..] == A.Join(inputs);
    hide *;
    SendsSlotsOk(s, d.offset, from, seqIndex, payloads);
    FromTheFirst(s, d.offset);
    A.RunInSync(d, inputs);
    SyncedIff(packets, s, inputs, d.offset, A.Cell(d), seqIndex, payloads);
  }

  lemma {:induction false} SyncedIff(packets: seq<seq<byte>>, s: seq<byte>, inputs: seq<seq<byte>>, offset: nat,
                                     cell: byte, seqIndex: nat, payloads: seq<seq<byte>>)
    requires seqIndex < 4 && Payloads(payloads) && Sends(s, A.LowDelay(offset), seqIndex, payloads)
    requires |s| == A.PACKET_SIZE + A.PACKET_SIZE * |packets| && A.PACKET_SIZE * |packets| == |A.Join(inputs)|
    requires s[A.PACKET_SIZE..] == A.Join(inputs) && A.Sized(inputs) && offset < A.PACKET_SIZE
    requires A.AllInSync(packets, s, inputs, offset, cell)
    ensures packets == L.Stream(seqIndex, payloads)
       <==> offset != 1 || inputs == [] || A.PadOf(cell, |inputs[0]|) == 0
  {
    hide *;
    if offset != 1 || inputs == [] || A.PadOf(cell, |inputs[0]|) == 0 {
      SyncedPads(s, inputs, offset, cell, |packets|, seqIndex, payloads);
      SyncedPackets(packets, s, inputs, offset, cell, seqIndex, payloads);
    } else {
      WrongFirstPad(packets, s, inputs, cell, seqIndex, payloads);
    }
  }

  ghost predicate NoLeftover(inputs: seq<seq<byte>>, cell: byte, n: nat) {
    forall k | 0 <= k < n :: A.Pad(cell, inputs, k) == 0
  }

  lemma SyncedPads(s: seq<byte>, inputs: seq<seq<byte>>, offset: nat, cell: byte, n: nat, seqIndex: nat,
                   payloads: seq<seq<byte>>)
    requires seqIndex < 4 && Payloads(payloads) && Sends(s, A.LowDelay(offset), seqIndex, payloads)
    requires A.Sized(inputs) && |s| >= A.PACKET_SIZE && s[A.PACKET_SIZE..] == A.Join(inputs)
    requires offset != 1 || inputs == [] || A.PadOf(cell, |inputs[0]|) == 0
    ensures offset != 1 || NoLeftover(inputs, cell, n)
  {
    if offset == 1 {
      SendsPadding(s, A.LowDelay(offset), seqIndex, payloads);
      PaddedThroughout(s);
      forall k | 0 <= k < n ensures A.Pad(cell, inputs, k) == 0 {
        A.PadIsZero(cell, inputs, s, k);
      }
    }
  }

  lemma PaddedThroughout(s: seq<byte>)
    requires A.PaddedWithZero(s, A.LowDelay(1))
    ensures A.PaddedWithZero(s, 0)
  {
  }

  lemma SyncedPackets(packets: seq<seq<byte>>, s: seq<byte>, inputs: seq<seq<byte>>, offset: nat, cell: byte,
                      seqIndex: nat, payloads: seq<seq<byte>>)
    requires seqIndex < 4 && Payloads(payloads) && Sends(s, A.LowDelay(offset), seqIndex, payloads)
    requires |s| == A.PACKET_SIZE + A.PACKET_SIZE * |packets| && offset < A.PACKET_SIZE
    requires A.AllInSync(packets, s, inputs, offset, cell)
    requires offset != 1 || NoLeftover(inputs, cell, |packets|)
    ensures packets == L.Stream(seqIndex, payloads)
  {
    hide A.InSync, L.Stream, Sends, L.Encoded, A.LastOfCall;
    SyncedCount(s, offset, |packets|, seqIndex, payloads);
    StreamLength(seqIndex, payloads);
    forall k | 0 <= k < |packets| ensures packets[k] == L.Stream(seqIndex, payloads)[k] {
      var last, pad := A.LastOfCall(inputs, k), A.Pad(cell, inputs, k);
      L.StreamAt(seqIndex, payloads, k);
      assert A.InSync(packets[k], s, offset, k, last, pad);
      InSyncIsEncoded(packets[k], s, offset, k, last, pad, A.LowDelay(offset), k, seqIndex, payloads);
    }
  }

  lemma WrongFirstPad(packets: seq<seq<byte>>, s: seq<byte>, inputs: seq<seq<byte>>, cell: byte,
                      seqIndex: nat, payloads: seq<seq<byte>>)
    requires seqIndex < 4 && Payloads(payloads) && Sends(s, A.LowDelay(1), seqIndex, payloads)
    requires |s| == A.PACKET_SIZE + A.PACKET_SIZE * |packets| && A.PACKET_SIZE * |packets| == |A.Join(inputs)|
    requires A.AllInSync(packets, s, inputs, 1, cell)
    requires A.Sized(inputs) && inputs != [] && A.PadOf(cell, |inputs[0]|) != 0
    ensures packets != L.Stream(seqIndex, payloads)
  {
    hide L.Stream, Sends, L.Encoded;
    assert A.CallSize(|inputs[0]|) && |inputs[0]| <= |A.Join(inputs)|;
    SyncedCount(s, 1, |packets|, seqIndex, payloads);
    assert A.InSync(packets[0], s, 1, 0, A.LastOfCall(inputs, 0), A.Pad(cell, inputs, 0));
    L.StreamAt(seqIndex, payloads, 0);
    PadOfEncoded(seqIndex, payloads[0]);
  }

  lemma PadOfEncoded(i: nat, payload: seq<byte>)
    requires i < 4 && |payload| == L.PAYLOAD_SIZE
    ensures L.Encoded(i, payload)[L.PACKET_SIZE - 1] == 0
  {
  }

  lemma SyncedCount(s: seq<byte>, offset: nat, n: nat, seqIndex: nat, payloads: seq<seq<byte>>)
    requires seqIndex < 4 && Payloads(payloads) && Sends(s, A.LowDelay(offset), seqIndex, payloads)
    requires |s| == A.PACKET_SIZE + A.PACKET_SIZE * n && offset < A.PACKET_SIZE
    ensures n == |payloads|
  {
    hide Sends;
    if payloads == [] {
      SendsNothing(s, A.LowDelay(offset), seqIndex);
    } else {
      SendsCount(s, A.LowDelay(offset), seqIndex, payloads);
    }
  }

  lemma SendsNothing(s: seq<byte>, from: nat, seqIndex: nat)
    requires seqIndex < 4 && Sends(s, from, seqIndex, [])
    ensures |s| < from + A.PACKET_SIZE - 1
  {
  }

  lemma FromTheFirst(s: seq<byte>, offset: nat)
    requires A.SlotsOk(s, offset, A.LowDelay(offset))
    ensures A.SlotsOk(s, offset, 0)
  {
    hide A.SlotOk;
  }

  lemma {:induction false} StreamLength(seqIndex: nat, payloads: seq<seq<byte>>)
    requires seqIndex < 4 && Payloads(payloads)
    ensures |L.Stream(seqIndex, payloads)| == |payloads|
  {
    if payloads == [] {
    } else {
      L.StreamAt(seqIndex, payloads, 0);
    }
  }

  // From a cold start

  /** A packet whose first bytes are not a header in the stream does not start with one. */
  lemma ExactHeadless(p: L.Packet, s: seq<byte>, at: nat, whole: bool, pad: byte)
    requires A.Exact(p, s, at, whole, pad) && at + 2 < |s| && !A.Header(s, at)
    ensures L.Headless(p)
  {
    var x := s[at..at + A.PACKET_SIZE - 1];
    assert p[..A.PACKET_SIZE - 1] == x;
    assert p[0] == x[0] == s[at] && p[1] == x[1] == s[at + 1] && p[2] == x[2] == s[at + 2];
  }

  lemma {:induction false} CallEndCovers(inputs: seq<seq<byte>>, k: nat)
    requires A.Sized(inputs) && A.PACKET_SIZE * k < |A.Join(inputs)|
    ensures A.CallEnd(inputs, k) >= A.PACKET_SIZE * (k + 1)
    decreases |inputs|
  {
    if inputs == [] {
    } else {
      var size := |inputs[0]|;
      assert A.CallSize(size);
      if k >= size / A.PACKET_SIZE {
        CallEndCovers(inputs[1..], k - size / A.PACKET_SIZE);
      }
    }
  }

  /** Where the encoder's packets start in what the decoder passes on: `first`, with `skipped` of them lost
      because the header lay in the first two bytes of the window that found it. */
  ghost predicate Locks(inputs: seq<seq<byte>>, h: nat, first: nat, skipped: nat) {
    && skipped <= 1 && A.SlotPos(h % A.PACKET_SIZE, first) == h + A.PACKET_SIZE * skipped
    && A.CallEnd(inputs, first) > h
    && (skipped == 1 ==> h < A.PACKET_SIZE * first + 2
                         && (first > 0 ==> A.CallEnd(inputs, first - 1) <= h))
  }

  lemma FindFirst(inputs: seq<seq<byte>>, h: nat) returns (first: nat, skipped: nat)
    requires A.Sized(inputs) && h < |A.Join(inputs)| && |A.Join(inputs)| % A.PACKET_SIZE == 0
    ensures Locks(inputs, h, first, skipped) && A.PACKET_SIZE * first < |A.Join(inputs)|
  {
    hide A.CallEnd, A.Join;
    var m, r := h / A.PACKET_SIZE, h % A.PACKET_SIZE;
    if r >= 2 {
      first, skipped := m, 0;
      CallEndCovers(inputs, m);
    } else if m == 0 {
      first, skipped := 0, 1;
      CallEndCovers(inputs, 0);
    } else if A.CallEnd(inputs, m - 1) > h {
      first, skipped := m - 1, 0;
    } else {
      first, skipped := m, 1;
      CallEndCovers(inputs, m);
    }
  }

  /** Before `first` nothing that is passed on starts with a header. */
  lemma {:induction false} NoiseIsHeadless(p: L.Packet, s: seq<byte>, inputs: seq<seq<byte>>, h: nat, first: nat,
                                           skipped: nat, k: nat, cell: byte)
    requires A.Sized(inputs) && |s| == A.PACKET_SIZE + |A.Join(inputs)| && h < |A.Join(inputs)|
    requires (forall i | 0 <= i < h :: !A.Header(s, i)) && Locks(inputs, h, first, skipped)
    requires k < first && A.PACKET_SIZE * k < |A.Join(inputs)| && A.Aligned(p, s, inputs, h, k, cell)
    ensures L.Headless(p)
  {
    CallEndCovers(inputs, k);
    hide A.CallEnd, A.Join, A.Header, A.Exact, L.Headless, A.LastOfCall, A.Pad;
    if A.CallEnd(inputs, k) <= h {
      ExactHeadless(p, s, A.PACKET_SIZE * k, true, 0);
    } else {
      var offset := h % A.PACKET_SIZE;
      assert A.SlotPos(offset, k) < h;
      ExactHeadless(p, s, A.SlotPos(offset, k), offset != 1 || !A.LastOfCall(inputs, k), A.Pad(cell, inputs, k));
    }
  }

  /** From `first` on everything that is passed on is in sync. */
  lemma {:induction false} LateIsInSync(inputs: seq<seq<byte>>, h: nat, first: nat, skipped: nat, k: nat)
    requires A.Sized(inputs) && Locks(inputs, h, first, skipped)
    requires first <= k && A.PACKET_SIZE * k < |A.Join(inputs)|
    ensures A.CallEnd(inputs, k) > h
  {
    CallEndCovers(inputs, k);
    hide A.CallEnd;
  }

  /** The first header of a run without sync is that of the encoder's first packet. */
  ghost predicate Cold(d: A.Dec, inputs: seq<seq<byte>>, seqIndex: nat, payloads: seq<seq<byte>>) {
    && A.Shape(d) && A.Sized(inputs) && !d.synced && A.FirstHeader(d, inputs) < |A.Join(inputs)|
    && seqIndex < 4 && Payloads(payloads)
    && Sends(A.Line(d, inputs), A.FirstHeader(d, inputs), seqIndex, payloads)
  }

  /** The call that acquires sync at phase 1 finds zero where a padding byte is missing. */
  ghost predicate CleanStart(d: A.Dec, inputs: seq<seq<byte>>)
    requires A.Shape(d)
  {
    var h := A.FirstHeader(d, inputs);
    h % A.PACKET_SIZE != 1 || A.PadAt(A.Cell(d), inputs, h) == 0
  }

  /** What is passed on: noise without headers, and from `first` on the encoder's packets, byte for byte,
      each once and in order; `skipped` of them are missing at the start. */
  ghost predicate Handed(packets: seq<seq<byte>>, first: nat, skipped: nat, seqIndex: nat, payloads: seq<seq<byte>>)
    requires seqIndex < 4 && Payloads(payloads)
  {
    && first < |packets| && skipped <= 1 && |packets| - first == |payloads| - skipped
    && (forall k | 0 <= k < |packets| :: |packets[k]| == L.PACKET_SIZE)
    && (forall k | 0 <= k < first :: L.Headless(packets[k]))
    && (forall k | first <= k < |packets| ::
          packets[k] == L.Encoded((seqIndex + (skipped + k - first)) % 4, payloads[skipped + k - first]))
  }

  /** The decoder locks on the encoder's first packet, and at most that one is missing; what it passes on is
      exact, for every mix of call sizes, if and only if it starts clean. */
  lemma EncoderToColdDecoder(d: A.Dec, inputs: seq<seq<byte>>, seqIndex: nat, payloads: seq<seq<byte>>)
    returns (first: nat, skipped: nat)
    requires Cold(d, inputs, seqIndex, payloads)
    ensures Locks(inputs, A.FirstHeader(d, inputs), first, skipped)
    ensures Handed(A.RunCalls(d, inputs).0, first, skipped, seqIndex, payloads) <==> CleanStart(d, inputs)
  {
    var s, h, packets := A.Line(d, inputs), A.FirstHeader(d, inputs), A.RunCalls(d, inputs).0;
    assert s[A.PACKET_SIZE..] == A.Join(inputs);
    hide A.Line, A.Join, A.Shape, Sends, A.RunCalls, A.Header, A.SlotsOk, A.AllAligned, Handed, Locks, A.PadAt,
         A.Cell, CleanPads, A.FirstSync, Payloads, A.Decode;
    SendsSlotsOk(s, h % A.PACKET_SIZE, h, seqIndex, payloads);
    A.AlignmentIsExact(d, inputs);
    first, skipped := FindFirst(inputs, h);
    if CleanStart(d, inputs) {
      ColdPads(s, inputs, h, A.Cell(d), |packets|, seqIndex, payloads);
      ColdPackets(packets, s, inputs, h, A.Cell(d), first, skipped, seqIndex, payloads);
    } else {
      WrongColdPad(packets, s, inputs, h, A.Cell(d), first, skipped, seqIndex, payloads);
    }
  }

  lemma ColdPads(s: seq<byte>, inputs: seq<seq<byte>>, h: nat, cell: byte, n: nat, seqIndex: nat,
                 payloads: seq<seq<byte>>)
    requires seqIndex < 4 && Payloads(payloads) && Sends(s, h, seqIndex, payloads)
    requires A.Sized(inputs) && |s| >= A.PACKET_SIZE && s[A.PACKET_SIZE..] == A.Join(inputs)
    requires h % A.PACKET_SIZE != 1 || A.PadAt(cell, inputs, h) == 0
    ensures CleanPads(inputs, h, cell, n)
  {
    if h % A.PACKET_SIZE == 1 {
      SendsPadding(s, h, seqIndex, payloads);
      forall k | 0 <= k < n && A.CallEnd(inputs, k) > h ensures A.Pad(cell, inputs, k) == 0 {
        A.LatePadIsZero(cell, inputs, s, h, k);
      }
    }
  }

  /** No packet in sync ends in a leftover byte. */
  ghost predicate CleanPads(inputs: seq<seq<byte>>, h: nat, cell: byte, n: nat) {
    h % A.PACKET_SIZE != 1 || forall k | 0 <= k < n && A.CallEnd(inputs, k) > h :: A.Pad(cell, inputs, k) == 0
  }

  lemma {:induction false} ColdPackets(packets: seq<seq<byte>>, s: seq<byte>, inputs: seq<seq<byte>>, h: nat,
                                       cell: byte, first: nat, skipped: nat, seqIndex: nat, payloads: seq<seq<byte>>)
    requires A.Sized(inputs) && A.PACKET_SIZE * |packets| == |A.Join(inputs)| && h < |A.Join(inputs)|
    requires |s| == A.PACKET_SIZE + |A.Join(inputs)| && forall i | 0 <= i < h :: !A.Header(s, i)
    requires A.AllAligned(packets, s, inputs, h, cell) && CleanPads(inputs, h, cell, |packets|)
    requires Locks(inputs, h, first, skipped) && first < |packets|
    requires forall k | 0 <= k < |packets| :: |packets[k]| == L.PACKET_SIZE
    requires seqIndex < 4 && Payloads(payloads) && Sends(s, h, seqIndex, payloads)
    ensures Handed(packets, first, skipped, seqIndex, payloads)
  {
    hide A.Join, A.CallEnd, A.Header, A.InSync, A.Exact, Carries, L.Encoded, L.Headless, A.LastOfCall, A.Pad, Sends;
    ColdCount(s, h, first, skipped, |packets|, seqIndex, payloads, inputs);
    forall k | 0 <= k < first ensures L.Headless(packets[k]) {
      assert A.Aligned(packets[k], s, inputs, h, k, cell);
      NoiseIsHeadless(packets[k], s, inputs, h, first, skipped, k, cell);
    }
    forall k | first <= k < |packets|
      ensures packets[k] == L.Encoded((seqIndex + (skipped + k - first)) % 4, payloads[skipped + k - first])
    {
      var offset, j, pad := h % A.PACKET_SIZE, skipped + k - first, A.Pad(cell, inputs, k);
      assert A.Aligned(packets[k], s, inputs, h, k, cell);
      LateIsInSync(inputs, h, first, skipped, k);
      InSyncIsEncoded(packets[k], s, offset, k, A.LastOfCall(inputs, k), pad, h, j, seqIndex, payloads);
    }
  }

  lemma {:induction false} WrongColdPad(packets: seq<seq<byte>>, s: seq<byte>, inputs: seq<seq<byte>>, h: nat,
                                        cell: byte, first: nat, skipped: nat, seqIndex: nat, payloads: seq<seq<byte>>)
    requires A.Sized(inputs) && A.AllAligned(packets, s, inputs, h, cell)
    requires Locks(inputs, h, first, skipped) && first < |packets|
    requires seqIndex < 4 && Payloads(payloads) && h % A.PACKET_SIZE == 1 && A.PadAt(cell, inputs, h) != 0
    ensures !Handed(packets, first, skipped, seqIndex, payloads)
  {
    hide A.CallEnd, A.LastOfCall, A.Pad, A.PadAt, L.Encoded, L.Headless;
    A.AcquiringPad(cell, inputs, h, first, skipped);
    assert A.Aligned(packets[first], s, inputs, h, first, cell);
    if Handed(packets, first, skipped, seqIndex, payloads) {
      PadOfEncoded((seqIndex + skipped) % 4, payloads[skipped]);
    }
  }

  lemma ColdCount(s: seq<byte>, h: nat, first: nat, skipped: nat, n: nat, seqIndex: nat, payloads: seq<seq<byte>>,
                  inputs: seq<seq<byte>>)
    requires seqIndex < 4 && Payloads(payloads) && Sends(s, h, seqIndex, payloads)
    requires |s| == A.PACKET_SIZE + A.PACKET_SIZE * n && h < A.PACKET_SIZE * n && first < n
    requires Locks(inputs, h, first, skipped)
    ensures n - first == |payloads| - skipped
  {
    hide A.CallEnd;
    if payloads == [] {
      SendsNothing(s, h, seqIndex);
    } else {
      SendsCount(s, h, seqIndex, payloads);
    }
  }

  /** A fresh detector reports everything before `first`, and passes every packet from there on. */
  lemma {:induction false} HandedVerdicts(crcOk: L.Packet -> bool, arrivals: seq<L.Arrival>,
                                          packets: seq<seq<byte>>, first: nat, skipped: nat, seqIndex: nat,
                                          payloads: seq<seq<byte>>)
    requires seqIndex < 4 && Payloads(payloads) && Handed(packets, first, skipped, seqIndex, payloads)
    requires forall k | 0 <= k < |payloads| :: crcOk(L.Encoded((seqIndex + k) % 4, payloads[k]))
    requires Arrive(arrivals, packets)
    ensures forall k | 0 <= k < |arrivals| :: L.Run(crcOk, L.START, arrivals).0[k] == L.Pass <==> first <= k
  {
    var noise, speech, sn := arrivals[..first], arrivals[first..], (seqIndex + skipped) % 4;
    var d := L.Run(crcOk, L.START, noise).1;
    forall k | 0 <= k < |speech| ensures L.Sound(crcOk, speech[k].packet, (sn + k) % 4) {
      SpeechIsSound(crcOk, arrivals, packets, first, skipped, seqIndex, payloads, k);
    }
    hide *;
    assert arrivals == noise + speech && forall k | 0 <= k < first :: L.Headless(arrivals[k].packet) by {
      NoiseOf(arrivals, packets, first, skipped, seqIndex, payloads);
    }
    L.StartIsBlank();
    L.NoiseStaysBlank(crcOk, L.START, noise);
    L.BlankExpects(d, sn);
    L.LosslessPasses(crcOk, d, speech, sn);
    L.RunJoins(crcOk, L.START, noise, speech);
  }

  lemma NoiseOf(arrivals: seq<L.Arrival>, packets: seq<seq<byte>>, first: nat,
                skipped: nat, seqIndex: nat, payloads: seq<seq<byte>>)
    requires seqIndex < 4 && Payloads(payloads) && Handed(packets, first, skipped, seqIndex, payloads)
    requires Arrive(arrivals, packets)
    ensures first < |arrivals| && arrivals == arrivals[..first] + arrivals[first..]
    ensures forall k | 0 <= k < first :: L.Headless(arrivals[k].packet)
  {
    hide L.Headless, L.Encoded;
  }

  lemma SpeechIsSound(crcOk: L.Packet -> bool, arrivals: seq<L.Arrival>, packets: seq<seq<byte>>, first: nat,
                      skipped: nat, seqIndex: nat, payloads: seq<seq<byte>>, k: nat)
    requires seqIndex < 4 && Payloads(payloads) && Handed(packets, first, skipped, seqIndex, payloads)
    requires forall k | 0 <= k < |payloads| :: crcOk(L.Encoded((seqIndex + k) % 4, payloads[k]))
    requires Arrive(arrivals, packets) && first + k < |packets|
    ensures L.Sound(crcOk, arrivals[first + k].packet, ((seqIndex + skipped) % 4 + k) % 4)
  {
    hide L.Encoded, L.Headless, L.Sound;
    var n := skipped + k;
    assert arrivals[first + k].packet == packets[first + k];
    EncodedSound(crcOk, (seqIndex + n) % 4, payloads[n]);
    assert ((seqIndex + skipped) % 4 + k) % 4 == (seqIndex + n) % 4;
  }

  /** The packets reach loss detection, each with some offset of the transmitter. */
  ghost predicate Arrive(arrivals: seq<L.Arrival>, packets: seq<seq<byte>>) {
    && |arrivals| == |packets|
    && forall k | 0 <= k < |arrivals| :: arrivals[k].packet == packets[k] && arrivals[k].index < L.PACKET_SIZE
  }

  lemma EncodedSound(crcOk: L.Packet -> bool, i: nat, payload: seq<byte>)
    requires i < 4 && |payload| == L.PAYLOAD_SIZE && payload[..3] == [0xAD, 0, 0] && crcOk(L.Encoded(i, payload))
    ensures L.Sound(crcOk, L.Encoded(i, payload), i)
  {
    var h := payload[..3];
    assert payload[0] == h[0] && payload[1] == h[1] && payload[2] == h[2];
    L.EncodedIsSound(crcOk, i, payload);
  }

  /** From encoder to verdict: with a cold decoder and a fresh detector, for every phase and every sequence
      of calls of 60 and 120 bytes, the packets that pass are exactly those from `first` on, and they are
      the encoder's, whatever offset the transmitter is taken to have. */
  lemma EncoderToVerdict(crcOk: L.Packet -> bool, d: A.Dec, inputs: seq<seq<byte>>, seqIndex: nat,
                         payloads: seq<seq<byte>>, arrivals: seq<L.Arrival>) returns (first: nat, skipped: nat)
    requires Cold(d, inputs, seqIndex, payloads) && CleanStart(d, inputs) && Arrive(arrivals, A.RunCalls(d, inputs).0)
    requires forall k | 0 <= k < |payloads| :: crcOk(L.Encoded((seqIndex + k) % 4, payloads[k]))
    ensures Locks(inputs, A.FirstHeader(d, inputs), first, skipped)
    ensures Handed(A.RunCalls(d, inputs).0, first, skipped, seqIndex, payloads)
    ensures forall k | 0 <= k < |arrivals| ::
        arrivals[k].index < L.PACKET_SIZE && (L.Run(crcOk, L.START, arrivals).0[k] == L.Pass <==> first <= k)
  {
    first, skipped := EncoderToColdDecoder(d, inputs, seqIndex, payloads);
    HandedVerdicts(crcOk, arrivals, A.RunCalls(d, inputs).0, first, skipped, seqIndex, payloads);
    hide A.RunCalls, A.FirstHeader, A.Line, A.Join, A.Shape, Locks, Handed, L.Encoded, L.Run, Sends;
  }
}
