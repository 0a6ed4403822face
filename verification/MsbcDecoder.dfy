/** Alignment of mSBC packets in `bt_sco_codec_msbc_decoder` of `apps/audioplayers/bt_sco_codec_msbc.c`:
    a sliding window over the byte stream, acquisition of the packet phase from the synchronization
    header, and extraction of one 60-byte packet per 60 bytes of input. */
module MsbcDecoder {
  import opened Bytes

  const PACKET_SIZE := 60
  const WINDOW_SIZE := PACKET_SIZE * 3 + 1
  const MUTE_PATTERN: byte := 0x55

  /** A synchronization header (0x01, 0x?8) followed by the mSBC sync word at `i`. */
  predicate Header(w: seq<byte>, i: nat)
    requires i + 2 < |w|
  {
    w[i] == 0x01 && w[i + 1] % 16 == 0x08 && w[i + 2] == 0xAD
  }

  /** The three bytes by which a mute packet is recognised. */
  predicate MuteHead(w: seq<byte>, i: nat)
    requires i + 2 < |w|
  {
    w[i] == MUTE_PATTERN && w[i + 1] % 16 == MUTE_PATTERN % 16 && w[i + 2] == MUTE_PATTERN
  }

  /** First header at or after `i` and before `size`; `size` if there is none. */
  function FirstSync(w: seq<byte>, size: nat, i: nat): (r: nat)
    requires i <= size && size + 2 <= |w|
    ensures i <= r <= size
    ensures forall k | i <= k < r :: !Header(w, k)
    ensures r < size ==> Header(w, r)
    decreases size - i
  {
    if i == size || Header(w, i) then i else FirstSync(w, size, i + 1)
  }

  /** Where in the window the first packet of a call is taken from. */
  function LowDelay(offset: nat): nat {
    if offset == 0 || offset == 1 then offset + PACKET_SIZE else offset
  }

  /** `lost`: neither a header nor mute where one is due; `drift`: the header is one byte early or late. */
  datatype Verdict = Verdict(lost: bool, drift: int)

  /** The check of the packet at `pos`; packets before `total`, where sync was just found, may be anything. */
  function Judge(w: seq<byte>, pos: nat, total: nat): Verdict
    requires 0 < pos && pos + 3 < |w|
  {
    if w[pos - 1] == 0x01 && w[pos] % 16 == 0x08 && w[pos + 1] == 0xAD then Verdict(false, -1)
    else if Header(w, pos) then Verdict(false, 0)
    else if Header(w, pos + 1) then Verdict(false, 1)
    else if MuteHead(w, pos) then Verdict(false, 0)
    else Verdict(pos >= total, 0)
  }

  /** The 60 bytes from `at` on; past the window, where only a drifting packet of phase 1 reaches, zero
      stands for whatever memory holds. */
  function Extract(w: seq<byte>, at: int): (p: seq<byte>)
    requires at >= 0
    ensures |p| == PACKET_SIZE
  {
    seq(PACKET_SIZE, i requires 0 <= i < PACKET_SIZE => if at + i < |w| then w[at + i] else 0)
  }

  /** The decoder between calls; `buf` is the whole window buffer, the first 60 bytes of which start the
      next window. */
  datatype Dec = Dec(synced: bool, offset: nat, buf: seq<byte>)

  /** No call reaches the last cell. */
  ghost predicate Shape(d: Dec) {
    d.offset < PACKET_SIZE && |d.buf| == WINDOW_SIZE && d.buf[WINDOW_SIZE - 1] == 0
  }

  function Carry(d: Dec): seq<byte>
    requires |d.buf| == WINDOW_SIZE
  {
    d.buf[..PACKET_SIZE]
  }

  predicate CallSize(size: nat) {
    size == PACKET_SIZE || size == 2 * PACKET_SIZE
  }

  /** The window of one call: carry, input, and whatever earlier calls left behind it. */
  function Window(buf: seq<byte>, input: seq<byte>): (w: seq<byte>)
    requires |buf| == WINDOW_SIZE && |input| <= 2 * PACKET_SIZE
    ensures |w| == WINDOW_SIZE && w[WINDOW_SIZE - 1] == buf[WINDOW_SIZE - 1]
  {
    buf[..PACKET_SIZE] + input + buf[PACKET_SIZE + |input|..]
  }

  /** The buffer after a call: the last 60 bytes written go to the front, everything else stays. */
  function Kept(w: seq<byte>, size: nat): (buf: seq<byte>)
    requires |w| == WINDOW_SIZE && CallSize(size)
    ensures |buf| == WINDOW_SIZE && buf[WINDOW_SIZE - 1] == w[WINDOW_SIZE - 1]
  {
    w[size..size + PACKET_SIZE] + w[PACKET_SIZE..]
  }

  /** Sync state for a call: kept, or acquired in this window; `total` is where it was acquired. */
  function Acquire(d: Dec, w: seq<byte>, size: nat): (r: (bool, nat, nat))
    requires size + 2 <= |w|
    ensures d.offset < PACKET_SIZE ==> r.1 < PACKET_SIZE
  {
    var i := FirstSync(w, size, 0);
    if d.synced then (true, d.offset, 0)
    else if i < size then (true, i % PACKET_SIZE, i)
    else (false, d.offset, 0)
  }

  /** Packet `j` of a call is looked for here. */
  function SlotPos(offset: nat, j: nat): (pos: nat)
    ensures offset < PACKET_SIZE && j < 2 ==> 2 <= pos <= 2 * PACKET_SIZE + 1
  {
    LowDelay(offset) + j * PACKET_SIZE
  }

  /** The packets of a call without sync. */
  function Pieces(w: seq<byte>, n: nat): (ps: seq<seq<byte>>)
    ensures |ps| == n && forall j | 0 <= j < n :: |ps[j]| == PACKET_SIZE
  {
    seq(n, j requires 0 <= j < n => Extract(w, j * PACKET_SIZE))
  }

  /** The packets of a call in sync: from their places, a byte earlier or later where the header is. */
  function Placed(w: seq<byte>, offset: nat, total: nat, n: nat): (ps: seq<seq<byte>>)
    requires |w| == WINDOW_SIZE && offset < PACKET_SIZE && n <= 2
    ensures |ps| == n && forall j | 0 <= j < n :: |ps[j]| == PACKET_SIZE
  {
    seq(n, j requires 0 <= j < n => Extract(w, SlotPos(offset, j) + Judge(w, SlotPos(offset, j), total).drift))
  }

  predicate KeepsSync(w: seq<byte>, offset: nat, total: nat, n: nat)
    requires |w| == WINDOW_SIZE && offset < PACKET_SIZE && n <= 2
  {
    forall j | 0 <= j < n :: !Judge(w, SlotPos(offset, j), total).lost
  }

  /** One call: the packets passed on and the state left. */
  function Decode(d: Dec, input: seq<byte>): (r: (seq<seq<byte>>, Dec))
    requires Shape(d) && CallSize(|input|)
    ensures |r.0| == |input| / PACKET_SIZE && Shape(r.1)
    ensures forall k | 0 <= k < |r.0| :: |r.0[k]| == PACKET_SIZE
  {
    var size, w := |input|, Window(d.buf, input);
    var n := size / PACKET_SIZE;
    var (synced, offset, total) := Acquire(d, w, size);
    if !synced then (Pieces(w, n), Dec(false, offset, Kept(w, size)))
    else (Placed(w, offset, total, n), Dec(KeepsSync(w, offset, total, n), offset, Kept(w, size)))
  }

  /** `msbc_buf_all`, `msbc_find_first_sync` and `msbc_offset`. */
  class Aligner {
    const bufAll: array<byte>
    var findFirstSync: bool
    var msbcOffset: nat

    ghost predicate Valid()
      reads this, bufAll
    {
      bufAll.Length == WINDOW_SIZE && msbcOffset < PACKET_SIZE && bufAll[WINDOW_SIZE - 1] == 0
    }

    ghost function View(): Dec
      requires Valid()
      reads this, bufAll
    {
      Dec(findFirstSync, msbcOffset, bufAll[..])
    }

    constructor ()
      ensures Valid() && fresh(bufAll)
      ensures View() == Dec(false, 0, seq(WINDOW_SIZE, _ => 0))
    {
      bufAll := new byte[WINDOW_SIZE](_ => 0);
      findFirstSync, msbcOffset := false, 0;
    }

    /** The search for the first header. */
    method FindSync(size: nat) returns (i: nat)
      requires Valid() && CallSize(size)
      ensures i == FirstSync(bufAll[..], size, 0)
    {
      i := 0;
      while i < size
        invariant 0 <= i <= size && FirstSync(bufAll[..], size, 0) == FirstSync(bufAll[..], size, i)
      {
        if bufAll[i] == 0x01 && bufAll[i + 1] % 16 == 0x08 && bufAll[i + 2] == 0xAD {
          break;
        }
        i := i + 1;
      }
    }

    /** The input goes in behind the carry. */
    method LoadInput(input: seq<byte>)
      requires Valid() && CallSize(|input|)
      modifies bufAll
      ensures Valid() && bufAll[..] == Window(old(bufAll[..]), input)
    {
      for i := 0 to |input|
        modifies bufAll
        invariant forall k | 0 <= k < WINDOW_SIZE ::
            bufAll[k] == if PACKET_SIZE <= k < PACKET_SIZE + i then input[k - PACKET_SIZE] else old(bufAll[k])
      {
        bufAll[i + PACKET_SIZE] := input[i];
      }
    }

    /** The check of every packet of the call, and the decision whether sync is kept. */
    method CheckSlots(n: nat, offsetTotal: nat) returns (drift: seq<int>)
      requires Valid() && n <= 2 && findFirstSync
      modifies this`findFirstSync
      ensures Valid() && |drift| == n
      ensures forall k | 0 <= k < n ::
          drift[k] == Judge(bufAll[..], SlotPos(msbcOffset, k), offsetTotal).drift
      ensures findFirstSync <==>
          forall k | 0 <= k < n :: !Judge(bufAll[..], SlotPos(msbcOffset, k), offsetTotal).lost
    {
      hide Judge;
      var lowDelay, lost := LowDelay(msbcOffset), false;
      drift := [];
      for j := 0 to n
        invariant |drift| == j
        invariant forall k | 0 <= k < j ::
            drift[k] == Judge(bufAll[..], SlotPos(msbcOffset, k), offsetTotal).drift
        invariant lost <==> exists k | 0 <= k < j :: Judge(bufAll[..], SlotPos(msbcOffset, k), offsetTotal).lost
      {
        var v := Judge(bufAll[..], lowDelay + j * PACKET_SIZE, offsetTotal);
        assert v == Judge(bufAll[..], SlotPos(msbcOffset, j), offsetTotal);
        drift := drift + [v.drift];
        lost := lost || v.lost;
      }
      if lost {
        findFirstSync := false;
      }
    }

    /** One packet per 60 bytes of input. */
    method TakePackets(lowDelay: nat, drift: seq<int>) returns (packets: seq<seq<byte>>)
      requires Valid()
      requires forall k | 0 <= k < |drift| :: lowDelay + k * PACKET_SIZE + drift[k] >= 0
      ensures |packets| == |drift|
      ensures forall k | 0 <= k < |drift| ::
          packets[k] == Extract(bufAll[..], lowDelay + k * PACKET_SIZE + drift[k])
    {
      hide Extract;
      packets := [];
      for j := 0 to |drift|
        invariant |packets| == j
        invariant forall k | 0 <= k < j ::
            packets[k] == Extract(bufAll[..], lowDelay + k * PACKET_SIZE + drift[k])
      {
        packets := packets + [Extract(bufAll[..], lowDelay + j * PACKET_SIZE + drift[j])];
      }
    }

    /** The last 60 bytes written become the start of the next window; everything else stays. */
    method KeepCarry(size: nat)
      requires Valid() && CallSize(size)
      modifies bufAll
      ensures Valid()
      ensures bufAll[..] == Kept(old(bufAll[..]), size)
    {
      for i := 0 to PACKET_SIZE
        modifies bufAll
        invariant forall k | 0 <= k < WINDOW_SIZE ::
            bufAll[k] == if k < i then old(bufAll[k + size]) else old(bufAll[k])
      {
        bufAll[i] := bufAll[i + size];
      }
    }

    /** `bt_sco_codec_msbc_decoder` up to the packets it hands to loss detection and codec. */
    method DecodeCall(input: seq<byte>) returns (packets: seq<seq<byte>>)
      requires Valid() && CallSize(|input|)
      modifies this, bufAll
      ensures Valid() && (packets, View()) == Decode(old(View()), input)
    {
      hide Judge, Extract, FirstSync, Window, Kept;
      ghost var d := View();
      var size := |input|;
      LoadInput(input);
      ghost var w := bufAll[..];
      assert w == Window(d.buf, input);
      var offsetTotal := 0;
      if !findFirstSync {
        var i := FindSync(size);
        if i < size {
          findFirstSync := true;
          msbcOffset := i % PACKET_SIZE;
          offsetTotal := i;
        }
      }
      assert (findFirstSync, msbcOffset, offsetTotal) == Acquire(d, w, size);
      var lowDelay := 0;
      var drift: seq<int> := seq(size / PACKET_SIZE, _ => 0);
      if findFirstSync {
        lowDelay := LowDelay(msbcOffset);
        drift := CheckSlots(size / PACKET_SIZE, offsetTotal);
      }
      forall k | 0 <= k < |drift| ensures lowDelay + k * PACKET_SIZE + drift[k] >= 0 {
        if lowDelay > 0 {
          JudgeDrift(w, SlotPos(msbcOffset, k), offsetTotal);
        }
      }
      packets := TakePackets(lowDelay, drift);
      assert packets == Decode(d, input).0;
      KeepCarry(size);
    }
  }

  /** A packet is due at `i`, and what is there starts like a packet or like mute. */
  predicate SlotOk(s: seq<byte>, i: nat)
    requires i + 2 < |s|
  {
    Header(s, i) || MuteHead(s, i)
  }

  lemma JudgeDrift(w: seq<byte>, pos: nat, total: nat)
    ensures 0 < pos && pos + 3 < |w| ==> -1 <= Judge(w, pos, total).drift <= 1
  {
  }

  /** A proper packet or mute is never taken for a drifting header, nor for a loss. */
  lemma JudgeOk(w: seq<byte>, pos: nat, total: nat)
    requires 0 < pos && pos + 3 < |w| && SlotOk(w, pos)
    ensures Judge(w, pos, total) == Verdict(false, 0)
  {
  }

  /** Before the first header nothing is taken for one either. */
  lemma JudgeBefore(w: seq<byte>, pos: nat, total: nat)
    requires 0 < pos && pos + 1 < total && total + 2 < |w|
    requires forall k | 0 <= k < total :: !Header(w, k)
    ensures Judge(w, pos, total) == Verdict(false, 0)
  {
    assert !Header(w, pos - 1) && !Header(w, pos) && !Header(w, pos + 1);
  }

  /** A header where one is due, or one byte early or late, or mute. */
  predicate Near(w: seq<byte>, pos: nat)
    requires 0 < pos && pos + 3 < |w|
  {
    Header(w, pos - 1) || Header(w, pos) || Header(w, pos + 1) || MuteHead(w, pos)
  }

  /** Exactly when a call in sync stays so; every packet it then passes on starts like one or like mute. */
  lemma SyncKeptIff(d: Dec, input: seq<byte>)
    requires Shape(d) && CallSize(|input|) && d.synced
    ensures var w, (packets, d') := Window(d.buf, input), Decode(d, input);
      && (d'.synced <==> forall j | 0 <= j < |packets| :: Near(w, SlotPos(d.offset, j)))
      && (d'.synced ==> forall j | 0 <= j < |packets| :: SlotOk(packets[j], 0))
  {
    hide Header, MuteHead, Window, FirstSync, Extract;
    var w, n := Window(d.buf, input), |input| / PACKET_SIZE;
    hide Judge;
    forall j | 0 <= j < n
      ensures Judge(w, SlotPos(d.offset, j), 0).lost <==> !Near(w, SlotPos(d.offset, j))
      ensures var v := Judge(w, SlotPos(d.offset, j), 0);
        !v.lost ==> SlotOk(Extract(w, SlotPos(d.offset, j) + v.drift), 0)
    {
      JudgeNear(w, SlotPos(d.offset, j));
    }
  }

  /** The call that finds the first header, at `i`, keeps sync if and only if every packet due at or after
      `i` is there or mute. */
  lemma AcquiredKeptIff(d: Dec, input: seq<byte>, i: nat)
    requires Shape(d) && CallSize(|input|) && !d.synced && FirstSync(Window(d.buf, input), |input|, 0) == i
    ensures var w, (packets, d') := Window(d.buf, input), Decode(d, input);
      d'.synced <==> i < |input| && forall j | 0 <= j < |packets| && i <= SlotPos(i % PACKET_SIZE, j) ::
                                      Near(w, SlotPos(i % PACKET_SIZE, j))
  {
    hide Header, MuteHead, Window, FirstSync, Extract;
    var w, n := Window(d.buf, input), |input| / PACKET_SIZE;
    hide Judge;
    forall j | 0 <= j < n
      ensures var pos := SlotPos(i % PACKET_SIZE, j); Judge(w, pos, i).lost <==> i <= pos && !Near(w, pos)
    {
      JudgeLost(w, SlotPos(i % PACKET_SIZE, j), i);
    }
  }

  lemma JudgeLost(w: seq<byte>, pos: nat, total: nat)
    requires 0 < pos && pos + 3 < |w|
    ensures Judge(w, pos, total).lost <==> total <= pos && !Near(w, pos)
  {
    hide MuteHead;
  }

  /** A call in sync takes a packet from where its header is, at its place or one byte beside it; the earliest
      of the three counts. */
  lemma PacketFollowsHeader(d: Dec, input: seq<byte>, j: nat, at: nat)
    requires Shape(d) && CallSize(|input|) && d.synced && j < |input| / PACKET_SIZE
    requires SlotPos(d.offset, j) - 1 <= at <= SlotPos(d.offset, j) + 1
    requires var w := Window(d.buf, input);
      Header(w, at) && forall k | SlotPos(d.offset, j) - 1 <= k < at :: !Header(w, k)
    ensures |Decode(d, input).0[j]| == PACKET_SIZE
    ensures forall i | 0 <= i < PACKET_SIZE && at + i < WINDOW_SIZE ::
        Decode(d, input).0[j][i] == Window(d.buf, input)[at + i]
  {
    var w, pos := Window(d.buf, input), SlotPos(d.offset, j);
    JudgeFollows(w, pos, at);
    hide Header, Window, FirstSync, Judge, Kept, KeepsSync;
    assert Decode(d, input).0[j] == Extract(w, at);
  }

  lemma JudgeFollows(w: seq<byte>, pos: nat, at: nat)
    requires 0 < pos && pos + 3 < |w| && pos - 1 <= at <= pos + 1
    requires Header(w, at) && forall k | pos - 1 <= k < at :: !Header(w, k)
    ensures Judge(w, pos, 0) == Verdict(false, at - pos)
  {
  }

  /** Sixty bytes of the controller's mute pattern are mute where a packet is due. */
  lemma MuteIsMute(s: seq<byte>, i: nat)
    requires i + PACKET_SIZE <= |s| && forall k | i <= k < i + PACKET_SIZE :: s[k] == 0x55
    ensures MuteHead(s, i) && SlotOk(s, i) && !Header(s, i)
  {
  }

  lemma JudgeNear(w: seq<byte>, pos: nat)
    requires 0 < pos && pos + 3 < |w|
    ensures var v := Judge(w, pos, 0);
      && pos + v.drift >= 0
      && (v.lost <==> !Near(w, pos))
      && (!v.lost ==> SlotOk(Extract(w, pos + v.drift), 0))
  {
    hide Extract;
    var at := pos + Judge(w, pos, 0).drift;
    var p := Extract(w, at);
    assert p[0] == w[at] && p[1] == w[at + 1] && p[2] == w[at + 2] by {
      ExtractAt(w, at, 0);
      ExtractAt(w, at, 1);
      ExtractAt(w, at, 2);
    }
  }

  lemma ExtractAt(w: seq<byte>, at: nat, i: nat)
    requires i < PACKET_SIZE && at + i < |w|
    ensures Extract(w, at)[i] == w[at + i]
  {
  }

  lemma SlotPrefix(s: seq<byte>, w: seq<byte>, i: nat)
    requires i + 2 < |s| <= |w| && w[..|s|] == s
    ensures Header(w, i) == Header(s, i) && MuteHead(w, i) == MuteHead(s, i) && SlotOk(w, i) == SlotOk(s, i)
  {
    assert s[i] == w[i] && s[i + 1] == w[i + 1] && s[i + 2] == w[i + 2];
  }

  lemma SlotTail(s: seq<byte>, n: nat, i: nat)
    requires n + i + 2 < |s|
    ensures Header(s[n..], i) == Header(s, n + i) && SlotOk(s[n..], i) == SlotOk(s, n + i)
  {
  }

  // One call

  /** The 60 bytes at `at`; when not `whole`, the last byte has not arrived yet, and `pad` is passed on for
      it. */
  ghost predicate Exact(p: seq<byte>, s: seq<byte>, at: nat, whole: bool, pad: byte) {
    && at + PACKET_SIZE - 1 <= |s| && |p| == PACKET_SIZE
    && p[..PACKET_SIZE - 1] == s[at..at + PACKET_SIZE - 1]
    && if whole then at + PACKET_SIZE <= |s| && p[PACKET_SIZE - 1] == s[at + PACKET_SIZE - 1]
       else p[PACKET_SIZE - 1] == pad
  }

  /** Packet `k` in sync at `offset` is the one at its place in the stream; at phase 1 the last packet of a
      call is one byte short. */
  ghost predicate InSync(p: seq<byte>, s: seq<byte>, offset: nat, k: nat, last: bool, pad: byte) {
    Exact(p, s, SlotPos(offset, k), offset != 1 || !last, pad)
  }

  /** Every packet due at `offset` in a stream, at `from` or later, is one or mute. */
  ghost predicate SlotsOk(s: seq<byte>, offset: nat, from: nat) {
    forall k: nat | from <= SlotPos(offset, k) && SlotPos(offset, k) + PACKET_SIZE - 1 <= |s| ::
      SlotOk(s, SlotPos(offset, k))
  }

  /** What a call passes on, all of it in sync. */
  ghost predicate CallExact(packets: seq<seq<byte>>, s: seq<byte>, offset: nat, pad: byte) {
    forall j | 0 <= j < |packets| :: InSync(packets[j], s, offset, j, j == |packets| - 1, pad)
  }

  /** The cell that a call of 120 bytes leaves for calls of 60 to find behind their input. */
  ghost function Cell(d: Dec): byte
    requires Shape(d)
  {
    d.buf[2 * PACKET_SIZE]
  }

  /** What a call finds behind its input: no call writes behind 120 bytes. */
  function PadOf(cell: byte, size: nat): byte {
    if size == 2 * PACKET_SIZE then 0 else cell
  }

  /** That cell after a call. */
  function CellAfter(cell: byte, input: seq<byte>): byte {
    if |input| == 2 * PACKET_SIZE then input[PACKET_SIZE] else cell
  }

  lemma WindowStarts(d: Dec, input: seq<byte>)
    requires Shape(d) && CallSize(|input|)
    ensures var s, w := Carry(d) + input, Window(d.buf, input);
            && |s| == PACKET_SIZE + |input| && w[..|s|] == s
            && w[|input|..|input| + PACKET_SIZE] == s[|input|..]
            && w[|s|] == PadOf(Cell(d), |input|)
  {
    var s, w := Carry(d) + input, Window(d.buf, input);
    assert w == s + d.buf[|s|..];
    assert w[|input|..|input| + PACKET_SIZE] == w[..|s|][|input|..];
  }

  /** What a call leaves for the next one. */
  lemma CarryMoves(d: Dec, input: seq<byte>)
    requires Shape(d) && CallSize(|input|)
    ensures Carry(Decode(d, input).1) == (Carry(d) + input)[|input|..]
    ensures Cell(Decode(d, input).1) == CellAfter(Cell(d), input)
  {
    hide Judge, Extract, FirstSync;
    WindowStarts(d, input);
  }

  lemma ExtractIsExact(d: Dec, input: seq<byte>, offset: nat, j: nat)
    requires Shape(d) && CallSize(|input|) && offset < PACKET_SIZE && j < |input| / PACKET_SIZE
    ensures InSync(Extract(Window(d.buf, input), SlotPos(offset, j)), Carry(d) + input, offset, j,
                   j == |input| / PACKET_SIZE - 1, PadOf(Cell(d), |input|))
  {
    WindowStarts(d, input);
    hide Window;
    var s, w, at := Carry(d) + input, Window(d.buf, input), SlotPos(offset, j);
    ExtractsPiece(w, s, at);
    hide Extract;
  }

  /** A call in sync keeps sync and passes on the packets at their places. */
  lemma CallInSync(d: Dec, input: seq<byte>)
    requires Shape(d) && CallSize(|input|) && d.synced && SlotsOk(Carry(d) + input, d.offset, 0)
    ensures var (packets, d') := Decode(d, input);
      d'.synced && d'.offset == d.offset && CallExact(packets, Carry(d) + input, d.offset, PadOf(Cell(d), |input|))
  {
    WindowStarts(d, input);
    hide Judge, Header, MuteHead, SlotOk, InSync, FirstSync, Extract, Exact, Window, Decode, PadOf, Carry;
    var s, w, offset := Carry(d) + input, Window(d.buf, input), d.offset;
    forall j | 0 <= j < |input| / PACKET_SIZE
      ensures Judge(w, SlotPos(offset, j), 0) == Verdict(false, 0)
      ensures InSync(Extract(w, SlotPos(offset, j)), s, offset, j, j == |input| / PACKET_SIZE - 1,
                     PadOf(Cell(d), |input|))
    {
      assert SlotOk(s, SlotPos(offset, j));
      SlotPrefix(s, w, SlotPos(offset, j));
      JudgeOk(w, SlotPos(offset, j), 0);
      ExtractIsExact(d, input, offset, j);
    }
    DecodeNoDrift(d, input, offset, 0);
  }

  lemma {:induction false} SameFirstSync(s: seq<byte>, w: seq<byte>, size: nat, i: nat)
    requires size + 2 < |s| <= |w| && w[..|s|] == s && i <= size
    requires (forall k | 0 <= k < i :: !Header(s, k)) && (i < size ==> Header(s, i))
    ensures FirstSync(w, size, 0) == i
    ensures forall k | 0 <= k < i :: !Header(w, k)
  {
    hide Header;
    forall k | 0 <= k <= i ensures Header(w, k) == Header(s, k) {
      SlotPrefix(s, w, k);
    }
  }

  /** The call that finds sync already keeps it and passes on the packets at their places. */
  lemma CallAcquires(d: Dec, input: seq<byte>, i: nat)
    requires Shape(d) && CallSize(|input|) && !d.synced && i < |input|
    requires Header(Carry(d) + input, i) && forall k | 0 <= k < i :: !Header(Carry(d) + input, k)
    requires SlotsOk(Carry(d) + input, i % PACKET_SIZE, i)
    ensures var (packets, d') := Decode(d, input);
      && d'.synced && d'.offset == i % PACKET_SIZE
      && CallExact(packets, Carry(d) + input, i % PACKET_SIZE, PadOf(Cell(d), |input|))
  {
    WindowStarts(d, input);
    var s, w, offset := Carry(d) + input, Window(d.buf, input), i % PACKET_SIZE;
    SameFirstSync(s, w, |input|, i);
    hide Judge, Header, SlotsOk, InSync, Extract, Window, FirstSync, PadOf, Carry, Decode, Shape;
    forall j | 0 <= j < |input| / PACKET_SIZE
      ensures Judge(w, SlotPos(offset, j), i) == Verdict(false, 0)
    {
      AcquiredSlot(s, w, i, j);
    }
    DecodeNoDrift(d, input, offset, i);
    forall j | 0 <= j < |input| / PACKET_SIZE
      ensures InSync(Extract(w, SlotPos(offset, j)), s, offset, j, j == |input| / PACKET_SIZE - 1,
                     PadOf(Cell(d), |input|))
    {
      ExtractIsExact(d, input, offset, j);
    }
  }

  /** What a call does when every verdict is good and without drift. */
  lemma DecodeNoDrift(d: Dec, input: seq<byte>, offset: nat, total: nat)
    requires Shape(d) && CallSize(|input|) && offset < PACKET_SIZE
    requires Acquire(d, Window(d.buf, input), |input|) == (true, offset, total)
    requires forall j | 0 <= j < |input| / PACKET_SIZE ::
        Judge(Window(d.buf, input), SlotPos(offset, j), total) == Verdict(false, 0)
    ensures var (packets, d') := Decode(d, input);
      && d'.synced && d'.offset == offset
      && forall j | 0 <= j < |packets| :: packets[j] == Extract(Window(d.buf, input), SlotPos(offset, j))
  {
    hide Judge, Extract, Window, FirstSync, Kept, Acquire;
  }

  lemma AcquiredSlot(s: seq<byte>, w: seq<byte>, i: nat, j: nat)
    requires |s| < |w| && w[..|s|] == s && j < 2 && PACKET_SIZE * (j + 2) <= |s| && i + 2 < |w|
    requires SlotsOk(s, i % PACKET_SIZE, i) && forall k | 0 <= k < i :: !Header(w, k)
    ensures SlotPos(i % PACKET_SIZE, j) + 3 < |w|
    ensures Judge(w, SlotPos(i % PACKET_SIZE, j), i) == Verdict(false, 0)
  {
    hide Judge, Header, MuteHead, SlotOk;
    var pos := SlotPos(i % PACKET_SIZE, j);
    if pos >= i {
      assert SlotOk(s, pos);
      SlotPrefix(s, w, pos);
      JudgeOk(w, pos, i);
    } else {
      SlotBefore(i % PACKET_SIZE, j, i);
      JudgeBefore(w, pos, i);
    }
  }

  lemma SlotBefore(offset: nat, j: nat, i: nat)
    requires offset == i % PACKET_SIZE && SlotPos(offset, j) < i
    ensures SlotPos(offset, j) + 1 < i
  {
  }

  /** What is passed on are the 60-byte pieces of the stream. */
  ghost predicate PiecesExact(packets: seq<seq<byte>>, s: seq<byte>) {
    forall j | 0 <= j < |packets| :: Exact(packets[j], s, PACKET_SIZE * j, true, 0)
  }

  ghost predicate NoHeader(s: seq<byte>, n: nat) {
    forall k | 0 <= k < n && k + 2 < |s| :: !Header(s, k)
  }

  /** A call that finds no header passes on the 60-byte pieces of the stream as they stand. */
  lemma CallUnsynced(d: Dec, input: seq<byte>)
    requires Shape(d) && CallSize(|input|) && !d.synced && NoHeader(Carry(d) + input, |input|)
    ensures var (packets, d') := Decode(d, input); !d'.synced && PiecesExact(packets, Carry(d) + input)
  {
    WindowStarts(d, input);
    var s, w := Carry(d) + input, Window(d.buf, input);
    SameFirstSync(s, w, |input|, |input|);
    hide Judge, Header, Window;
    forall j | 0 <= j < |input| / PACKET_SIZE
      ensures Exact(Extract(w, PACKET_SIZE * j), s, PACKET_SIZE * j, true, 0)
    {
      PieceIsExact(w, s, PACKET_SIZE * j);
    }
    hide Exact, Extract, FirstSync;
  }

  lemma PieceIsExact(w: seq<byte>, s: seq<byte>, at: nat)
    requires at + PACKET_SIZE <= |s| < |w| && w[..|s|] == s
    ensures Exact(Extract(w, at), s, at, true, 0)
  {
    ExtractsPiece(w, s, at);
    hide Extract;
  }

  /** What is extracted from a window that starts with the stream. */
  lemma ExtractsPiece(w: seq<byte>, s: seq<byte>, at: nat)
    requires at + PACKET_SIZE - 1 <= |s| < |w| && w[..|s|] == s
    ensures var p := Extract(w, at);
      && p[..PACKET_SIZE - 1] == s[at..at + PACKET_SIZE - 1]
      && p[PACKET_SIZE - 1] == w[at + PACKET_SIZE - 1]
      && (at + PACKET_SIZE <= |s| ==> p[PACKET_SIZE - 1] == s[at + PACKET_SIZE - 1])
  {
    var p := Extract(w, at);
    forall i | 0 <= i < PACKET_SIZE && at + i < |s| ensures p[i] == s[at + i] {
      assert s[at + i] == w[..|s|][at + i];
    }
  }

  // Runs

  function Join(inputs: seq<seq<byte>>): (r: seq<byte>) {
    if inputs == [] then [] else inputs[0] + Join(inputs[1..])
  }

  ghost predicate Sized(inputs: seq<seq<byte>>) {
    forall i | 0 <= i < |inputs| :: CallSize(|inputs[i]|)
  }

  /** The calls of one run, of 60 or 120 bytes in any order; the packets they pass on, in order, and the
      state left. */
  function RunCalls(d: Dec, inputs: seq<seq<byte>>): (r: (seq<seq<byte>>, Dec))
    requires Shape(d) && Sized(inputs)
    ensures Shape(r.1) && forall k | 0 <= k < |r.0| :: |r.0[k]| == PACKET_SIZE
    decreases |inputs|
  {
    if inputs == [] then ([], d)
    else
      var first := Decode(d, inputs[0]);
      var rest := RunCalls(first.1, inputs[1..]);
      (first.0 + rest.0, rest.1)
  }

  /** The input stream of a run, from the start of its first window. */
  function Line(d: Dec, inputs: seq<seq<byte>>): (s: seq<byte>)
    requires Shape(d)
    ensures |s| == PACKET_SIZE + |Join(inputs)|
  {
    Carry(d) + Join(inputs)
  }

  /** Whether packet `k` of a run is the last of its call. */
  predicate LastOfCall(inputs: seq<seq<byte>>, k: nat)
    decreases |inputs|
  {
    if inputs == [] then false
    else
      var n := |inputs[0]| / PACKET_SIZE;
      if k < n then k == n - 1 else LastOfCall(inputs[1..], k - n)
  }

  /** How much input the calls up to that of packet `k` bring. */
  function CallEnd(inputs: seq<seq<byte>>, k: nat): nat
    decreases |inputs|
  {
    if inputs == [] then 0
    else
      var n := |inputs[0]| / PACKET_SIZE;
      |inputs[0]| + if k < n then 0 else CallEnd(inputs[1..], k - n)
  }

  /** What packet `k` of a run gets for a last byte that has not arrived: zero in a call of 120 bytes, in one
      of 60 bytes byte 60 of the latest call of 120, or `cell` if there was none. */
  function Pad(cell: byte, inputs: seq<seq<byte>>, k: nat): byte
    decreases |inputs|
  {
    if inputs == [] then 0
    else
      var n := |inputs[0]| / PACKET_SIZE;
      if k < n then PadOf(cell, |inputs[0]|) else Pad(CellAfter(cell, inputs[0]), inputs[1..], k - n)
  }

  /** Where the padding bytes of packets at phase 1 lie that can be left behind. */
  function PadPos(i: nat): nat {
    2 * PACKET_SIZE + PACKET_SIZE * i
  }

  ghost predicate PaddedWithZero(s: seq<byte>, from: nat) {
    forall i: nat | from <= PadPos(i) < |s| :: s[PadPos(i)] == 0
  }

  lemma PaddingShift(s: seq<byte>, size: nat, from: nat)
    requires CallSize(size) && size <= |s| && PaddedWithZero(s, from)
    ensures PaddedWithZero(s[size..], if from < size then 0 else from - size)
  {
    var tail := s[size..];
    forall i: nat | (if from < size then 0 else from - size) <= PadPos(i) < |tail| ensures tail[PadPos(i)] == 0 {
      assert PadPos(i + size / PACKET_SIZE) == PadPos(i) + size;
      assert tail[PadPos(i)] == s[PadPos(i + size / PACKET_SIZE)];
    }
  }

  lemma JoinShift(s: seq<byte>, inputs: seq<seq<byte>>)
    requires inputs != [] && |s| >= PACKET_SIZE && s[PACKET_SIZE..] == Join(inputs)
    ensures |inputs[0]| + |Join(inputs[1..])| == |Join(inputs)| == |s| - PACKET_SIZE
    ensures s[|inputs[0]|..][PACKET_SIZE..] == Join(inputs[1..])
    ensures forall i | 0 <= i < |inputs[0]| :: inputs[0][i] == s[PACKET_SIZE + i]
  {
    var body, size := s[PACKET_SIZE..], |inputs[0]|;
    assert body == inputs[0] + Join(inputs[1..]);
    assert s[size..][PACKET_SIZE..] == body[size..];
    forall i | 0 <= i < size ensures inputs[0][i] == s[PACKET_SIZE + i] {
      assert body[i] == s[PACKET_SIZE + i];
    }
  }

  /** With zero padding in the stream no pad is anything but zero, if the first one is. */
  lemma {:induction false} PadIsZero(cell: byte, inputs: seq<seq<byte>>, s: seq<byte>, k: nat)
    requires Sized(inputs) && |s| >= PACKET_SIZE && s[PACKET_SIZE..] == Join(inputs) && PaddedWithZero(s, 0)
    requires inputs != [] ==> PadOf(cell, |inputs[0]|) == 0
    ensures Pad(cell, inputs, k) == 0
    decreases |inputs|
  {
    if inputs == [] {
    } else {
      var size, cell' := |inputs[0]|, CellAfter(cell, inputs[0]);
      assert CallSize(size);
      JoinShift(s, inputs);
      PaddingShift(s, size, 0);
      if size == 2 * PACKET_SIZE {
        assert cell' == s[PadPos(0)];
      }
      if k >= size / PACKET_SIZE {
        PadIsZero(cell', inputs[1..], s[size..], k - size / PACKET_SIZE);
      }
    }
  }

  /** The pad of the call in which input position `h` lies. */
  function PadAt(cell: byte, inputs: seq<seq<byte>>, h: nat): byte
    decreases |inputs|
  {
    if inputs == [] then 0
    else if h < |inputs[0]| then PadOf(cell, |inputs[0]|)
    else PadAt(CellAfter(cell, inputs[0]), inputs[1..], h - |inputs[0]|)
  }

  /** The same for a stream that is padded with zero from its first header on. */
  lemma {:induction false} LatePadIsZero(cell: byte, inputs: seq<seq<byte>>, s: seq<byte>, h: nat, k: nat)
    requires Sized(inputs) && |s| >= PACKET_SIZE && s[PACKET_SIZE..] == Join(inputs) && PaddedWithZero(s, h)
    requires h % PACKET_SIZE == 1 && PadAt(cell, inputs, h) == 0 && CallEnd(inputs, k) > h
    ensures Pad(cell, inputs, k) == 0
    decreases |inputs|
  {
    if inputs == [] {
    } else {
      var size, cell', tail := |inputs[0]|, CellAfter(cell, inputs[0]), inputs[1..];
      assert CallSize(size);
      JoinShift(s, inputs);
      PaddingShift(s, size, h);
      if k >= size / PACKET_SIZE {
        if h < size {
          if size == 2 * PACKET_SIZE {
            assert cell' == s[PadPos(0)];
          }
          PadIsZero(cell', tail, s[size..], k - size / PACKET_SIZE);
        } else {
          SamePhase(h, size);
          LatePadIsZero(cell', tail, s[size..], h - size, k - size / PACKET_SIZE);
        }
      }
    }
  }

  /** A call that acquires sync at phase 1 and does not pad with zero brings 60 bytes; its one packet is that
      at `k`. */
  lemma {:induction false} AcquiringPad(cell: byte, inputs: seq<seq<byte>>, h: nat, k: nat, skipped: nat)
    requires Sized(inputs) && h % PACKET_SIZE == 1 && PadAt(cell, inputs, h) != 0 && CallEnd(inputs, k) > h
    requires skipped <= 1 && SlotPos(1, k) == h + PACKET_SIZE * skipped
    ensures LastOfCall(inputs, k) && Pad(cell, inputs, k) == PadAt(cell, inputs, h)
    decreases |inputs|
  {
    if inputs == [] {
    } else {
      var size, cell', tail := |inputs[0]|, CellAfter(cell, inputs[0]), inputs[1..];
      assert CallSize(size);
      if h >= size {
        SamePhase(h, size);
        assert k >= size / PACKET_SIZE;
        AcquiringPad(cell', tail, h - size, k - size / PACKET_SIZE, skipped);
      }
    }
  }

  ghost predicate AllInSync(packets: seq<seq<byte>>, s: seq<byte>, inputs: seq<seq<byte>>, offset: nat, cell: byte) {
    forall k | 0 <= k < |packets| ::
      InSync(packets[k], s, offset, k, LastOfCall(inputs, k), Pad(cell, inputs, k))
  }

  /** Positions count from the start of the stream: a later call, a longer stream. */
  lemma ExactShift(p: seq<byte>, s: seq<byte>, head: nat, at: nat, whole: bool, pad: byte)
    requires head <= |s| && Exact(p, s[head..], at, whole, pad)
    ensures Exact(p, s, head + at, whole, pad)
  {
    assert s[head..][at..at + PACKET_SIZE - 1] == s[head + at..head + at + PACKET_SIZE - 1];
  }

  lemma ExactPrefix(p: seq<byte>, s: seq<byte>, n: nat, at: nat, whole: bool, pad: byte)
    requires n <= |s| && Exact(p, s[..n], at, whole, pad)
    ensures Exact(p, s, at, whole, pad)
  {
    assert s[..n][at..at + PACKET_SIZE - 1] == s[at..at + PACKET_SIZE - 1];
  }

  lemma InSyncShift(p: seq<byte>, s: seq<byte>, size: nat, offset: nat, k: nat, last: bool, pad: byte)
    requires CallSize(size) && size <= |s| && InSync(p, s[size..], offset, k, last, pad)
    ensures InSync(p, s, offset, k + size / PACKET_SIZE, last, pad)
  {
    hide Exact;
    ExactShift(p, s, size, SlotPos(offset, k), offset != 1 || !last, pad);
  }

  lemma SlotsShift(s: seq<byte>, size: nat, offset: nat, from: nat)
    requires CallSize(size) && size <= |s| && SlotsOk(s, offset, from)
    ensures SlotsOk(s[size..], offset, if from < size then 0 else from - size)
  {
    hide Header, MuteHead, SlotOk;
    var tail := s[size..];
    forall k: nat | (if from < size then 0 else from - size) <= SlotPos(offset, k)
                    && SlotPos(offset, k) + PACKET_SIZE - 1 <= |tail|
      ensures SlotOk(tail, SlotPos(offset, k))
    {
      var at := SlotPos(offset, k);
      assert SlotPos(offset, k + size / PACKET_SIZE) == at + size;
      assert SlotOk(s, at + size);
      SlotTail(s, size, at);
    }
  }

  lemma SlotsPrefix(s: seq<byte>, n: nat, offset: nat, from: nat)
    requires n <= |s| && SlotsOk(s, offset, from)
    ensures SlotsOk(s[..n], offset, from)
  {
    hide SlotOk, Header, MuteHead;
    forall k: nat | from <= SlotPos(offset, k) && SlotPos(offset, k) + PACKET_SIZE - 1 <= n
      ensures SlotOk(s[..n], SlotPos(offset, k))
    {
      assert SlotOk(s, SlotPos(offset, k));
      SlotPrefix(s[..n], s, SlotPos(offset, k));
    }
  }

  /** The stream of a run is the window of its first call, then the rest; a call moves on by its input. */
  lemma {:induction false} StreamSplits(d: Dec, inputs: seq<seq<byte>>)
    requires Shape(d) && Sized(inputs) && inputs != []
    ensures var s, s0, size := Line(d, inputs), Carry(d) + inputs[0], |inputs[0]|;
      && |Join(inputs)| == size + |Join(inputs[1..])| && |s0| == PACKET_SIZE + size
      && s[..PACKET_SIZE + size] == s0 && s[size..] == Line(Decode(d, inputs[0]).1, inputs[1..])
  {
    hide Decode;
    CarryMoves(d, inputs[0]);
    PrefixAndRest(Carry(d), inputs[0], Join(inputs[1..]));
  }

  lemma PrefixAndRest(a: seq<byte>, b: seq<byte>, c: seq<byte>)
    ensures (a + (b + c))[..|a + b|] == a + b && (a + (b + c))[|b|..] == (a + b)[|b|..] + c
  {
    assert a + (b + c) == (a + b) + c;
  }

  /** The packets of the first call, then those of the others. */
  lemma InSyncJoin(packets: seq<seq<byte>>, rest: seq<seq<byte>>, s: seq<byte>, inputs: seq<seq<byte>>, offset: nat,
                   cell: byte)
    requires inputs != [] && CallSize(|inputs[0]|) && PACKET_SIZE + |inputs[0]| <= |s|
    requires PACKET_SIZE * |packets| == |inputs[0]|
    requires CallExact(packets, s[..PACKET_SIZE + |inputs[0]|], offset, PadOf(cell, |inputs[0]|))
    requires AllInSync(rest, s[|inputs[0]|..], inputs[1..], offset, CellAfter(cell, inputs[0]))
    ensures AllInSync(packets + rest, s, inputs, offset, cell)
  {
    hide Exact, PadOf, CellAfter;
    var n, size, pad := |packets|, |inputs[0]|, PadOf(cell, |inputs[0]|);
    var tail, cell' := inputs[1..], CellAfter(cell, inputs[0]);
    forall k | 0 <= k < n + |rest|
      ensures InSync((packets + rest)[k], s, offset, k, LastOfCall(inputs, k), Pad(cell, inputs, k))
    {
      if k < n {
        assert InSync(packets[k], s[..PACKET_SIZE + size], offset, k, k == n - 1, pad);
        ExactPrefix(packets[k], s, PACKET_SIZE + size, SlotPos(offset, k), offset != 1 || k != n - 1, pad);
      } else {
        InSyncShift(rest[k - n], s, size, offset, k - n, LastOfCall(tail, k - n), Pad(cell', tail, k - n));
      }
    }
  }

  /** What a run does in terms of its whole input stream: sync is never lost, and packet `k` of the run
      is packet `k` of the stream. */
  lemma {:induction false} RunInSync(d: Dec, inputs: seq<seq<byte>>)
    requires Shape(d) && Sized(inputs) && d.synced && SlotsOk(Line(d, inputs), d.offset, 0)
    ensures var (packets, d') := RunCalls(d, inputs);
      && d'.synced && d'.offset == d.offset
      && PACKET_SIZE * |packets| == |Join(inputs)|
      && AllInSync(packets, Line(d, inputs), inputs, d.offset, Cell(d))
    decreases |inputs|
  {
    hide SlotsOk, InSync, Decode, Line, AllInSync, CallExact, PadOf, CellAfter, Cell;
    if inputs == [] {
      NothingInSync(Line(d, inputs), inputs, d.offset, Cell(d));
    } else {
      var s, size := Line(d, inputs), |inputs[0]|;
      var (packets, d1) := Decode(d, inputs[0]);
      assert CallSize(size) && PACKET_SIZE * |packets| == size;
      StreamSplits(d, inputs);
      CarryMoves(d, inputs[0]);
      SlotsPrefix(s, PACKET_SIZE + size, d.offset, 0);
      CallInSync(d, inputs[0]);
      SlotsShift(s, size, d.offset, 0);
      RunInSync(d1, inputs[1..]);
      InSyncJoin(packets, RunCalls(d1, inputs[1..]).0, s, inputs, d.offset, Cell(d));
    }
  }

  /** At phase 1 the last byte of the last packet of a call is the cell behind the input, whatever an
      earlier call has left there. */
  lemma PadIsLeftover(d: Dec, input: seq<byte>)
    requires Shape(d) && CallSize(|input|) && d.synced && d.offset == 1 && SlotsOk(Carry(d) + input, 1, 0)
    ensures var (packets, n) := (Decode(d, input).0, |input| / PACKET_SIZE);
      packets[n - 1][PACKET_SIZE - 1] == d.buf[PACKET_SIZE + |input|]
  {
    hide Decode, SlotsOk;
    CallInSync(d, input);
    var packets := Decode(d, input).0;
    assert InSync(packets[|packets| - 1], Carry(d) + input, 1, |packets| - 1, true, PadOf(Cell(d), |input|));
  }

  /** After a call of 120 bytes, the packet of a call of 60 bytes ends in byte 60 of the former, which is the
      padding of an earlier packet. */
  lemma LeftoverOfLongCall(d: Dec, long: seq<byte>, short: seq<byte>)
    requires Shape(d) && d.synced && d.offset == 1 && |long| == 2 * PACKET_SIZE && |short| == PACKET_SIZE
    requires SlotsOk(Line(d, [long, short]), 1, 0)
    ensures |RunCalls(d, [long, short]).0| == 3
    ensures RunCalls(d, [long, short]).0[2][PACKET_SIZE - 1] == long[PACKET_SIZE]
  {
    var inputs := [long, short];
    hide RunCalls, SlotsOk;
    RunInSync(d, inputs);
    assert inputs[1..] == [short] && [short][1..] == [];
    assert Join([short]) == short + Join([]) && |Join(inputs)| == |long| + |Join([short])|;
    var packets := RunCalls(d, inputs).0;
    assert LastOfCall([short], 0) && LastOfCall(inputs, 2);
    assert Pad(long[PACKET_SIZE], [short], 0) == long[PACKET_SIZE] && Pad(Cell(d), inputs, 2) == long[PACKET_SIZE];
    assert InSync(packets[2], Line(d, inputs), 1, 2, true, long[PACKET_SIZE]);
  }

  /** An mSBC packet with the given padding byte. */
  function Padded(pad: byte): (p: seq<byte>)
    ensures |p| == PACKET_SIZE
  {
    [0x01, 0x08, 0xAD] + seq(PACKET_SIZE - 4, _ => 0) + [pad]
  }

  lemma Middle(a: seq<byte>, b: seq<byte>, c: seq<byte>)
    ensures (a + b + c)[|a|..|a| + |b|] == b
  {
  }

  lemma PaddedIsSlot(s: seq<byte>, at: nat, pad: byte)
    requires at + PACKET_SIZE - 1 <= |s| && s[at..at + PACKET_SIZE - 1] == Padded(pad)[..PACKET_SIZE - 1]
    ensures SlotOk(s, at)
  {
    var x := s[at..at + PACKET_SIZE - 1];
    assert x[0] == 0x01 && x[1] == 0x08 && x[2] == 0xAD;
    assert s[at] == x[0] && s[at + 1] == x[1] && s[at + 2] == x[2];
  }

  /** A run that passes on the padding of an earlier packet for one that ought to be zero: a call of 120
      bytes, then one of 60; only the first packet is padded with `pad`. */
  lemma WrongPadWitness(pad: byte)
    ensures var (d, long, short) := WrongPadRun(pad);
      && Shape(d) && |long| == 2 * PACKET_SIZE && |short| == PACKET_SIZE && SlotsOk(Line(d, [long, short]), 1, 0)
      && |RunCalls(d, [long, short]).0| == 3 && RunCalls(d, [long, short]).0[2] == Padded(pad)
  {
    var (d, long, short) := WrongPadRun(pad);
    var s, body := Line(d, [long, short]), Padded(0)[..PACKET_SIZE - 1];
    WrongPadLine(pad);
    hide WrongPadRun, SlotsOk, RunCalls, Line, Padded;
    LeftoverOfLongCall(d, long, short);
    RunInSync(d, [long, short]);
    var p := RunCalls(d, [long, short]).0[2];
    assert InSync(p, s, 1, 2, LastOfCall([long, short], 2), Pad(Cell(d), [long, short], 2));
    SameBody(pad);
    assert p == p[..PACKET_SIZE - 1] + [p[PACKET_SIZE - 1]];
  }

  function WrongPadRun(pad: byte): (r: (Dec, seq<byte>, seq<byte>)) {
    var body := Padded(0)[..PACKET_SIZE - 1];
    (Dec(true, 1, seq(WINDOW_SIZE, _ => 0)), [0] + Padded(pad) + body, [0] + body)
  }

  lemma SameBody(pad: byte)
    ensures Padded(pad) == Padded(0)[..PACKET_SIZE - 1] + [pad]
  {
  }

  /** The stream of that run: packets at 61, 121 and 181. */
  lemma WrongPadLine(pad: byte)
    ensures var (d, long, short) := WrongPadRun(pad);
      var s, body := Line(d, [long, short]), Padded(0)[..PACKET_SIZE - 1];
      && Shape(d) && d.synced && d.offset == 1 && |long| == 2 * PACKET_SIZE && |short| == PACKET_SIZE
      && |s| == 4 * PACKET_SIZE && SlotsOk(s, 1, 0) && long[PACKET_SIZE] == pad
      && s[SlotPos(1, 2)..SlotPos(1, 2) + PACKET_SIZE - 1] == body
  {
    var (d, long, short) := WrongPadRun(pad);
    var s, body := Line(d, [long, short]), Padded(0)[..PACKET_SIZE - 1];
    SameBody(pad);
    assert [long, short][1..] == [short] && [short][1..] == [];
    assert Join([short]) == short + Join([]) == short;
    var zeros: seq<byte> := seq(PACKET_SIZE, _ => 0);
    assert Carry(d) == zeros && s == zeros + (long + short);
    assert long[PACKET_SIZE] == pad;
    hide Padded, WrongPadRun, Line, Join, Carry;
    assert long == [0] + (body + [pad]) + body && short == [0] + body;
    ThreeBodies(s, zeros, body, pad);
    hide SlotOk;
    PaddedIsSlot(s, 61, 0);
    PaddedIsSlot(s, 121, 0);
    PaddedIsSlot(s, 181, 0);
    forall k: nat | SlotPos(1, k) + PACKET_SIZE - 1 <= |s| ensures SlotOk(s, SlotPos(1, k)) {
      assert k == 0 || k == 1 || k == 2;
    }
  }

  lemma ThreeBodies(s: seq<byte>, zeros: seq<byte>, body: seq<byte>, pad: byte)
    requires |zeros| == PACKET_SIZE && |body| == PACKET_SIZE - 1
    requires s == zeros + (([0] + (body + [pad]) + body) + ([0] + body))
    ensures s[61..61 + PACKET_SIZE - 1] == s[121..121 + PACKET_SIZE - 1] == s[181..181 + PACKET_SIZE - 1] == body
  {
    var none: seq<byte> := [];
    assert s == (zeros + [0]) + body + ([pad] + body + [0] + body);
    Middle(zeros + [0], body, [pad] + body + [0] + body);
    assert s == (zeros + [0] + body + [pad]) + body + ([0] + body);
    Middle(zeros + [0] + body + [pad], body, [0] + body);
    assert s == (zeros + [0] + body + [pad] + body + [0]) + body + none;
    Middle(zeros + [0] + body + [pad] + body + [0], body, none);
  }

  lemma NothingInSync(s: seq<byte>, inputs: seq<seq<byte>>, offset: nat, cell: byte)
    ensures AllInSync([], s, inputs, offset, cell)
  {
  }

  // Acquisition

  /** Packet `k` of a run over the stream `s` whose first header is at `h`. */
  ghost predicate Aligned(p: seq<byte>, s: seq<byte>, inputs: seq<seq<byte>>, h: nat, k: nat, cell: byte) {
    if CallEnd(inputs, k) <= h then Exact(p, s, PACKET_SIZE * k, true, 0)
    else InSync(p, s, h % PACKET_SIZE, k, LastOfCall(inputs, k), Pad(cell, inputs, k))
  }

  ghost predicate AllAligned(packets: seq<seq<byte>>, s: seq<byte>, inputs: seq<seq<byte>>, h: nat, cell: byte) {
    forall k | 0 <= k < |packets| :: Aligned(packets[k], s, inputs, h, k, cell)
  }

  lemma SamePhase(h: nat, size: nat)
    requires CallSize(size) && size <= h
    ensures (h - size) % PACKET_SIZE == h % PACKET_SIZE
  {
  }

  lemma AlignedShift(p: seq<byte>, s: seq<byte>, inputs: seq<seq<byte>>, h: nat, k: nat, cell: byte)
    requires inputs != [] && CallSize(|inputs[0]|) && |inputs[0]| <= |s| && |inputs[0]| <= h
    requires Aligned(p, s[|inputs[0]|..], inputs[1..], h - |inputs[0]|, k, CellAfter(cell, inputs[0]))
    ensures Aligned(p, s, inputs, h, k + |inputs[0]| / PACKET_SIZE, cell)
  {
    hide Exact, InSync, CellAfter, PadOf;
    var size, tail, cell' := |inputs[0]|, inputs[1..], CellAfter(cell, inputs[0]);
    SamePhase(h, size);
    assert CallEnd(inputs, k + size / PACKET_SIZE) == size + CallEnd(inputs[1..], k);
    if CallEnd(inputs[1..], k) <= h - size {
      ExactShift(p, s, size, PACKET_SIZE * k, true, 0);
    } else {
      InSyncShift(p, s, size, h % PACKET_SIZE, k, LastOfCall(tail, k), Pad(cell', tail, k));
    }
  }

  lemma AlignedJoin(packets: seq<seq<byte>>, rest: seq<seq<byte>>, s: seq<byte>, inputs: seq<seq<byte>>, h: nat,
                    cell: byte)
    requires inputs != [] && CallSize(|inputs[0]|) && PACKET_SIZE + |inputs[0]| <= |s|
    requires PACKET_SIZE * |packets| == |inputs[0]| && |inputs[0]| <= h
    requires PiecesExact(packets, s[..PACKET_SIZE + |inputs[0]|])
    requires AllAligned(rest, s[|inputs[0]|..], inputs[1..], h - |inputs[0]|, CellAfter(cell, inputs[0]))
    ensures AllAligned(packets + rest, s, inputs, h, cell)
  {
    hide InSync, Exact;
    var n, size := |packets|, |inputs[0]|;
    forall k | 0 <= k < n + |rest| ensures Aligned((packets + rest)[k], s, inputs, h, k, cell) {
      if k < n {
        ExactPrefix(packets[k], s, PACKET_SIZE + size, PACKET_SIZE * k, true, 0);
        assert CallEnd(inputs, k) == size;
      } else {
        hide Aligned;
        AlignedShift(rest[k - n], s, inputs, h, k - n, cell);
      }
    }
  }

  /** A stream with its first header in the first call is in sync throughout. */
  lemma InSyncIsAligned(packets: seq<seq<byte>>, s: seq<byte>, inputs: seq<seq<byte>>, h: nat, cell: byte)
    requires inputs != [] && h < |inputs[0]| && AllInSync(packets, s, inputs, h % PACKET_SIZE, cell)
    ensures AllAligned(packets, s, inputs, h, cell)
  {
    hide InSync, Exact;
    forall k | 0 <= k < |packets| ensures Aligned(packets[k], s, inputs, h, k, cell) {
      assert CallEnd(inputs, k) >= |inputs[0]|;
    }
  }

  lemma FirstSyncShift(s: seq<byte>, total: nat, size: nat)
    requires total + 2 <= |s| && size <= FirstSync(s, total, 0)
    ensures FirstSync(s[size..], total - size, 0) == FirstSync(s, total, 0) - size
  {
    hide Header;
    var tail, h, r := s[size..], FirstSync(s, total, 0), FirstSync(s[size..], total - size, 0);
    forall k | 0 <= k < total - size ensures Header(tail, k) == Header(s, size + k) {
      SlotTail(s, size, k);
    }
    if h < total {
      assert Header(tail, h - size);
    }
  }

  /** Where the first header of a run is; the length of the input if there is none. */
  function FirstHeader(d: Dec, inputs: seq<seq<byte>>): nat
    requires Shape(d)
  {
    FirstSync(Line(d, inputs), |Join(inputs)|, 0)
  }

  /** From the first header on, everything due at its phase is a packet or mute. */
  ghost predicate Heard(d: Dec, inputs: seq<seq<byte>>)
    requires Shape(d)
  {
    var h := FirstHeader(d, inputs);
    h < |Join(inputs)| ==> SlotsOk(Line(d, inputs), h % PACKET_SIZE, h)
  }

  /** The outcome of a run whose first header is at `h`. */
  ghost predicate RunAligned(d: Dec, inputs: seq<seq<byte>>, h: nat)
    requires Shape(d) && Sized(inputs)
  {
    var (packets, d') := RunCalls(d, inputs);
    && d'.synced == (h < |Join(inputs)|)
    && (d'.synced ==> d'.offset == h % PACKET_SIZE)
    && PACKET_SIZE * |packets| == |Join(inputs)|
    && AllAligned(packets, Line(d, inputs), inputs, h, Cell(d))
  }

  lemma NoHeaderBefore(s: seq<byte>, s0: seq<byte>, h: nat)
    requires |s0| <= |s| && s[..|s0|] == s0 && h + 2 < |s| && forall k | 0 <= k < h :: !Header(s, k)
    ensures forall k | 0 <= k < h && k + 2 < |s0| :: !Header(s0, k)
  {
    hide Header;
    forall k | 0 <= k < h && k + 2 < |s0| ensures !Header(s0, k) {
      SlotPrefix(s0, s, k);
    }
  }

  /** The first call of a run that meets the first header. */
  lemma FirstCallAcquires(d: Dec, inputs: seq<seq<byte>>)
    requires Shape(d) && Sized(inputs) && !d.synced && inputs != []
    requires FirstHeader(d, inputs) < |inputs[0]| && Heard(d, inputs)
    ensures var s, h := Line(d, inputs), FirstHeader(d, inputs);
      var (packets, d1) := Decode(d, inputs[0]);
      && d1.synced && d1.offset == h % PACKET_SIZE && SlotsOk(Line(d1, inputs[1..]), h % PACKET_SIZE, 0)
      && CallExact(packets, s[..PACKET_SIZE + |inputs[0]|], h % PACKET_SIZE,
                   PadOf(Cell(d), |inputs[0]|))
  {
    StreamSplits(d, inputs);
    var s, s0, h, size := Line(d, inputs), Carry(d) + inputs[0], FirstHeader(d, inputs), |inputs[0]|;
    hide SlotsOk, InSync, Decode, Header, CallSize, FirstSync, Line, Carry, CallExact, PadOf;
    NoHeaderBefore(s, s0, h);
    SlotPrefix(s0, s, h);
    SlotsPrefix(s, |s0|, h % PACKET_SIZE, h);
    CallAcquires(d, inputs[0], h);
    SlotsShift(s, size, h % PACKET_SIZE, h);
  }

  /** A run is its first call, then the rest. */
  lemma RunCallsStep(d: Dec, inputs: seq<seq<byte>>)
    requires Shape(d) && Sized(inputs) && inputs != []
    ensures var (packets, d1) := Decode(d, inputs[0]);
      var (rest, d') := RunCalls(d1, inputs[1..]);
      RunCalls(d, inputs) == (packets + rest, d') && PACKET_SIZE * |packets| == |inputs[0]|
  {
    hide Decode;
    assert CallSize(|inputs[0]|);
  }

  /** The run when the first call already meets the first header. */
  lemma AlignedFromFirst(d: Dec, inputs: seq<seq<byte>>)
    requires Shape(d) && Sized(inputs) && !d.synced && inputs != []
    requires FirstHeader(d, inputs) < |inputs[0]| && Heard(d, inputs)
    ensures RunAligned(d, inputs, FirstHeader(d, inputs))
  {
    var s, h, size, tail := Line(d, inputs), FirstHeader(d, inputs), |inputs[0]|, inputs[1..];
    var (packets, d1) := Decode(d, inputs[0]);
    assert Sized(tail) && CallSize(size);
    hide SlotsOk, AllInSync, AllAligned, Decode, Heard, FirstHeader, Line, Carry, PadOf, CellAfter, Cell, CallExact,
         Shape, Header, FirstSync, Join, RunCalls, Sized, CallSize;
    FirstCallAcquires(d, inputs);
    StreamSplits(d, inputs);
    CarryMoves(d, inputs[0]);
    RunInSync(d1, tail);
    RunCallsStep(d, inputs);
    var rest := RunCalls(d1, tail).0;
    InSyncJoin(packets, rest, s, inputs, h % PACKET_SIZE, Cell(d));
    InSyncIsAligned(packets + rest, s, inputs, h, Cell(d));
  }

  /** A first call that meets no header leaves the rest of the stream to the calls that follow. */
  lemma LaterHeader(d: Dec, inputs: seq<seq<byte>>)
    requires Shape(d) && Sized(inputs) && !d.synced && inputs != []
    requires |inputs[0]| <= FirstHeader(d, inputs) && Heard(d, inputs)
    ensures var d1, tail := Decode(d, inputs[0]).1, inputs[1..];
      !d1.synced && FirstHeader(d1, tail) == FirstHeader(d, inputs) - |inputs[0]| && Heard(d1, tail)
    ensures NoHeader(Carry(d) + inputs[0], |inputs[0]|)
  {
    StreamSplits(d, inputs);
    var s, s0, h, size := Line(d, inputs), Carry(d) + inputs[0], FirstHeader(d, inputs), |inputs[0]|;
    hide SlotsOk, Decode, Header, FirstSync, CallSize, Line, Carry;
    NoHeaderBefore(s, s0, h);
    CallUnsynced(d, inputs[0]);
    FirstSyncShift(s, |Join(inputs)|, size);
    SamePhase(h, size);
    if h < |Join(inputs)| {
      SlotsShift(s, size, h % PACKET_SIZE, h);
    }
  }

  /** The run when the first call meets no header, given what the rest of the run does. */
  lemma AlignedLater(d: Dec, inputs: seq<seq<byte>>, h: nat)
    requires Shape(d) && Sized(inputs) && !d.synced && inputs != [] && |inputs[0]| <= h
    requires RunAligned(Decode(d, inputs[0]).1, inputs[1..], h - |inputs[0]|)
    requires NoHeader(Carry(d) + inputs[0], |inputs[0]|)
    ensures RunAligned(d, inputs, h)
  {
    hide AllAligned, PiecesExact, NoHeader, Decode, Line, Carry, Shape, FirstSync, Join, RunCalls, Cell, CellAfter;
    var (packets, d1) := Decode(d, inputs[0]);
    RunCallsStep(d, inputs);
    StreamSplits(d, inputs);
    CarryMoves(d, inputs[0]);
    CallUnsynced(d, inputs[0]);
    SamePhase(h, |inputs[0]|);
    var rest := RunCalls(d1, inputs[1..]);
    AlignedJoin(packets, rest.0, Line(d, inputs), inputs, h, Cell(d));
  }

  /** A run from a decoder without sync: it synchronises in the call whose window the first header of
      the stream falls in, and never loses sync again while what follows at that phase is packets or
      mute. Packets before are the stream cut every 60 bytes; packets from that call on are the
      packets of the stream, each once and in order. */
  lemma {:induction false} AlignmentIsExact(d: Dec, inputs: seq<seq<byte>>)
    requires Shape(d) && Sized(inputs) && !d.synced && Heard(d, inputs)
    ensures RunAligned(d, inputs, FirstHeader(d, inputs))
    decreases |inputs|
  {
    hide FirstHeader, Heard, RunAligned, Decode, Shape;
    if inputs == [] {
      NothingAligned(d);
    } else if FirstHeader(d, inputs) < |inputs[0]| {
      AlignedFromFirst(d, inputs);
    } else {
      var d1, tail := Decode(d, inputs[0]).1, inputs[1..];
      assert Sized(tail);
      hide *;
      LaterHeader(d, inputs);
      AlignmentIsExact(d1, tail);
      AlignedLater(d, inputs, FirstHeader(d, inputs));
    }
  }

  lemma NothingAligned(d: Dec)
    requires Shape(d) && !d.synced
    ensures RunAligned(d, [], FirstHeader(d, []))
  {
    hide Decode, Aligned, Header;
  }
}
