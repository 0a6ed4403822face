/** The AAC path of `apps/audioplayers/a2dpplay.cpp` with its three actors interleaved: the Bluetooth
    thread storing packets, the MCU moving bytes into the ring, the co-processor loading packets out
    of it. The queue is locked; ring positions are read and published without a lock. */
module A2dpPipeline {
  import opened Bytes
  import opened Rings
  import opened A2dpInCache

  /** The MCU inside `mcu_load_a2dp_encoded_data`: it has read the reader's position, has fixed how
      many bytes to move, has copied them, has published the new writer position. */
  datatype Mcu = McuIdle | Snapped(rpos: nat) | Sized(n: nat, rpos: nat) | Copied(n: nat) | Published(n: nat)

  /** The co-processor inside `cp_load_aac_frame`: it has read the writer's position, has copied a
      packet out but not yet released its cells. */
  datatype Cp = CpIdle | Looking(wpos: nat) | Loaded(packet: seq<byte>)

  datatype State = State(
    queue: seq<byte>, cache: seq<byte>, wpos: nat, rpos: nat, mcu: Mcu, cp: Cp,
    accepted: seq<seq<byte>>, delivered: seq<seq<byte>>, badHeader: bool)

  datatype Step =
    | Store(packet: seq<byte>)
    | McuSnap | McuSize | McuCopy | McuPublish | McuDequeue
    | CpLook | CpLoad | CpRelease

  /** One atomic step; a step of an actor that is elsewhere does nothing. `capacity` is the size of
      the queue. */
  function Next(capacity: nat, s: State, step: Step): State
    requires Shape(s)
  {
    match step
    case Store(packet) =>
      if |s.queue| + 2 + |packet| <= capacity
      then s.(queue := s.queue + Framed(packet), accepted := s.accepted + [packet])
      else s
    case McuSnap =>
      if s.mcu.McuIdle? && FreeLen(s.wpos, s.rpos) > 0 then s.(mcu := Snapped(s.rpos)) else s
    case McuSize =>
      if !s.mcu.Snapped? then s
      else
        var room := FreeLen(s.wpos, s.mcu.rpos);
        s.(mcu := Sized(if |s.queue| > room then room else |s.queue|, s.mcu.rpos))
    case McuCopy =>
      if !s.mcu.Sized? || s.mcu.n > |s.queue| then s
      else s.(cache := Rings.Store(s.cache, s.wpos, s.queue[..s.mcu.n]), mcu := Copied(s.mcu.n))
    case McuPublish =>
      if !s.mcu.Copied? then s else s.(wpos := UpdatePos(s.wpos, s.mcu.n), mcu := Published(s.mcu.n))
    case McuDequeue =>
      if !s.mcu.Published? || s.mcu.n > |s.queue| then s
      else s.(queue := s.queue[s.mcu.n..], mcu := McuIdle)
    case CpLook =>
      if s.cp.CpIdle? then s.(cp := Looking(s.wpos)) else s
    case CpLoad =>
      if !s.cp.Looking? then s
      else
        var load := Parse(Slice(s.cache, s.rpos, DataLen(s.cp.wpos, s.rpos)));
        s.(cp := if load.ret == 0 then Loaded(load.packet) else CpIdle, badHeader := s.badHeader || load.ret == 2)
    case CpRelease =>
      if !s.cp.Loaded? then s
      else s.(rpos := UpdatePos(s.rpos, 2 + |s.cp.packet|), cp := CpIdle, delivered := s.delivered + [s.cp.packet])
  }

  /** The ranges that keep every step defined. */
  ghost predicate Shape(s: State) {
    && |s.cache| == CP_IN_SIZE && s.wpos < CP_IN_SIZE && s.rpos < CP_IN_SIZE
    && (s.mcu.Snapped? || s.mcu.Sized? ==> s.mcu.rpos < CP_IN_SIZE)
    && (s.mcu.Sized? ==> s.mcu.n < CP_IN_SIZE)
    && (s.mcu.Copied? || s.mcu.Published? ==> s.mcu.n < CP_IN_SIZE)
    && (s.cp.Looking? ==> s.cp.wpos < CP_IN_SIZE)
    && (s.cp.Loaded? ==> |s.cp.packet| < AAC_LEN_LIMIT)
  }

  /** Readable bytes of the ring. */
  ghost function Ring(s: State): seq<byte>
    requires Shape(s)
  {
    Slice(s.cache, s.rpos, DataLen(s.wpos, s.rpos))
  }

  /** Bytes of the queue that are not in the ring as well. */
  ghost function Unmoved(s: State): seq<byte> {
    if s.mcu.Published? && s.mcu.n <= |s.queue| then s.queue[s.mcu.n..] else s.queue
  }

  ghost function Pending(s: State): seq<seq<byte>>
    requires |s.delivered| <= |s.accepted|
  {
    s.accepted[|s.delivered|..]
  }

  /** What the MCU relies on: its view of the reader is old, and the reader only frees cells. */
  ghost predicate McuInv(s: State)
    requires Shape(s)
  {
    match s.mcu
    case McuIdle => true
    case Snapped(r) => FreeLen(s.wpos, r) <= FreeLen(s.wpos, s.rpos)
    case Sized(n, r) => n <= |s.queue| && n <= FreeLen(s.wpos, s.rpos)
    case Copied(n) => n <= |s.queue| && n <= FreeLen(s.wpos, s.rpos) && Slice(s.cache, s.wpos, n) == s.queue[..n]
    case Published(n) => n <= |s.queue|
  }

  /** What the co-processor relies on: its view of the writer is old, and the writer only adds bytes. */
  ghost predicate CpInv(s: State)
    requires Shape(s) && |s.delivered| <= |s.accepted|
  {
    match s.cp
    case CpIdle => true
    case Looking(w) => DataLen(w, s.rpos) <= DataLen(s.wpos, s.rpos)
    case Loaded(p) => 2 + |p| <= DataLen(s.wpos, s.rpos) && Pending(s) != [] && p == Pending(s)[0]
  }

  /** Nothing is lost, doubled or reordered between the queue's entry and the decoder. */
  ghost predicate Conserved(s: State)
    requires Shape(s)
  {
    && s.delivered <= s.accepted
    && (forall p | p in s.accepted :: |p| < 65536)
    && Ring(s) + Unmoved(s) == Frame(Pending(s))
  }

  /** The oldest packet pending is too long for the co-processor. */
  ghost predicate HeadTooLong(s: State)
    requires |s.delivered| <= |s.accepted|
  {
    Pending(s) != [] && |Pending(s)[0]| >= AAC_LEN_LIMIT
  }

  /** The co-processor has seen all of the oldest packet pending, and can take it. */
  ghost predicate HeadIsThere(s: State)
    requires |s.delivered| <= |s.accepted| && s.cp.Looking? && Shape(s)
  {
    Pending(s) != [] && !HeadTooLong(s) && DataLen(s.cp.wpos, s.rpos) >= 2 + |Pending(s)[0]|
  }

  /** A bad header was reported only for a packet too long for the co-processor, and then nothing is loaded
      any more. */
  ghost predicate BadHeaderInv(s: State)
    requires |s.delivered| <= |s.accepted|
  {
    s.badHeader ==> HeadTooLong(s) && !s.cp.Loaded?
  }

  ghost predicate Inv(s: State) {
    && Shape(s) && Conserved(s) && McuInv(s) && CpInv(s) && BadHeaderInv(s)
  }

  ghost const INIT: State :=
    State([], seq(CP_IN_SIZE, _ => 0), 0, 0, McuIdle, CpIdle, [], [], false)

  lemma InitInv()
    ensures Inv(INIT)
  {
    assert Ring(INIT) == [];
  }

  lemma StoreKeeps(capacity: nat, s: State, packet: seq<byte>)
    requires Inv(s) && |packet| < 65536
    ensures Inv(Next(capacity, s, Store(packet)))
  {
    hide Framed, Frame, Slice;
    var t := Next(capacity, s, Store(packet));
    if t != s {
      FrameSnoc(Pending(s), packet);
      assert Pending(t) == Pending(s) + [packet];
      assert Unmoved(t) == Unmoved(s) + Framed(packet);
      assert Ring(s) + Unmoved(t) == (Ring(s) + Unmoved(s)) + Framed(packet);
      assert s.mcu.Copied? ==> t.queue[..s.mcu.n] == s.queue[..s.mcu.n];
    }
  }

  lemma McuSnapSizeKeep(capacity: nat, s: State, step: Step)
    requires Inv(s) && (step == McuSnap || step == McuSize)
    ensures Inv(Next(capacity, s, step))
  {
    hide Frame, Slice;
    RingRoom(s.wpos, s.rpos);
    if s.mcu.Snapped? {
      RingRoom(s.wpos, s.mcu.rpos);
    }
    var t := Next(capacity, s, step);
    assert Ring(t) == Ring(s) && Unmoved(t) == Unmoved(s);
  }

  /** The copy stays clear of every unread byte, although its view of the reader may be old. */
  lemma McuCopyKeeps(capacity: nat, s: State)
    requires Inv(s)
    ensures Inv(Next(capacity, s, McuCopy))
    ensures Ring(Next(capacity, s, McuCopy)) == Ring(s)
  {
    hide Frame, Slice, Rings.Store;
    if s.mcu.Sized? {
      var data := s.queue[..s.mcu.n];
      var used := DataLen(s.wpos, s.rpos);
      RingRoom(s.wpos, s.rpos);
      var cache' := Rings.Store(s.cache, s.wpos, data);
      TransferExtends(s.cache, s.wpos, s.rpos, data);
      SlicePrefix(cache', s.rpos, used + |data|, used);
      SliceDrop(cache', s.rpos, used + |data|, used);
      assert (Ring(s) + data)[..used] == Ring(s) && (Ring(s) + data)[used..] == data;
    }
  }

  lemma McuPublishKeeps(capacity: nat, s: State)
    requires Inv(s)
    ensures Inv(Next(capacity, s, McuPublish))
  {
    hide Frame, Slice;
    if s.mcu.Copied? {
      var n := s.mcu.n;
      var t := Next(capacity, s, McuPublish);
      var used := DataLen(s.wpos, s.rpos);
      RingRoom(s.wpos, s.rpos);
      RingMoves(s.wpos, s.rpos, n);
      SliceSplit(s.cache, s.rpos, used, n);
      assert Ring(t) == Ring(s) + s.queue[..n];
      assert s.queue == s.queue[..n] + s.queue[n..];
      assert Ring(t) + Unmoved(t) == Ring(s) + Unmoved(s);
    }
  }

  lemma McuDequeueKeeps(capacity: nat, s: State)
    requires Inv(s)
    ensures Inv(Next(capacity, s, McuDequeue))
  {
    hide Frame, Slice;
    var t := Next(capacity, s, McuDequeue);
    assert Ring(t) == Ring(s) && Unmoved(t) == Unmoved(s);
  }

  /** A load sees a prefix of the readable bytes, so it yields the oldest pending packet or waits. */
  lemma CpLookLoadKeep(capacity: nat, s: State, step: Step)
    requires Inv(s) && (step == CpLook || step == CpLoad)
    ensures Inv(Next(capacity, s, step))
  {
    hide Frame, Slice, Parse;
    RingRoom(s.wpos, s.rpos);
    if step == CpLoad && s.cp.Looking? {
      LoadYieldsOldest(s);
    }
    var t := Next(capacity, s, step);
    assert Ring(t) == Ring(s) && Unmoved(t) == Unmoved(s);
  }

  lemma LoadYieldsOldest(s: State)
    requires Inv(s) && s.cp.Looking?
    ensures 0 <= DataLen(s.cp.wpos, s.rpos) <= DataLen(s.wpos, s.rpos)
    ensures var load := Parse(Slice(s.cache, s.rpos, DataLen(s.cp.wpos, s.rpos)));
            && (load.ret == 2 <==> HeadTooLong(s) && DataLen(s.cp.wpos, s.rpos) >= 2)
            && (load.ret == 0 <==> HeadIsThere(s))
            && |load.packet| < AAC_LEN_LIMIT
            && (load.ret == 0 ==> Pending(s) != [] && load.packet == Pending(s)[0]
                                  && 2 + |load.packet| <= DataLen(s.wpos, s.rpos))
  {
    RingRoom(s.wpos, s.rpos);
    RingRoom(s.cp.wpos, s.rpos);
    var used, seen := DataLen(s.wpos, s.rpos), DataLen(s.cp.wpos, s.rpos);
    var content := Slice(s.cache, s.rpos, seen);
    hide Slice, FromLe16, Le16;
    SlicePrefix(s.cache, s.rpos, used, seen);
    if Pending(s) == [] {
      assert |Ring(s)| == 0;
    } else {
      var p := Pending(s)[0];
      assert p in s.accepted;
      hide McuInv, Frame, FreeLen, UpdatePos;
      SplitFront(Ring(s), Unmoved(s), seen);
      ParseFramed(content, Ring(s)[seen..] + Unmoved(s), Pending(s));
    }
  }

  /** Releasing the loaded packet takes exactly its frame off the readable bytes. */
  lemma ReleaseDropsFrame(capacity: nat, s: State)
    requires Inv(s) && s.cp.Loaded?
    ensures var t := Next(capacity, s, CpRelease);
            var k := 2 + |s.cp.packet|;
            Shape(t) && k <= |Ring(s)| && Ring(t) == Ring(s)[k..]
    ensures var t := Next(capacity, s, CpRelease);
            var k := 2 + |s.cp.packet|;
            DataLen(t.wpos, t.rpos) == DataLen(s.wpos, s.rpos) - k
            && FreeLen(t.wpos, t.rpos) == FreeLen(s.wpos, s.rpos) + k
  {
    hide Slice, Frame;
    var k := 2 + |s.cp.packet|;
    RingRoom(s.wpos, s.rpos);
    RingMoves(s.wpos, s.rpos, k);
    RingRoom(s.wpos, UpdatePos(s.rpos, k));
    SliceDrop(s.cache, s.rpos, DataLen(s.wpos, s.rpos), k);
  }

  lemma UnmovedDependsOn(s: State, t: State)
    requires t.mcu == s.mcu && t.queue == s.queue
    ensures Unmoved(t) == Unmoved(s)
  {
  }

  lemma SplitFront(a: seq<byte>, b: seq<byte>, n: nat)
    requires n <= |a|
    ensures a[..n] + (a[n..] + b) == a + b
  {
  }

  lemma DropFront(a: seq<byte>, b: seq<byte>, n: nat)
    requires n <= |a|
    ensures (a + b)[n..] == a[n..] + b
  {
  }

  lemma ReleaseKeepsConserved(capacity: nat, s: State)
    requires Inv(s) && s.cp.Loaded?
    ensures var t := Next(capacity, s, CpRelease); Shape(t) && Conserved(t)
  {
    ReleaseDropsFrame(capacity, s);
    var t := Next(capacity, s, CpRelease);
    var p, pending := s.cp.packet, Pending(s);
    FramedHead(p, Frame(pending[1..]));
    hide Slice, Le16, FromLe16, Framed, DataLen, FreeLen, UpdatePos, Ring, McuInv, CpInv, Unmoved;
    assert Unmoved(t) == Unmoved(s) by {
      UnmovedDependsOn(s, t);
    }
    DropFront(Ring(s), Unmoved(s), 2 + |p|);
    assert Pending(t) == pending[1..];
    assert p == s.accepted[|s.delivered|];
  }

  lemma CpReleaseKeeps(capacity: nat, s: State)
    requires Inv(s)
    ensures Inv(Next(capacity, s, CpRelease))
  {
    if s.cp.Loaded? {
      ReleaseDropsFrame(capacity, s);
      ReleaseKeepsConserved(capacity, s);
      hide Slice, Frame, DataLen, FreeLen, UpdatePos, Ring, Unmoved, Conserved;
      var t := Next(capacity, s, CpRelease);
      assert t.queue == s.queue && t.cache == s.cache && t.wpos == s.wpos && t.mcu == s.mcu;
    }
  }

  lemma NextKeepsInv(capacity: nat, s: State, step: Step)
    requires Inv(s) && (step.Store? ==> |step.packet| < 65536)
    ensures Inv(Next(capacity, s, step))
  {
    hide Inv, Next;
    match step {
      case Store(packet) => StoreKeeps(capacity, s, packet);
      case McuSnap => McuSnapSizeKeep(capacity, s, step);
      case McuSize => McuSnapSizeKeep(capacity, s, step);
      case McuCopy => McuCopyKeeps(capacity, s);
      case McuPublish => McuPublishKeeps(capacity, s);
      case McuDequeue => McuDequeueKeeps(capacity, s);
      case CpLook => CpLookLoadKeep(capacity, s, step);
      case CpLoad => CpLookLoadKeep(capacity, s, step);
      case CpRelease => CpReleaseKeeps(capacity, s);
    }
  }

  /** `t` can be reached from `s` by these steps. */
  ghost predicate Runs(capacity: nat, s: State, steps: seq<Step>, t: State)
    decreases |steps|
  {
    if steps == [] then s == t
    else Shape(s) && Runs(capacity, Next(capacity, s, steps[0]), steps[1..], t)
  }

  lemma {:induction false} RunKeepsInv(capacity: nat, s: State, steps: seq<Step>, t: State)
    requires Inv(s) && Runs(capacity, s, steps, t)
    requires forall step | step in steps && step.Store? :: |step.packet| < 65536
    ensures Inv(t)
    decreases |steps|
  {
    if steps == [] {
    } else {
      assert steps[0] in steps;
      NextKeepsInv(capacity, s, steps[0]);
      RunKeepsInv(capacity, Next(capacity, s, steps[0]), steps[1..], t);
    }
  }

  /** End to end, for every interleaving and every way transfers cut packets: delivered packets are an
      ordered prefix of the accepted ones, every undelivered byte is in the ring or the queue exactly
      once and in order, and no header is taken for a bad one but that of a packet too long, which is then
      the oldest undelivered one. */
  lemma {:induction false} DeliveryIsExact(capacity: nat, steps: seq<Step>, t: State)
    requires Runs(capacity, INIT, steps, t)
    requires forall step | step in steps && step.Store? :: |step.packet| < 65536
    ensures t.delivered <= t.accepted && Shape(t)
    ensures Frame(t.delivered) + Ring(t) + Unmoved(t) == Frame(t.accepted)
    ensures t.badHeader ==> HeadTooLong(t)
    ensures (forall p | p in t.accepted :: |p| < AAC_LEN_LIMIT) ==> !t.badHeader
  {
    InitInv();
    RunKeepsInv(capacity, INIT, steps, t);
    hide Runs, Frame, Ring, Unmoved, McuInv, CpInv, INIT;
    FrameConcat(t.delivered, Pending(t));
    assert t.delivered + Pending(t) == t.accepted;
    JoinsLeft(Frame(t.delivered), Ring(t), Unmoved(t));
  }

  lemma JoinsLeft(a: seq<byte>, b: seq<byte>, c: seq<byte>)
    ensures a + b + c == a + (b + c)
  {
  }

  /** A bad header is reported exactly by a load that sees the length of a packet too long. */
  lemma BadHeaderIff(capacity: nat, s: State, step: Step)
    requires Inv(s)
    ensures Next(capacity, s, step).badHeader
       <==> s.badHeader
            || (step == CpLoad && s.cp.Looking? && DataLen(s.cp.wpos, s.rpos) >= 2 && HeadTooLong(s))
  {
    if step == CpLoad && s.cp.Looking? {
      LoadYieldsOldest(s);
    }
    hide Inv, Parse, HeadTooLong, Slice;
  }

  lemma {:induction false} FrameConcat(ps: seq<seq<byte>>, qs: seq<seq<byte>>)
    ensures Frame(ps + qs) == Frame(ps) + Frame(qs)
  {
    hide Framed;
    if ps == [] {
      assert ps + qs == qs;
    } else {
      assert (ps + qs)[1..] == ps[1..] + qs;
      FrameConcat(ps[1..], qs);
    }
  }

  // ---- Progress ----

  /** A load hands over the oldest packet if and only if it sees all of it and can take it; otherwise the
      co-processor looks again. */
  lemma LoadHandsOverIff(capacity: nat, s: State)
    requires Inv(s) && s.cp.Looking?
    ensures Next(capacity, s, CpLoad).cp == if HeadIsThere(s) then Loaded(Pending(s)[0]) else CpIdle
  {
    if HeadIsThere(s) {
      LoadTakes(capacity, s);
    } else {
      LoadWaits(capacity, s);
    }
    hide *;
  }

  /** A packet is accepted if and only if it fits the queue with its length; a refused one leaves no trace. */
  lemma StoreAcceptsIff(capacity: nat, s: State, packet: seq<byte>)
    requires Inv(s) && |packet| < 65536
    ensures var t := Next(capacity, s, Store(packet));
            if |s.queue| + 2 + |packet| <= capacity
            then t.accepted == s.accepted + [packet] && |t.queue| == |s.queue| + 2 + |packet|
            else t == s
  {
    hide Inv, Le16;
  }

  lemma RunStep(capacity: nat, s: State, step: Step, rest: seq<Step>, t: State)
    requires Shape(s) && Runs(capacity, Next(capacity, s, step), rest, t)
    ensures Runs(capacity, s, [step] + rest, t)
  {
    hide Next;
    assert ([step] + rest)[1..] == rest;
  }

  lemma ThreeSteps(capacity: nat, s: State, x: Step, a: State, y: Step, b: State, z: Step, t: State)
    requires Shape(s) && Next(capacity, s, x) == a && Shape(a) && Next(capacity, a, y) == b
    requires Shape(b) && Next(capacity, b, z) == t
    ensures Runs(capacity, s, [x, y, z], t)
  {
    hide Next, Shape;
    assert Runs(capacity, t, [], t);
    RunStep(capacity, b, z, [], t);
    assert [z] + [] == [z] && [y] + [z] == [y, z] && [x] + [y, z] == [x, y, z];
    RunStep(capacity, a, y, [z], t);
    RunStep(capacity, s, x, [y, z], t);
  }

  /** Undisturbed, the co-processor delivers the oldest packet if all of it is in the ring. */
  lemma DeliverOne(capacity: nat, s: State) returns (t: State)
    requires Inv(s) && s.cp.CpIdle? && Pending(s) != [] && !HeadTooLong(s)
    requires |Ring(s)| >= 2 + |Pending(s)[0]|
    ensures Runs(capacity, s, [CpLook, CpLoad, CpRelease], t) && Inv(t)
    ensures t.delivered == s.delivered + [Pending(s)[0]] && t.accepted == s.accepted
    ensures t.cp.CpIdle? && t.mcu == s.mcu && t.queue == s.queue
  {
    var head := Pending(s)[0];
    var a := s.(cp := Looking(s.wpos));
    var b := s.(cp := Loaded(head));
    LookSees(capacity, s);
    NextKeepsInv(capacity, s, CpLook);
    LoadTakes(capacity, a);
    NextKeepsInv(capacity, a, CpLoad);
    t := Next(capacity, b, CpRelease);
    NextKeepsInv(capacity, b, CpRelease);
    ReleaseDelivers(capacity, b);
    hide Next, Conserved, McuInv, CpInv, BadHeaderInv, HeadTooLong, Ring, HeadIsThere;
    ThreeSteps(capacity, s, CpLook, a, CpLoad, b, CpRelease, t);
  }

  lemma LookSees(capacity: nat, s: State)
    requires Inv(s) && s.cp.CpIdle? && Pending(s) != [] && !HeadTooLong(s) && |Ring(s)| >= 2 + |Pending(s)[0]|
    ensures Next(capacity, s, CpLook) == s.(cp := Looking(s.wpos)) && HeadIsThere(s.(cp := Looking(s.wpos)))
  {
    RingRoom(s.wpos, s.rpos);
    hide Conserved, McuInv, CpInv, BadHeaderInv, Slice;
  }

  lemma LoadTakes(capacity: nat, s: State)
    requires Inv(s) && s.cp.Looking? && HeadIsThere(s)
    ensures Next(capacity, s, CpLoad) == s.(cp := Loaded(Pending(s)[0]))
  {
    LoadYieldsOldest(s);
    hide Conserved, McuInv, CpInv, BadHeaderInv, Slice, HeadIsThere, HeadTooLong;
  }

  lemma LoadWaits(capacity: nat, s: State)
    requires Inv(s) && s.cp.Looking? && !HeadIsThere(s)
    ensures Next(capacity, s, CpLoad).cp == CpIdle
  {
    LoadYieldsOldest(s);
    hide Inv, Slice, HeadIsThere, Parse, DataLen, Next;
    LoadRefuses(capacity, s, Parse(Slice(s.cache, s.rpos, DataLen(s.cp.wpos, s.rpos))));
  }

  lemma LoadRefuses(capacity: nat, s: State, load: Load)
    requires Shape(s) && s.cp.Looking? && DataLen(s.cp.wpos, s.rpos) <= CP_IN_SIZE && load.ret != 0
    requires load == Parse(Slice(s.cache, s.rpos, DataLen(s.cp.wpos, s.rpos)))
    ensures Next(capacity, s, CpLoad).cp == CpIdle
  {
    hide Slice, Parse, DataLen;
  }

  lemma ReleaseDelivers(capacity: nat, s: State)
    requires Shape(s) && s.cp.Loaded?
    ensures var t := Next(capacity, s, CpRelease);
            && t.delivered == s.delivered + [s.cp.packet] && t.accepted == s.accepted
            && t.cp.CpIdle? && t.mcu == s.mcu && t.queue == s.queue
  {
    hide UpdatePos;
  }

  /** Undisturbed, the MCU moves as many of the oldest bytes of the queue as the ring has room for. */
  lemma TransferSome(capacity: nat, s: State) returns (t: State)
    requires Inv(s) && s.mcu.McuIdle? && FreeLen(s.wpos, s.rpos) > 0
    ensures Runs(capacity, s, [McuSnap, McuSize, McuCopy, McuPublish, McuDequeue], t) && Inv(t)
    ensures var room := FreeLen(s.wpos, s.rpos);
            var n := if |s.queue| > room then room else |s.queue|;
            Ring(t) == Ring(s) + s.queue[..n] && t.queue == s.queue[n..]
    ensures t.mcu.McuIdle? && t.cp == s.cp && t.accepted == s.accepted && t.delivered == s.delivered
  {
    var room := FreeLen(s.wpos, s.rpos);
    var n := if |s.queue| > room then room else |s.queue|;
    var b := Sizing(capacity, s);
    t := Moving(capacity, b);
    hide Next, Inv, Ring, FreeLen, Shape;
    RunsJoin(capacity, s, [McuSnap, McuSize], b, [McuCopy, McuPublish, McuDequeue], t);
    assert [McuSnap, McuSize] + [McuCopy, McuPublish, McuDequeue]
        == [McuSnap, McuSize, McuCopy, McuPublish, McuDequeue];
  }

  lemma Sizing(capacity: nat, s: State) returns (t: State)
    requires Inv(s) && s.mcu.McuIdle? && FreeLen(s.wpos, s.rpos) > 0
    ensures Runs(capacity, s, [McuSnap, McuSize], t) && Inv(t)
    ensures var room := FreeLen(s.wpos, s.rpos);
            var n := if |s.queue| > room then room else |s.queue|;
            t == s.(mcu := Sized(n, s.rpos))
    ensures Ring(t) == Ring(s)
  {
    var a := Next(capacity, s, McuSnap);
    NextKeepsInv(capacity, s, McuSnap);
    t := Next(capacity, a, McuSize);
    NextKeepsInv(capacity, a, McuSize);
    hide Conserved, McuInv, CpInv, BadHeaderInv, FreeLen, Slice, DataLen;
    assert a == s.(mcu := Snapped(s.rpos));
    assert t == s.(mcu := t.mcu) && Shape(a);
    hide Next;
    assert Runs(capacity, t, [], t);
    RunStep(capacity, a, McuSize, [], t);
    assert [McuSize] + [] == [McuSize] && [McuSnap] + [McuSize] == [McuSnap, McuSize];
    RunStep(capacity, s, McuSnap, [McuSize], t);
  }

  lemma Moving(capacity: nat, s: State) returns (t: State)
    requires Inv(s) && s.mcu.Sized?
    ensures Runs(capacity, s, [McuCopy, McuPublish, McuDequeue], t) && Inv(t)
    ensures var n := s.mcu.n;
            n <= |s.queue| && Ring(t) == Ring(s) + s.queue[..n] && t.queue == s.queue[n..]
    ensures t.mcu.McuIdle? && t.cp == s.cp && t.accepted == s.accepted && t.delivered == s.delivered
  {
    var n := s.mcu.n;
    assert n <= |s.queue|;
    var c := Next(capacity, s, McuCopy);
    NextKeepsInv(capacity, s, McuCopy);
    McuCopyKeeps(capacity, s);
    CopyEffect(capacity, s);
    var d := Next(capacity, c, McuPublish);
    NextKeepsInv(capacity, c, McuPublish);
    PublishAppends(capacity, c);
    t := Next(capacity, d, McuDequeue);
    NextKeepsInv(capacity, d, McuDequeue);
    DequeueEffect(capacity, d);
    hide Next, Conserved, McuInv, CpInv, BadHeaderInv, Ring;
    ThreeSteps(capacity, s, McuCopy, c, McuPublish, d, McuDequeue, t);
  }

  lemma CopyEffect(capacity: nat, s: State)
    requires Shape(s) && s.mcu.Sized? && s.mcu.n <= |s.queue|
    ensures var t := Next(capacity, s, McuCopy);
            && t.mcu == Copied(s.mcu.n) && t.queue == s.queue && t.cp == s.cp
            && t.accepted == s.accepted && t.delivered == s.delivered
  {
    hide Rings.Store;
  }

  lemma DequeueEffect(capacity: nat, s: State)
    requires Shape(s) && s.mcu.Published? && s.mcu.n <= |s.queue|
    ensures var t := Next(capacity, s, McuDequeue);
            && Shape(t) && Ring(t) == Ring(s) && t.mcu == McuIdle && t.queue == s.queue[s.mcu.n..] && t.cp == s.cp
            && t.accepted == s.accepted && t.delivered == s.delivered
  {
    hide Slice, DataLen;
  }

  lemma PublishAppends(capacity: nat, s: State)
    requires Inv(s) && s.mcu.Copied?
    ensures var t := Next(capacity, s, McuPublish);
            && Shape(t) && s.mcu.n <= |s.queue| && Ring(t) == Ring(s) + s.queue[..s.mcu.n]
            && t.mcu == Published(s.mcu.n) && t.queue == s.queue && t.cp == s.cp
            && t.accepted == s.accepted && t.delivered == s.delivered
  {
    hide Frame, Slice, Conserved, CpInv;
    var n, used := s.mcu.n, DataLen(s.wpos, s.rpos);
    RingRoom(s.wpos, s.rpos);
    RingMoves(s.wpos, s.rpos, n);
    SliceSplit(s.cache, s.rpos, used, n);
  }

  lemma LoadOrTransfer(s: State)
    requires Inv(s) && s.mcu.McuIdle? && s.cp.CpIdle? && s.delivered != s.accepted
    ensures Pending(s) != []
    ensures |Ring(s)| >= 2 + |Pending(s)[0]| || (FreeLen(s.wpos, s.rpos) > 0 && s.queue != []) || HeadTooLong(s)
  {
    hide Slice, FromLe16, Le16;
    RingRoom(s.wpos, s.rpos);
    var pending := Pending(s);
    assert pending != [] && pending[0] in s.accepted;
    ParseFramed(Ring(s), s.queue, pending);
    if s.queue == [] {
      assert Ring(s) + [] == Ring(s);
      assert |Frame(pending)| >= |Framed(pending[0])|;
    }
  }

  /** No deadlock between the actors: while both cores are idle, a packet is undelivered and the oldest one
      is not too long, three steps of the co-processor deliver it or five steps of the MCU make the readable
      content longer. */
  lemma NoDeadlock(capacity: nat, s: State) returns (steps: seq<Step>, t: State)
    requires Inv(s) && s.mcu.McuIdle? && s.cp.CpIdle? && s.delivered != s.accepted && !HeadTooLong(s)
    ensures Runs(capacity, s, steps, t) && Inv(t) && t.mcu.McuIdle? && t.cp.CpIdle? && t.accepted == s.accepted
    ensures |s.delivered| < |s.accepted|
    ensures || (steps == [CpLook, CpLoad, CpRelease] && t.queue == s.queue
                && t.delivered == s.delivered + [s.accepted[|s.delivered|]])
            || (steps == [McuSnap, McuSize, McuCopy, McuPublish, McuDequeue] && t.delivered == s.delivered
                && |Ring(t)| > |Ring(s)| && |t.queue| < |s.queue|)
  {
    LoadOrTransfer(s);
    if |Ring(s)| >= 2 + |Pending(s)[0]| {
      t := DeliverOne(capacity, s);
      steps := [CpLook, CpLoad, CpRelease];
    } else {
      t := TransferSome(capacity, s);
      steps := [McuSnap, McuSize, McuCopy, McuPublish, McuDequeue];
    }
    hide Inv, Runs, HeadTooLong, Ring, Next;
  }

  lemma {:induction false} RunsJoin(capacity: nat, s: State, xs: seq<Step>, m: State, ys: seq<Step>, t: State)
    requires Runs(capacity, s, xs, m) && Runs(capacity, m, ys, t)
    ensures Runs(capacity, s, xs + ys, t)
    decreases |xs|
  {
    hide Next;
    if xs == [] {
      assert xs + ys == ys;
    } else {
      RunsJoin(capacity, Next(capacity, s, xs[0]), xs[1..], m, ys, t);
      assert (xs + ys)[1..] == xs[1..] + ys;
    }
  }

  /** From every such state all accepted packets can be delivered. */
  lemma {:induction false} EverythingCanBeDelivered(capacity: nat, s: State) returns (steps: seq<Step>, t: State)
    requires Inv(s) && s.mcu.McuIdle? && s.cp.CpIdle? && forall p | p in s.accepted :: |p| < AAC_LEN_LIMIT
    ensures Runs(capacity, s, steps, t) && t.delivered == s.accepted == t.accepted
    decreases |s.accepted| - |s.delivered|, |s.queue|
  {
    if s.delivered == s.accepted {
      steps, t := [], s;
    } else {
      var some, m := NoDeadlock(capacity, s);
      hide Inv, Runs, HeadTooLong, Next;
      var rest, u := EverythingCanBeDelivered(capacity, m);
      RunsJoin(capacity, s, some, m, rest, u);
      steps, t := some + rest, u;
    }
  }
}
