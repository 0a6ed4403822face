/** The length-prefixed message queue of `apps/app_rpc/rpc_queue.c`, laid over a `CQueue`. */
module RpcQueue {
  import opened Bytes
  import opened Rings
  import opened CQueues

  const DATA_LEN_BYTES := 2

  /** What `Push` returns and leaves in a queue of the given size. The stored length is the low 16
      bits of the real one, and the room check looks only at that. */
  function Pushed(items: seq<byte>, size: nat, data: seq<byte>): (r: (int, seq<byte>)) {
    var dataLen := |data| % 65536;
    if |data| == 0 || dataLen + DATA_LEN_BYTES + |items| > size then (-1, items)
    else if |data| + DATA_LEN_BYTES + |items| > size then (0, items + Le16(|data|))
    else (0, items + Framed(data))
  }

  /** The length `GetNextEntryLength` reads. */
  function HeadLength(items: seq<byte>): (n: nat) {
    if |items| < DATA_LEN_BYTES then 0 else FromLe16(items[0], items[1])
  }

  /** The buffer `Pop` fills and what it leaves. */
  function Popped(items: seq<byte>, n: nat): (r: (seq<byte>, seq<byte>)) {
    var body := if |items| < DATA_LEN_BYTES then items else items[DATA_LEN_BYTES..];
    if n <= |body| then (body[..n], body[n..]) else (seq(n, _ => 0), body)
  }

  method Push(q: CQueue, data: seq<byte>) returns (nRet: int)
    requires q.Valid()
    modifies q, q.base
    ensures q.Valid() && (nRet, q.Items()) == Pushed(old(q.Items()), q.size, data)
  {
    hide Le16, Slice;
    nRet := -1;
    if |data| > 0 {
      var dataLen := |data| % 65536;
      var queueAvailableLen := q.AvailableOfCQueue();
      if dataLen + DATA_LEN_BYTES <= queueAvailableLen {
        ghost var was := q.Items();
        assert Le16(dataLen) == Le16(|data|) by { Le16RoundTrip(|data|); }
        var _ := q.EnCQueue(Le16(dataLen));
        var fits := q.EnCQueue(data);
        assert was + Framed(data) == was + Le16(|data|) + data;
        nRet := 0;
      }
    }
  }

  method GetNextEntryLength(q: CQueue) returns (length: nat)
    requires q.Valid()
    ensures length == HeadLength(q.Items())
  {
    var ok, e1, len1, len2 := q.PeekCQueue(DATA_LEN_BYTES);
    var bytes := if ok then q.base[e1..e1 + len1] + q.base[..len2] else [0, 0];
    assert ok ==> bytes == q.Items()[..2];
    length := FromLe16(bytes[0], bytes[1]);
  }

  method Pop(q: CQueue, n: nat) returns (buff: seq<byte>)
    requires q.Valid()
    modifies q, q.base
    ensures q.Valid() && (buff, q.Items()) == Popped(old(q.Items()), n)
  {
    hide Slice;
    var dropped := q.DeCQueue(null, DATA_LEN_BYTES);
    ghost var body := q.Items();
    var ok, e1, len1, len2 := q.PeekCQueue(n);
    if ok {
      buff := q.base[e1..e1 + len1] + q.base[..len2];
      var _ := q.DeCQueue(null, n);
      Wipe(q, e1, len1, len2);
    } else {
      buff := seq(n, _ => 0);
    }
  }

  /** Clears the bytes just popped; the pending ones lie elsewhere. */
  method Wipe(q: CQueue, e1: nat, len1: nat, len2: nat)
    requires q.Valid()
    requires e1 + len1 <= q.size && len1 + len2 + q.len <= q.size
    requires len2 > 0 ==> e1 + len1 == q.size && len2 <= e1
    requires q.size > 0 ==> e1 < q.size && q.read == Wrap(q.size, e1 + len1 + len2)
    modifies q.base
    ensures q.Valid() && q.Items() == old(q.Items())
  {
    forall i | 0 <= i < len1 {
      q.base[e1 + i] := 0;
    }
    forall i | 0 <= i < len2 {
      q.base[i] := 0;
    }
    if q.size > 0 {
      SliceDepends(old(q.base[..]), q.base[..], q.read, q.len);
    }
  }

  // ---- The queue as a list of messages ----

  /** The messages a queue can carry: at least one byte, length in 16 bits. */
  ghost predicate Messages(ms: seq<seq<byte>>) {
    forall m | m in ms :: 0 < |m| < 65536
  }

  /** A push either refuses and changes nothing, or adds one whole message. */
  lemma {:induction false} PushAddsMessage(ms: seq<seq<byte>>, size: nat, data: seq<byte>)
    requires |data| < 65536
    ensures Pushed(Frame(ms), size, data) ==
            if 0 < |data| && |Frame(ms)| + 2 + |data| <= size then (0, Frame(ms + [data])) else (-1, Frame(ms))
  {
    FrameSnoc(ms, data);
  }

  /** The room check and the stored length see only the low 16 bits: what an accepted push leaves behind
      the pending messages reads back as the message pushed if and only if that has fewer than 65536
      bytes, whatever the size of the queue. */
  lemma {:induction false} PushKeepsFramingIff(ms: seq<seq<byte>>, size: nat, data: seq<byte>)
    requires Pushed(Frame(ms), size, data).0 == 0
    ensures var items := Pushed(Frame(ms), size, data).1;
            && Frame(ms) <= items
            && var entry := items[|Frame(ms)|..];
               Popped(entry, HeadLength(entry)) == (data, []) <==> |data| < 65536
  {
    hide Frame, Le16, FromLe16;
    Le16RoundTrip(|data|);
    var items := Pushed(Frame(ms), size, data).1;
    var entry := items[|Frame(ms)|..];
    if items == Frame(ms) + Framed(data) {
      assert entry == Le16(|data|) + data && entry[2..] == data;
    } else {
      assert entry == Le16(|data|) && |data| >= 65536;
    }
    var h := HeadLength(entry);
    assert h == |data| % 65536 && |Popped(entry, h).0| == h;
    if |data| < 65536 {
      assert data[..h] == data && data[h..] == [];
    }
  }

  lemma OversizedPushWitness()
    ensures var data := seq(65537, i => 7 as byte);
            Pushed([], 2048, data) == (0, [1, 0])
  {
    assert Le16(65537) == [1, 0] && [] + Le16(65537) == [1, 0];
  }

  /** Reading the length and popping that many bytes returns the oldest message unchanged. */
  lemma {:induction false} PopTakesOldest(ms: seq<seq<byte>>)
    requires Messages(ms) && ms != []
    ensures Frame(ms) != [] && HeadLength(Frame(ms)) == |ms[0]|
    ensures Popped(Frame(ms), |ms[0]|) == (ms[0], Frame(ms[1..]))
  {
    FramedHead(ms[0], Frame(ms[1..]));
    var s := Frame(ms);
    assert s[2..][..|ms[0]|] == s[2..2 + |ms[0]|];
    assert s[2..][|ms[0]|..] == s[2 + |ms[0]|..];
  }

  /** A pop of more than is queued behind the length drops the length and returns zeros. */
  lemma PopOfTooMany(items: seq<byte>, n: nat)
    requires DATA_LEN_BYTES <= |items| < n + DATA_LEN_BYTES
    ensures var (buff, rest) := Popped(items, n);
      |buff| == n && (forall i | 0 <= i < n :: buff[i] == 0) && rest == items[DATA_LEN_BYTES..]
  {
  }

  // ---- Runs ----

  datatype Op = DoPush(data: seq<byte>) | DoPop

  /** Bytes in the queue, and what was accepted and returned so far. */
  datatype History = History(items: seq<byte>, accepted: seq<seq<byte>>, returned: seq<seq<byte>>)

  /** One call on the queue; a pop is length-then-pop and is skipped on an empty queue, as both
      worker threads do. */
  function Apply(size: nat, h: History, op: Op): History {
    match op
    case DoPush(data) =>
      var (ret, items) := Pushed(h.items, size, data);
      h.(items := items, accepted := if ret == 0 then h.accepted + [data] else h.accepted)
    case DoPop =>
      if HeadLength(h.items) == 0 then h
      else
        var (buff, items) := Popped(h.items, HeadLength(h.items));
        h.(items := items, returned := h.returned + [buff])
  }

  function Run(size: nat, h: History, ops: seq<Op>): History
    decreases |ops|
  {
    if ops == [] then h else Run(size, Apply(size, h, ops[0]), ops[1..])
  }

  /** Accepted but not yet returned. */
  ghost function Pending(h: History): seq<seq<byte>>
    requires |h.returned| <= |h.accepted|
  {
    h.accepted[|h.returned|..]
  }

  ghost predicate Fifo(h: History) {
    && h.returned <= h.accepted
    && Messages(Pending(h))
    && h.items == Frame(Pending(h))
  }

  lemma PushKeepsFifo(size: nat, h: History, data: seq<byte>)
    requires Fifo(h) && |data| < 65536
    ensures Fifo(Apply(size, h, DoPush(data)))
  {
    hide Frame, Framed, Pushed;
    PushAddsMessage(Pending(h), size, data);
    assert (h.accepted + [data])[|h.returned|..] == Pending(h) + [data];
  }

  lemma PopKeepsFifo(size: nat, h: History)
    requires Fifo(h)
    ensures Fifo(Apply(size, h, DoPop))
  {
    var pending := Pending(h);
    if pending == [] {
      assert h.items == [];
    } else {
      hide Frame, Framed, HeadLength, Popped;
      PopTakesOldest(pending);
      assert pending[0] in pending;
      assert h.accepted[|h.returned| + 1..] == pending[1..];
    }
  }

  /** A push is accepted if and only if it holds something and there is room for it with its length; a pop
      returns the oldest message whenever one is queued. */
  lemma OpsTakeEffect(size: nat, h: History, data: seq<byte>)
    requires Fifo(h) && |data| < 65536
    ensures Apply(size, h, DoPush(data)).accepted
         == if data != [] && |h.items| + 2 + |data| <= size then h.accepted + [data] else h.accepted
    ensures Apply(size, h, DoPop).returned
         == if h.returned != h.accepted then h.returned + [h.accepted[|h.returned|]] else h.returned
  {
    PushTakesEffect(size, h, data);
    PopTakesEffect(size, h);
    hide Apply, Fifo;
  }

  lemma PushTakesEffect(size: nat, h: History, data: seq<byte>)
    requires Fifo(h) && |data| < 65536
    ensures Apply(size, h, DoPush(data)).accepted
         == if data != [] && |h.items| + 2 + |data| <= size then h.accepted + [data] else h.accepted
  {
    hide Frame, Framed, Le16, Fifo;
  }

  lemma PopTakesEffect(size: nat, h: History)
    requires Fifo(h)
    ensures Apply(size, h, DoPop).returned
         == if h.returned != h.accepted then h.returned + [h.accepted[|h.returned|]] else h.returned
  {
    var pending := Pending(h);
    if pending == [] {
      assert h.items == [];
    } else {
      assert pending[0] in pending;
      PopTakesOldest(pending);
      hide Frame, Framed, Popped, HeadLength;
    }
  }

  /** Over any run of pushes and pops the returned messages are, unchanged and in order, a prefix of
      the accepted ones, and the queue is exactly the framing of the rest. */
  lemma {:induction false} RunIsFifo(size: nat, h: History, ops: seq<Op>)
    requires Fifo(h)
    requires forall op | op in ops && op.DoPush? :: |op.data| < 65536
    ensures Fifo(Run(size, h, ops))
    decreases |ops|
  {
    if ops == [] {
    } else {
      assert ops[0] in ops;
      match ops[0] {
        case DoPush(data) => PushKeepsFifo(size, h, data);
        case DoPop => PopKeepsFifo(size, h);
      }
      hide Apply, Fifo;
      RunIsFifo(size, Apply(size, h, ops[0]), ops[1..]);
    }
  }
}
