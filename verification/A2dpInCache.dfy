/** The encoded-data ring between the MCU and the co-processor in `apps/audioplayers/a2dpplay.cpp`,
    run without interference. `A2dpPipeline` interleaves the same steps. */
module A2dpInCache {
  import opened Bytes
  import opened Rings
  import opened CQueues

  const CP_IN_SIZE := 1024 * 10
  const AAC_LEN_LIMIT := 2048

  /** `cp_get_in_cache_data_len`. */
  function DataLen(wpos: nat, rpos: nat): int {
    if wpos >= rpos then wpos - rpos else CP_IN_SIZE - rpos + wpos
  }

  /** Room for the MCU; one cell always stays open. */
  function FreeLen(wpos: nat, rpos: nat): int {
    if wpos < rpos then rpos - wpos - 1 else CP_IN_SIZE - wpos + rpos - 1
  }

  /** `cp_update_in_cache_pos`. */
  function UpdatePos(pos: nat, len: nat): nat {
    Wrap(CP_IN_SIZE, pos + len)
  }

  /** Buckets the decoder is told to read, by packet length. */
  function MaxReadBytes(aacLen: nat): nat {
    if aacLen < 64 then 64
    else if aacLen < 128 then 128
    else if aacLen < 256 then 256
    else if aacLen < 512 then 512
    else if aacLen < 1024 then 1024
    else 2048
  }

  /** Return codes of `cp_load_aac_frame`: 1 and 3 mean "not enough data yet", 2 a bad header. */
  datatype Load = Load(ret: int, packet: seq<byte>)

  /** What a load makes of the readable bytes. */
  function Parse(content: seq<byte>): Load {
    if |content| < 2 then Load(1, [])
    else
      var aacLen := FromLe16(content[0], content[1]);
      if aacLen >= AAC_LEN_LIMIT then Load(2, [])
      else if |content| < 2 + aacLen then Load(3, [])
      else Load(0, content[2..2 + aacLen])
  }

  lemma RingRoom(wpos: nat, rpos: nat)
    requires wpos < CP_IN_SIZE && rpos < CP_IN_SIZE
    ensures DataLen(wpos, rpos) >= 0 && FreeLen(wpos, rpos) >= 0
    ensures DataLen(wpos, rpos) + FreeLen(wpos, rpos) == CP_IN_SIZE - 1
    ensures wpos == UpdatePos(rpos, DataLen(wpos, rpos))
    ensures DataLen(wpos, rpos) == 0 <==> wpos == rpos
  {
  }

  /** Moving the writer by `n` free cells adds `n`, moving the reader by `n` used ones removes `n`. */
  lemma RingMoves(wpos: nat, rpos: nat, n: nat)
    requires wpos < CP_IN_SIZE && rpos < CP_IN_SIZE
    ensures n <= FreeLen(wpos, rpos) ==> DataLen(UpdatePos(wpos, n), rpos) == DataLen(wpos, rpos) + n
    ensures n <= DataLen(wpos, rpos) ==> DataLen(wpos, UpdatePos(rpos, n)) == DataLen(wpos, rpos) - n
  {
  }

  class InCache {
    const cache: array<byte>
    var wpos: nat
    var rpos: nat

    ghost predicate Valid()
      reads this
    {
      cache.Length == CP_IN_SIZE && wpos < CP_IN_SIZE && rpos < CP_IN_SIZE
    }

    /** The bytes published by the MCU and not yet consumed. */
    ghost function Contents(): seq<byte>
      requires Valid()
      reads this, cache
    {
      Slice(cache[..], rpos, DataLen(wpos, rpos))
    }

    constructor ()
      ensures Valid() && Contents() == [] && fresh(cache)
    {
      cache := new byte[CP_IN_SIZE](_ => 0);
      wpos, rpos := 0, 0;
    }

    /** A segment copied in one run of at most `room` bytes and, if any is left, a second one. */
    method PutClipped(at: nat, data: seq<byte>, room: nat) returns (next: nat)
      requires Valid() && at < CP_IN_SIZE && |data| < CP_IN_SIZE
      requires at + room <= CP_IN_SIZE && (room < |data| ==> UpdatePos(at, room) + |data| - room <= CP_IN_SIZE)
      modifies cache
      ensures cache[..] == Store(old(cache[..]), at, data)
      ensures next == UpdatePos(at, |data|)
    {
      hide Store;
      ghost var was := cache[..];
      var n := if room > |data| then |data| else room;
      PutRun(cache, at, data[..n]);
      next := UpdatePos(at, n);
      if n < |data| {
        PutRun(cache, next, data[n..]);
        next := UpdatePos(next, |data| - n);
        StoreTwice(was, at, data[..n], data[n..]);
      }
      assert data == data[..n] + data[n..] && (n == |data| ==> data[..n] == data);
    }

    /** The two-segment copy: whatever the split and wherever the end of the ring falls, the segments
        land one after the other behind `inWpos`. */
    method CopySegments(inWpos: nat, inRpos: nat, e1: seq<byte>, e2: seq<byte>) returns (next: nat)
      requires Valid() && inWpos < CP_IN_SIZE && inRpos < CP_IN_SIZE
      requires |e1| + |e2| <= FreeLen(inWpos, inRpos)
      modifies cache
      ensures cache[..] == Store(old(cache[..]), inWpos, e1 + e2)
      ensures next == UpdatePos(inWpos, |e1| + |e2|)
    {
      hide Store;
      ghost var was := cache[..];
      next := inWpos;
      if inWpos < inRpos {
        if |e1| > 0 {
          PutRun(cache, next, e1);
          next := next + |e1|;
        }
        if |e2| > 0 {
          PutRun(cache, next, e2);
          next := next + |e2|;
        }
      } else {
        var freeLen := CP_IN_SIZE - inWpos;
        if |e1| > 0 {
          next := PutClipped(next, e1, freeLen);
          if next < inRpos {
            freeLen := inRpos - next - 1;
          } else {
            freeLen := CP_IN_SIZE - next;
          }
        }
        if |e2| > 0 {
          next := PutClipped(next, e2, freeLen);
        }
      }
      StoreTwice(was, inWpos, e1, e2);
      StoreNothing(was, inWpos);
      assert (|e1| == 0 ==> e1 == []) && (|e2| == 0 ==> e2 == []);
      StoreNothing(cache[..], UpdatePos(inWpos, |e1|));
    }

    /** `mcu_load_a2dp_encoded_data`: moves as much of the queue as fits, in order. */
    method McuLoad(sbcQueue: CQueue) returns (ret: int)
      requires Valid() && sbcQueue.Valid() && sbcQueue.base != cache
      modifies this, cache, sbcQueue
      ensures Valid() && sbcQueue.Valid() && ret == 0 && rpos == old(rpos)
      ensures var items := old(sbcQueue.Items());
              var room := FreeLen(old(wpos), old(rpos));
              var n := if |items| > room then room else |items|;
              && Contents() == old(Contents()) + items[..n]
              && sbcQueue.Items() == items[n..]
    {
      hide Slice, Store;
      var inWpos, inRpos := wpos, rpos;
      RingRoom(wpos, rpos);
      var freeLen := FreeLen(inWpos, inRpos);
      if freeLen == 0 {
        return 0;
      }
      var size := sbcQueue.LengthOfCQueue();
      if size > freeLen {
        size := freeLen;
      }
      var ok, at, len1, len2 := sbcQueue.PeekCQueue(size);
      if !ok {
        return 1;
      }
      ghost var was, items := cache[..], sbcQueue.Items();
      inWpos := CopySegments(inWpos, inRpos, sbcQueue.base[at..at + len1], sbcQueue.base[..len2]);
      assert sbcQueue.Items() == items;
      TransferExtends(was, wpos, rpos, items[..size]);
      wpos := inWpos;
      var _ := sbcQueue.DeCQueue(null, size);
      return 0;
    }

    /** `cp_get_in_cache_data`: reads across the end of the ring. */
    method GetData(len: nat, inWpos: nat, inRpos: nat) returns (data: seq<byte>)
      requires Valid() && inWpos < CP_IN_SIZE && inRpos < CP_IN_SIZE && len <= DataLen(inWpos, inRpos)
      ensures data == Slice(cache[..], inRpos, len)
    {
      if inWpos > inRpos || CP_IN_SIZE >= inRpos + len {
        data := cache[inRpos..inRpos + len];
      } else {
        var copyLen := CP_IN_SIZE - inRpos;
        data := cache[inRpos..] + cache[..len - copyLen];
      }
    }

    /** `cp_load_aac_frame`. `packet` is the used part of the input buffer, `maxRead` the length the
        decoder is given. */
    method LoadAacFrame() returns (ret: int, packet: seq<byte>, maxRead: nat)
      requires Valid()
      modifies this
      ensures Valid() && wpos == old(wpos)
      ensures Load(ret, packet) == Parse(old(Contents()))
      ensures Contents() == if ret == 0 then old(Contents())[2 + |packet|..] else old(Contents())
      ensures ret == 0 ==> |packet| <= maxRead <= AAC_LEN_LIMIT && maxRead == MaxReadBytes(|packet|)
    {
      hide Slice;
      packet, maxRead := [], 0;
      var inRpos, inWpos := rpos, wpos;
      RingRoom(wpos, rpos);
      var len := DataLen(inWpos, inRpos);
      if len < 2 {
        return 1, packet, maxRead;
      }
      HeaderBytes(cache[..], inRpos, len);
      var aacLen := FromLe16(cache[inRpos],
        if inWpos > inRpos || CP_IN_SIZE >= inRpos + 2 then cache[inRpos + 1] else cache[0]);
      inRpos := UpdatePos(inRpos, 2);
      if aacLen >= AAC_LEN_LIMIT {
        return 2, packet, maxRead;
      }
      if len < 2 + aacLen {
        return 3, packet, maxRead;
      }
      ConsumeSplits(cache[..], wpos, rpos, aacLen);
      packet := GetData(aacLen, inWpos, inRpos);
      inRpos := UpdatePos(inRpos, aacLen);
      rpos := inRpos;
      return 0, packet, MaxReadBytes(aacLen);
    }
  }

  lemma StoreNothing(buf: seq<byte>, at: nat)
    requires at <= |buf|
    ensures Store(buf, at, []) == buf
  {
  }

  /** The free cells lie behind the used ones, so a transfer extends the content. */
  lemma TransferExtends(buf: seq<byte>, wpos: nat, rpos: nat, data: seq<byte>)
    requires |buf| == CP_IN_SIZE && wpos < CP_IN_SIZE && rpos < CP_IN_SIZE
    requires |data| <= FreeLen(wpos, rpos)
    ensures var len := DataLen(wpos, rpos);
            && len >= 0 && DataLen(UpdatePos(wpos, |data|), rpos) == len + |data|
            && Slice(Store(buf, wpos, data), rpos, len + |data|) == Slice(buf, rpos, len) + data
  {
    hide Slice, Store;
    RingRoom(wpos, rpos);
    RingMoves(wpos, rpos, |data|);
    StoreExtends(buf, rpos, DataLen(wpos, rpos), data);
  }

  /** The two length bytes, which may lie on both sides of the end. */
  lemma HeaderBytes(buf: seq<byte>, rpos: nat, len: nat)
    requires |buf| == CP_IN_SIZE && rpos < CP_IN_SIZE && 2 <= len < CP_IN_SIZE
    ensures Slice(buf, rpos, len)[0] == buf[rpos]
    ensures Slice(buf, rpos, len)[1] == buf[UpdatePos(rpos, 1)]
  {
    SliceAt(buf, rpos, len, 0);
    SliceAt(buf, rpos, len, 1);
  }

  /** Reading header and packet off the front. */
  lemma ConsumeSplits(buf: seq<byte>, wpos: nat, rpos: nat, n: nat)
    requires |buf| == CP_IN_SIZE && wpos < CP_IN_SIZE && rpos < CP_IN_SIZE
    requires 2 + n <= DataLen(wpos, rpos)
    ensures var content := Slice(buf, rpos, DataLen(wpos, rpos));
            var body := UpdatePos(rpos, 2);
            var next := UpdatePos(body, n);
            && body < CP_IN_SIZE && next < CP_IN_SIZE && DataLen(wpos, body) == |content| - 2
            && DataLen(wpos, next) == |content| - 2 - n
            && Slice(buf, body, n) == content[2..2 + n]
            && Slice(buf, next, |content| - 2 - n) == content[2 + n..]
  {
    hide Slice;
    var len := DataLen(wpos, rpos);
    var body := UpdatePos(rpos, 2);
    RingRoom(wpos, rpos);
    RingMoves(wpos, rpos, 2);
    RingMoves(wpos, body, n);
    var content := Slice(buf, rpos, len);
    SliceDrop(buf, rpos, len, 2);
    SlicePrefix(buf, body, len - 2, n);
    SliceDrop(buf, body, len - 2, n);
    assert content[2..][..n] == content[2..2 + n] && content[2..][n..] == content[2 + n..];
  }

  /** The AAC branch of `store_sbc_buffer`: length and packet together, or nothing. */
  method StoreAac(sbcQueue: CQueue, buf: seq<byte>) returns (ok: bool)
    requires sbcQueue.Valid()
    modifies sbcQueue, sbcQueue.base
    ensures sbcQueue.Valid()
    ensures ok <==> |old(sbcQueue.Items())| + 2 + |buf| <= sbcQueue.size
    ensures sbcQueue.Items() == old(sbcQueue.Items()) + (if ok then Framed(buf) else [])
  {
    hide Le16, Slice;
    if sbcQueue.AvailableOfCQueue() >= |buf| + 2 {
      ghost var was := sbcQueue.Items();
      ok := sbcQueue.EnCQueue(Le16(|buf|));
      ok := sbcQueue.EnCQueue(buf);
      assert was + Le16(|buf|) + buf == was + Framed(buf);
    } else {
      ok := false;
    }
  }

  /** A load that has to wait never meets a full ring. */
  lemma RefusalLeavesRoom(wpos: nat, rpos: nat, content: seq<byte>)
    requires wpos < CP_IN_SIZE && rpos < CP_IN_SIZE && |content| == DataLen(wpos, rpos)
    requires Parse(content).ret == 1 || Parse(content).ret == 3
    ensures FreeLen(wpos, rpos) > 0
  {
    RingRoom(wpos, rpos);
  }

  /** On a framed stream a load yields the oldest packet, or waits until all of it is there; it reports a bad
      header exactly when it sees that of a packet too long for it. */
  lemma {:induction false} ParseFramed(content: seq<byte>, more: seq<byte>, packets: seq<seq<byte>>)
    requires packets != [] && |packets[0]| < 65536
    requires content + more == Frame(packets)
    ensures Parse(content).ret == 0 <==> |content| >= 2 + |packets[0]| && |packets[0]| < AAC_LEN_LIMIT
    ensures Parse(content).ret == 2 <==> |content| >= 2 && |packets[0]| >= AAC_LEN_LIMIT
    ensures Parse(content).ret == 1 <==> |content| < 2
    ensures Parse(content).ret in {0, 1, 2, 3}
    ensures Parse(content).ret == 0 ==>
              Parse(content).packet == packets[0] && content[2 + |packets[0]|..] + more == Frame(packets[1..])
  {
    hide Le16, FromLe16;
    var p := packets[0];
    var s := Frame(packets);
    FramedHead(p, Frame(packets[1..]));
    if |content| >= 2 {
      assert content[0] == s[0] && content[1] == s[1];
      if |content| >= 2 + |p| {
        PrefixSlices(content, more, 2, 2 + |p|);
      }
    }
    hide Frame;
  }

  /** The decoder is told to read the least of the six sizes that exceeds the packet. */
  lemma MaxReadIsLeast(aacLen: nat, other: nat)
    requires aacLen < AAC_LEN_LIMIT && other in {64, 128, 256, 512, 1024, 2048}
    ensures MaxReadBytes(aacLen) in {64, 128, 256, 512, 1024, 2048}
    ensures aacLen < other <==> MaxReadBytes(aacLen) <= other
  {
  }

  lemma PrefixSlices(a: seq<byte>, b: seq<byte>, i: nat, j: nat)
    requires i <= j <= |a|
    ensures (a + b)[i..j] == a[i..j] && (a + b)[j..] == a[j..] + b
  {
  }
}
