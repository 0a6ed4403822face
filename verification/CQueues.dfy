/** The byte queue of `utils/cqueue/cqueue.c`: a circular buffer with read and write offsets. */
module CQueues {
  import opened Bytes
  import opened Copies
  import opened Rings

  /** `memcpy` of a run that stays below the end. */
  method PutRun<T>(dst: array<T>, at: nat, src: seq<T>)
    requires at + |src| <= dst.Length
    modifies dst
    ensures dst[..] == Store(old(dst[..]), at, src)
  {
    hide Store;
    ghost var was := dst[..];
    CopyInto(dst, at, src);
    StoreFlat(was, at, src);
  }

  /** The copy of `EnCQueue`: one stretch, or one up to the end and one from the start. */
  method StoreAround(base: array<byte>, write: nat, e: seq<byte>) returns (next: nat)
    requires |e| <= base.Length
    requires write < base.Length || (base.Length == 0 && write == 0)
    modifies base
    ensures base[..] == Store(old(base[..]), write, e)
    ensures next == Wrap(base.Length, write + |e|)
  {
    hide Store;
    ghost var was := base[..];
    var bytesToTheEnd := base.Length - write;
    if bytesToTheEnd > |e| {
      PutRun(base, write, e);
      next := write + |e|;
    } else {
      var e1, e2 := e[..bytesToTheEnd], e[bytesToTheEnd..];
      PutRun(base, write, e1);
      PutRun(base, 0, e2);
      if base.Length > 0 {
        StoreTwice(was, write, e1, e2);
      }
      assert e1 + e2 == e;
      next := |e| - bytesToTheEnd;
    }
  }

  class CQueue {
    var read: nat
    var write: nat
    var len: nat
    const size: nat
    const base: array<byte>

    ghost predicate Valid()
      reads this, base
    {
      && base.Length == size
      && len <= size
      && (size == 0 ==> read == 0 && write == 0)
      && (size > 0 ==> read < size && write == Wrap(size, read + len))
    }

    /** The queued bytes, oldest first. */
    ghost function Items(): (s: seq<byte>)
      requires Valid()
      reads this, base
      ensures |s| == len
    {
      Slice(base[..], read, len)
    }

    constructor (size: nat, buf: array<byte>)
      requires buf.Length == size
      ensures Valid() && Items() == [] && this.size == size && base == buf
    {
      this.size := size;
      base := buf;
      read, write, len := 0, 0, 0;
    }

    function LengthOfCQueue(): nat
      reads this
    {
      len
    }

    function AvailableOfCQueue(): int
      reads this
    {
      size - len
    }

    method EnCQueue(e: seq<byte>) returns (ok: bool)
      requires Valid()
      modifies this, base
      ensures Valid()
      ensures ok <==> old(len) + |e| <= size
      ensures Items() == if ok then old(Items()) + e else old(Items())
      ensures !ok ==> unchanged(this) && unchanged(base)
    {
      hide Slice, Store;
      if AvailableOfCQueue() < |e| {
        return false;
      }
      ghost var was := base[..];
      write := StoreAround(base, write, e);
      if size > 0 {
        StoreExtends(was, read, len, e);
      } else {
        assert Items() + e == [];
      }
      len := len + |e|;
      return true;
    }

    /** Drops the oldest `n` bytes, after copying them to `e` unless that is null. */
    method DeCQueue(e: array?<byte>, n: nat) returns (ok: bool)
      requires Valid() && e != base
      requires e != null ==> n <= e.Length
      modifies this, e
      ensures Valid()
      ensures ok <==> n <= old(len)
      ensures Items() == if ok then old(Items())[n..] else old(Items())
      ensures ok && e != null ==> e[..n] == old(Items())[..n] && e[n..] == old(e[n..])
      ensures ok && size > 0 ==> read == Wrap(size, old(read) + n)
      ensures !ok ==> unchanged(this) && (e != null ==> unchanged(e))
    {
      hide Slice;
      if LengthOfCQueue() < n {
        return false;
      }
      if size > 0 {
        SliceDrop(base[..], read, len, n);
        ModIsWrap(read + n, size);
      } else {
        assert Items()[n..] == Items();
      }
      if e != null {
        read := TakeOldest(e, n);
      } else if 0 < size {
        read := (read + n) % size;
      } else {
        read := 0;
      }
      len := len - n;
      return true;
    }

    /** The copy of `DeCQueue`: one stretch, or one up to the end and one from the start. */
    method TakeOldest(e: array<byte>, n: nat) returns (next: nat)
      requires Valid() && e != base && n <= len && n <= e.Length
      modifies e
      ensures e[..n] == Items()[..n] && e[n..] == old(e[n..])
      ensures next == if size == 0 then 0 else Wrap(size, read + n)
    {
      ghost var was, items := e[..], Items();
      SlicePrefix(base[..], read, len, n);
      assert items[..n] == Slice(base[..], read, n);
      hide Slice, Items;
      var bytesToTheEnd := size - read;
      if bytesToTheEnd > n {
        SliceFlat(base[..], read, n);
        var oldest := base[read..read + n];
        CopyInto(e, 0, oldest);
        OneCopy(was, e[..], oldest);
        next := read + n;
      } else {
        SliceWrapped(base[..], read, n);
        var e1, e2 := base[read..], base[..n - bytesToTheEnd];
        CopyInto(e, 0, e1);
        ghost var mid := e[..];
        CopyInto(e, bytesToTheEnd, e2);
        TwoCopies(was, mid, e[..], e1, e2);
        next := n - bytesToTheEnd;
      }
      assert Items() == items;
    }

    /** The oldest `want` bytes as at most two segments of `base`: `len1` bytes from `e1`, then `len2`
        bytes from the start. */
    method PeekCQueue(want: nat) returns (ok: bool, e1: nat, len1: nat, len2: nat)
      requires Valid()
      ensures ok <==> want <= len
      ensures !ok ==> len1 == 0 && len2 == 0
      ensures ok ==> len1 + len2 == want && e1 == read && e1 + len1 <= size && len2 <= size
      ensures ok ==> base[e1..e1 + len1] + base[..len2] == Items()[..want]
      ensures ok && len2 > 0 ==> e1 + len1 == size && len2 <= e1
    {
      hide Slice;
      if LengthOfCQueue() < want {
        return false, 0, 0, 0;
      }
      SlicePrefix(base[..], read, len, want);
      e1 := read;
      if write > read || size - read >= want {
        SliceFlat(base[..], read, want);
        return true, e1, want, 0;
      } else {
        SliceWrapped(base[..], read, want);
        return true, e1, size - read, want - (size - read);
      }
    }
  }

  lemma OneCopy<T>(was: seq<T>, end: seq<T>, a: seq<T>)
    requires |a| <= |was| && end == was[..0] + a + was[|a|..]
    ensures end[..|a|] == a && end[|a|..] == was[|a|..]
  {
    assert end == a + was[|a|..];
  }

  lemma TwoCopies<T>(was: seq<T>, mid: seq<T>, end: seq<T>, a: seq<T>, b: seq<T>)
    requires |a| + |b| <= |was| && mid == was[..0] + a + was[|a|..] && end == mid[..|a|] + b + mid[|a| + |b|..]
    ensures end[..|a| + |b|] == a + b && end[|a| + |b|..] == was[|a| + |b|..]
  {
    assert mid == a + was[|a|..];
    assert end == a + b + was[|a| + |b|..];
  }

  lemma MulMonotone(a: int, b: int, c: nat)
    requires a <= b
    ensures a * c <= b * c
  {
  }

  lemma ModIsWrap(p: nat, size: nat)
    requires 0 < size && p < 2 * size
    ensures p % size == Wrap(size, p)
  {
    var q := p / size;
    assert p == q * size + p % size;
    MulMonotone(if q < 1 then q else 1, 1, size);
    assert q < 2 by {
      if q >= 2 {
        MulMonotone(2, q, size);
        assert false;
      }
    }
    assert q == 0 || q == 1;
  }
}
