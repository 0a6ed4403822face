/** Circular buffers as sequences: what a run of cells that may pass the end of the buffer holds,
    and what writing such a run leaves. */
module Rings {

  /** A position that has moved forward by less than one turn. */
  function Wrap(size: nat, pos: nat): nat {
    if pos < size then pos else pos - size
  }

  /** The `len` cells that start at `start`, going round the end. */
  function Slice<T>(buf: seq<T>, start: nat, len: nat): (s: seq<T>)
    requires start <= |buf| && len <= |buf|
    ensures |s| == len
  {
    if start + len <= |buf| then buf[start..start + len]
    else buf[start..] + buf[..start + len - |buf|]
  }

  /** How far cell `k` lies after `start`. */
  function Offset(size: nat, start: nat, k: nat): nat
    requires start <= size && k < size
  {
    if k >= start then k - start else k + size - start
  }

  /** The buffer after `data` was stored from `start` on, going round the end. */
  function Store<T>(buf: seq<T>, start: nat, data: seq<T>): (r: seq<T>)
    requires start <= |buf| && |data| <= |buf|
    ensures |r| == |buf|
  {
    seq(|buf|, k requires 0 <= k < |buf| =>
      if Offset(|buf|, start, k) < |data| then data[Offset(|buf|, start, k)] else buf[k])
  }

  lemma SliceAt<T>(buf: seq<T>, start: nat, len: nat, i: nat)
    requires start < |buf| && len <= |buf| && i < len
    ensures Wrap(|buf|, start + i) < |buf| && Slice(buf, start, len)[i] == buf[Wrap(|buf|, start + i)]
  {
  }

  /** A slice is a shorter slice followed by the slice that starts where that one ends. */
  lemma SliceSplit<T>(buf: seq<T>, start: nat, a: nat, b: nat)
    requires start < |buf| && a + b <= |buf|
    ensures Slice(buf, start, a + b) == Slice(buf, start, a) + Slice(buf, Wrap(|buf|, start + a), b)
  {
    hide Slice;
    var whole := Slice(buf, start, a + b);
    var parts := Slice(buf, start, a) + Slice(buf, Wrap(|buf|, start + a), b);
    forall i | 0 <= i < a + b
      ensures whole[i] == parts[i]
    {
      SliceAt(buf, start, a + b, i);
      if i < a {
        SliceAt(buf, start, a, i);
      } else {
        SliceAt(buf, Wrap(|buf|, start + a), b, i - a);
      }
    }
  }

  /** Storing behind a slice extends it; the free room keeps the old content apart. */
  lemma StoreExtends<T>(buf: seq<T>, start: nat, len: nat, data: seq<T>)
    requires start < |buf| && len + |data| <= |buf|
    ensures Slice(Store(buf, Wrap(|buf|, start + len), data), start, len + |data|) == Slice(buf, start, len) + data
  {
    hide Slice;
    var pos := Wrap(|buf|, start + len);
    var r := Store(buf, pos, data);
    var s := Slice(r, start, len + |data|);
    var t := Slice(buf, start, len) + data;
    forall i | 0 <= i < |t|
      ensures s[i] == t[i]
    {
      SliceAt(r, start, len + |data|, i);
      if i < len {
        SliceAt(buf, start, len, i);
      }
    }
  }

  /** A slice depends on nothing but its own cells. */
  lemma SliceDepends<T>(buf: seq<T>, buf': seq<T>, start: nat, len: nat)
    requires |buf| == |buf'| && start < |buf| && len <= |buf|
    requires forall k | 0 <= k < |buf| && Offset(|buf|, start, k) < len :: buf[k] == buf'[k]
    ensures Slice(buf, start, len) == Slice(buf', start, len)
  {
    hide Slice;
    forall i | 0 <= i < len
      ensures Slice(buf, start, len)[i] == Slice(buf', start, len)[i]
    {
      SliceAt(buf, start, len, i);
      SliceAt(buf', start, len, i);
    }
  }

  /** Storing twice in a row is storing the concatenation. */
  lemma StoreTwice<T>(buf: seq<T>, start: nat, d1: seq<T>, d2: seq<T>)
    requires start < |buf| && |d1| + |d2| <= |buf|
    ensures Store(Store(buf, start, d1), Wrap(|buf|, start + |d1|), d2) == Store(buf, start, d1 + d2)
  {
  }

  /** Storing without reaching the end touches one stretch of the buffer. */
  lemma StoreFlat<T>(buf: seq<T>, start: nat, data: seq<T>)
    requires start + |data| <= |buf|
    ensures Store(buf, start, data) == buf[..start] + data + buf[start + |data|..]
  {
  }

  lemma SliceFlat<T>(buf: seq<T>, start: nat, len: nat)
    requires start + len <= |buf|
    ensures Slice(buf, start, len) == buf[start..start + len]
  {
  }

  lemma SliceWrapped<T>(buf: seq<T>, start: nat, len: nat)
    requires start <= |buf| <= start + len && len <= |buf|
    ensures Slice(buf, start, len) == buf[start..] + buf[..start + len - |buf|]
  {
  }

  lemma SlicePrefix<T>(buf: seq<T>, start: nat, len: nat, k: nat)
    requires start <= |buf| && len <= |buf| && k <= len
    ensures Slice(buf, start, k) == Slice(buf, start, len)[..k]
  {
  }

  lemma SliceDrop<T>(buf: seq<T>, start: nat, len: nat, k: nat)
    requires start < |buf| && len <= |buf| && k <= len
    ensures Slice(buf, Wrap(|buf|, start + k), len - k) == Slice(buf, start, len)[k..]
  {
    hide Slice;
    SliceSplit(buf, start, k, len - k);
    SlicePrefix(buf, start, len, k);
  }
}
