/** The element-by-element copies of the source: `memcpy`, and the copy loops on sample buffers. */
module Copies {

  /** `copy(buf, buf + shift, len)`: an overlapping copy towards the start, in ascending order. */
  method ShiftDown<T>(buf: array<T>, shift: nat, len: nat)
    requires shift + len <= buf.Length
    modifies buf
    ensures var was := old(buf[..]); buf[..] == was[shift..shift + len] + was[len..]
  {
    for i := 0 to len
      invariant forall k | 0 <= k < i :: buf[k] == old(buf[shift + k])
      invariant forall k | i <= k < buf.Length :: buf[k] == old(buf[k])
    {
      buf[i] := buf[i + shift];
    }
  }

  /** `copy(dst + at, src, len)` between two buffers. */
  method CopyInto<T>(dst: array<T>, at: nat, src: seq<T>)
    requires at + |src| <= dst.Length
    modifies dst
    ensures var was := old(dst[..]); dst[..] == was[..at] + src + was[at + |src|..]
  {
    for i := 0 to |src|
      invariant forall k | 0 <= k < dst.Length ::
          dst[k] == if at <= k < at + i then src[k - at] else old(dst[k])
    {
      dst[at + i] := src[i];
    }
  }
}
