/** Bytes, 16-bit little-endian lengths, and the length-prefixed framing that both the AAC byte
    stream and the RPC queues use. */
module Bytes {

  type byte = x: int | 0 <= x < 256

  /** The two bytes a little-endian core stores for a `uint16_t`. */
  function Le16(n: nat): (bs: seq<byte>)
    ensures |bs| == 2
  {
    [n % 256, n % 65536 / 256]
  }

  function FromLe16(lo: byte, hi: byte): nat {
    lo + 256 * hi
  }

  lemma Le16RoundTrip(n: nat)
    ensures FromLe16(Le16(n)[0], Le16(n)[1]) == n % 65536
    ensures Le16(n % 65536) == Le16(n)
  {
    var k, r := n / 65536, n % 65536;
    assert n == 256 * (256 * k + r / 256) + r % 256;
    assert n / 256 == 256 * k + r / 256;
    assert r % 65536 == r;
  }

  /** One packet on the wire: its length, then its bytes. */
  function Framed(p: seq<byte>): seq<byte> {
    Le16(|p|) + p
  }

  /** The byte stream that carries a sequence of packets. */
  function Frame(ps: seq<seq<byte>>): seq<byte> {
    if ps == [] then [] else Framed(ps[0]) + Frame(ps[1..])
  }

  lemma {:induction false} FrameSnoc(ps: seq<seq<byte>>, p: seq<byte>)
    ensures Frame(ps + [p]) == Frame(ps) + Framed(p)
  {
    if ps == [] {
      assert [p][1..] == [];
      assert Frame([p]) == Framed(p) + Frame([]);
    } else {
      assert (ps + [p])[1..] == ps[1..] + [p];
      FrameSnoc(ps[1..], p);
    }
  }

  /** What a reader finds at the head of a framed stream. */
  lemma FramedHead(p: seq<byte>, rest: seq<byte>)
    requires |p| < 65536
    ensures var s := Framed(p) + rest;
            FromLe16(s[0], s[1]) == |p| && s[2..2 + |p|] == p && s[2 + |p|..] == rest
  {
    hide Le16, FromLe16;
    Le16RoundTrip(|p|);
    var s := Framed(p) + rest;
    assert s[0] == Le16(|p|)[0] && s[1] == Le16(|p|)[1];
    assert s[2..] == p + rest;
    assert s[2..2 + |p|] == s[2..][..|p|] && s[2 + |p|..] == s[2..][|p|..];
  }
}
