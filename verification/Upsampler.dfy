/** The polyphase FIR upsampler of `apps/audioplayers/upsampling_to_48k.cpp`. */
module Upsampler {
  import opened Copies

  type Short = x: int | -0x8000 <= x < 0x8000

  const COEF_NUM := 24
  const STATE_NUM := COEF_NUM - 1

  const COEF_8K: seq<seq<int>> := [
    [64, -311, 210, -320, 363, -407, 410, -356, 196, 191, -1369, 30721, 3861, -2265, 1680, -1321,
     1049, -823, 625, -471, 297, -327, 34, 19],
    [72, -254, 75, -117, 46, 58, -256, 583, -1141, 2197, -4866, 28131, 10285, -4611, 2935, -2061,
     1489, -1075, 755, -523, 310, -291, -19, 31],
    [65, -175, -73, 84, -245, 457, -786, 1276, -2040, 3377, -6428, 23348, 17094, -6200, 3592,
     -2347, 1588, -1073, 703, -447, 236, -203, -92, 49],
    [49, -92, -203, 236, -447, 703, -1073, 1588, -2347, 3592, -6200, 17094, 23348, -6428, 3377,
     -2040, 1276, -786, 457, -245, 84, -73, -175, 65],
    [31, -19, -291, 310, -523, 755, -1075, 1489, -2061, 2935, -4611, 10285, 28131, -4866, 2197,
     -1141, 583, -256, 58, 46, -117, 75, -254, 72],
    [19, 34, -327, 297, -471, 625, -823, 1049, -1321, 1680, -2265, 3861, 30721, -1369, 191, 196,
     -356, 410, -407, 363, -320, 210, -311, 64]
  ]

  const COEF_16K: seq<seq<int>> := [
    [1, -291, 248, -327, 383, -405, 362, -212, -129, 875, -2948, 29344, 7324, -3795, 2603, -1913,
     1418, -1031, 722, -478, 292, -220, -86, 16],
    [26, -212, 6, 45, -185, 414, -764, 1290, -2099, 3470, -6431, 20320, 20320, -6431, 3470, -2099,
     1290, -764, 414, -185, 45, 6, -212, 26],
    [16, -86, -220, 292, -478, 722, -1031, 1418, -1913, 2603, -3795, 7324, 29344, -2948, 875, -129,
     -212, 362, -405, 383, -327, 248, -291, 1]
  ]

  /** Ratios for which the table has enough rows. */
  predicate Supported(ratio: nat) {
    ratio == 6 || ratio <= 3
  }

  /** `us_get_coef_para` for one phase. */
  function Row(ratio: nat, phase: nat): (row: seq<int>)
    requires Supported(ratio) && phase < ratio
    ensures |row| == COEF_NUM
  {
    if ratio == 6 then COEF_8K[phase] else COEF_16K[phase]
  }

  /** A 32-bit two's complement register. */
  function Wrap32(x: int): int {
    (x + 0x8000_0000) % 0x1_0000_0000 - 0x8000_0000
  }

  /** Sum of the first `n` products. */
  function Dot(row: seq<int>, window: seq<int>, n: nat): int
    requires n <= |row| && n <= |window|
  {
    if n == 0 then 0 else Dot(row, window, n - 1) + window[n - 1] * row[n - 1]
  }

  /** One output sample: the product sum in 32 bits, its upper half as a short. */
  function Sample(row: seq<int>, window: seq<int>): (y: Short)
    requires |row| == |window| == COEF_NUM
  {
    Wrap32(Dot(row, window, COEF_NUM)) / 0x1_0000
  }

  /** All phases for one window. */
  function Phases(ratio: nat, window: seq<int>): (ys: seq<Short>)
    requires Supported(ratio) && |window| == COEF_NUM
    ensures |ys| == ratio
  {
    seq(ratio, p requires 0 <= p < ratio => Sample(Row(ratio, p), window))
  }

  /** The polyphase convolution of a stream: its first `n` windows. */
  function Conv(ratio: nat, stream: seq<int>, n: nat): (ys: seq<Short>)
    requires Supported(ratio) && n + STATE_NUM <= |stream|
  {
    if n == 0 then [] else Conv(ratio, stream, n - 1) + Phases(ratio, stream[n - 1..n + STATE_NUM])
  }

  function Last(stream: seq<int>): seq<int>
    requires |stream| >= STATE_NUM
  {
    stream[|stream| - STATE_NUM..]
  }

  class Fir {
    var ratio: nat
    const history: array<Short>

    ghost predicate Valid()
      reads this
    {
      Supported(ratio) && history.Length == STATE_NUM
    }

    /** `us_fir_init`. */
    constructor (ratio: nat)
      requires Supported(ratio)
      ensures Valid() && fresh(history) && this.ratio == ratio && history[..] == seq(STATE_NUM, _ => 0)
    {
      this.ratio := ratio;
      history := new Short[STATE_NUM](_ => 0);
    }

    /** The inner loop of `us_fir_run` for one output sample. */
    method Accumulate(src: array<Short>, inIdx: nat, phase: nat) returns (y: Short)
      requires Valid() && inIdx < src.Length && phase < ratio
      ensures y == Sample(Row(ratio, phase), (history[..] + src[..])[inIdx..inIdx + COEF_NUM])
    {
      ghost var stream := history[..] + src[..];
      ghost var window := stream[inIdx..inIdx + COEF_NUM];
      var row := Row(ratio, phase);
      hide Row, Wrap32, Dot;
      DotOfNone(row, window);
      var out := 0;
      for coefIdx := 0 to COEF_NUM
        invariant out == Wrap32(Dot(row, window, coefIdx))
      {
        var realIdx := coefIdx + inIdx;
        var para := if realIdx < STATE_NUM then history[realIdx] else src[realIdx - STATE_NUM];
        assert para == stream[realIdx] == window[coefIdx];
        WrapAdds(Dot(row, window, coefIdx), para * row[coefIdx]);
        DotOfNext(row, window, coefIdx);
        out := Wrap32(out + para * row[coefIdx]);
      }
      y := out / 0x1_0000;
    }

    /** All output samples for one input sample. */
    method RunPhases(src: array<Short>, dst: array<Short>, inIdx: nat, base: nat)
      requires Valid() && dst != src && dst != history && inIdx < src.Length && base + ratio <= dst.Length
      modifies dst
      ensures var window := old((history[..] + src[..])[inIdx..inIdx + COEF_NUM]);
              var was := old(dst[..]);
              dst[..] == was[..base] + Phases(ratio, window) + was[base + ratio..]
    {
      ghost var window, was := (history[..] + src[..])[inIdx..inIdx + COEF_NUM], dst[..];
      ghost var ys := Phases(ratio, window);
      hide Phases, Sample, Row, Supported;
      assert was == was[..base] + [] + was[base..];
      for phase := 0 to ratio
        invariant dst[..] == was[..base] + ys[..phase] + was[base + phase..]
      {
        assert history[..] == old(history[..]) && src[..] == old(src[..]);
        var y := Accumulate(src, inIdx, phase);
        PhaseAt(ratio, window, phase);
        ghost var before := dst[..];
        dst[base + phase] := y;
        assert dst[..] == before[base + phase := y];
        StoreNext(was, ys, base, phase);
      }
      assert ys[..ratio] == ys;
    }

    /** The end of `us_fir_run`: the last samples of state and input together become the state, also
        when the input is shorter than the state and the state is shifted in place. */
    method KeepHistory(src: array<Short>)
      requires Valid() && src != history
      modifies history
      ensures history[..] == Last(old(history[..] + src[..]))
    {
      var n := src.Length;
      ghost var was := history[..];
      if n >= STATE_NUM {
        CopyInto(history, 0, src[n - STATE_NUM..]);
      } else {
        var startIdx := STATE_NUM - n;
        ShiftDown(history, n, startIdx);
        ghost var mid := history[..];
        assert mid[..startIdx] == was[n..];
        CopyInto(history, startIdx, src[..]);
        assert history[..] == was[n..] + src[..];
      }
    }

    /** `us_fir_run`: the outputs are the convolution of the stored state followed by the input. */
    method Run(src: array<Short>, dst: array<Short>) returns (outNum: nat)
      requires Valid() && dst != src && dst != history && src != history
      requires dst.Length >= ratio * src.Length
      modifies dst, history
      ensures Valid() && outNum == ratio * src.Length
      ensures dst[..outNum] == Conv(ratio, old(history[..] + src[..]), src.Length)
      ensures dst[outNum..] == old(dst[..])[outNum..]
      ensures history[..] == Last(old(history[..] + src[..]))
    {
      hide Phases, Sample, Conv, Last;
      ghost var stream, was := history[..] + src[..], dst[..];
      ConvNone(ratio, stream);
      outNum := 0;
      for inIdx := 0 to src.Length
        modifies dst
        invariant outNum == ratio * inIdx && outNum <= dst.Length
        invariant dst[..outNum] == Conv(ratio, stream, inIdx)
        invariant dst[outNum..] == was[outNum..]
      {
        MulNext(ratio, inIdx, src.Length);
        assert history[..] + src[..] == stream;
        ghost var before, ys := dst[..], Phases(ratio, stream[inIdx..inIdx + COEF_NUM]);
        RunPhases(src, dst, inIdx, outNum);
        OneMore(before, dst[..], was, outNum, ratio, ys);
        ConvNext(ratio, stream, inIdx);
        outNum := outNum + ratio;
      }
      assert history[..] + src[..] == stream;
      KeepHistory(src);
    }
  }

  lemma MulNext(r: nat, i: nat, n: nat)
    requires i < n
    ensures r * i + r == r * (i + 1) <= r * n
  {
    MulMonotone(r, i + 1, n);
  }

  lemma OneMore<T>(before: seq<T>, after: seq<T>, was: seq<T>, n: nat, k: nat, ys: seq<T>)
    requires n + k <= |before| == |was| && |ys| == k && before[n..] == was[n..]
    requires after == before[..n] + ys + before[n + k..]
    ensures after[..n + k] == before[..n] + ys && after[n + k..] == was[n + k..]
  {
    assert before[n + k..] == before[n..][k..] && was[n + k..] == was[n..][k..];
  }

  lemma ConvNext(ratio: nat, stream: seq<int>, n: nat)
    requires Supported(ratio) && n + COEF_NUM <= |stream|
    ensures Conv(ratio, stream, n + 1) == Conv(ratio, stream, n) + Phases(ratio, stream[n..n + COEF_NUM])
  {
    hide Phases;
  }

  lemma PhaseAt(ratio: nat, window: seq<int>, phase: nat)
    requires Supported(ratio) && |window| == COEF_NUM && phase < ratio
    ensures Phases(ratio, window)[phase] == Sample(Row(ratio, phase), window)
  {
    hide Sample, Row;
  }

  lemma StoreNext<T>(was: seq<T>, ys: seq<T>, base: nat, n: nat)
    requires n < |ys| && base + |ys| <= |was|
    ensures (was[..base] + ys[..n] + was[base + n..])[base + n := ys[n]]
         == was[..base] + ys[..n + 1] + was[base + n + 1..]
  {
  }

  lemma DotOfNone(row: seq<int>, window: seq<int>)
    ensures Wrap32(Dot(row, window, 0)) == 0
  {
  }

  lemma DotOfNext(row: seq<int>, window: seq<int>, n: nat)
    requires n < |row| && n < |window|
    ensures Dot(row, window, n + 1) == Dot(row, window, n) + window[n] * row[n]
  {
  }

  lemma MulMonotone(r: nat, a: nat, b: nat)
    requires a <= b
    ensures r * a <= r * b
  {
  }

  lemma MulIfMonotone(r: nat, a: nat, b: nat)
    ensures a <= b ==> r * a <= r * b
  {
  }

  /** Wrapping at every step or once at the end is the same. */
  lemma WrapAdds(a: int, b: int)
    ensures Wrap32(Wrap32(a) + b) == Wrap32(a + b)
  {
  }

  // ---- Independence of the chunking ----

  /** What comes out of a sequence of calls, and the state they leave. */
  function RunCalls(ratio: nat, history: seq<int>, chunks: seq<seq<int>>): (r: (seq<Short>, seq<int>))
    requires Supported(ratio) && |history| == STATE_NUM
    decreases |chunks|
  {
    if chunks == [] then ([], history)
    else
      var stream := history + chunks[0];
      var (rest, last) := RunCalls(ratio, Last(stream), chunks[1..]);
      (Conv(ratio, stream, |chunks[0]|) + rest, last)
  }

  function Joined(chunks: seq<seq<int>>): seq<int>
    decreases |chunks|
  {
    if chunks == [] then [] else chunks[0] + Joined(chunks[1..])
  }

  /** Convolving a longer stream does not change its first outputs. */
  lemma {:induction false} ConvPrefix(ratio: nat, a: seq<int>, b: seq<int>, n: nat)
    requires Supported(ratio) && n + STATE_NUM <= |a|
    ensures Conv(ratio, a + b, n) == Conv(ratio, a, n)
  {
    hide Phases;
    if n == 0 {
    } else {
      ConvPrefix(ratio, a, b, n - 1);
      assert (a + b)[n - 1..n + STATE_NUM] == a[n - 1..n + STATE_NUM];
    }
  }

  /** After `m` windows the convolution goes on as that of the stream from there. */
  lemma {:induction false} ConvSplits(ratio: nat, stream: seq<int>, m: nat, n: nat)
    requires Supported(ratio) && m + n + STATE_NUM <= |stream|
    ensures Conv(ratio, stream, m + n) == Conv(ratio, stream, m) + Conv(ratio, stream[m..], n)
  {
    hide Conv, Phases;
    var tail := stream[m..];
    if n == 0 {
      ConvNone(ratio, tail);
      assert Conv(ratio, stream, m) + [] == Conv(ratio, stream, m);
    } else {
      ConvSplits(ratio, stream, m, n - 1);
      ConvNext(ratio, stream, m + n - 1);
      ConvNext(ratio, tail, n - 1);
      assert tail[n - 1..n + STATE_NUM] == stream[m + n - 1..m + n + STATE_NUM];
      Associate(Conv(ratio, stream, m), Conv(ratio, tail, n - 1), Phases(ratio, tail[n - 1..n + STATE_NUM]));
    }
  }

  lemma Associate<T>(a: seq<T>, b: seq<T>, c: seq<T>)
    ensures (a + b) + c == a + (b + c)
  {
  }

  lemma {:induction false} ConvNone(ratio: nat, stream: seq<int>)
    requires Supported(ratio) && STATE_NUM <= |stream|
    ensures Conv(ratio, stream, 0) == []
  {
  }

  /** For any split of the input into calls, of any lengths, the outputs are the convolution of the
      initial state followed by the whole input, and the state is the last 23 samples of that stream. */
  lemma {:induction false} ChunkingIsInvisible(ratio: nat, history: seq<int>, chunks: seq<seq<int>>)
    requires Supported(ratio) && |history| == STATE_NUM
    ensures var stream := history + Joined(chunks);
            RunCalls(ratio, history, chunks) == (Conv(ratio, stream, |Joined(chunks)|), Last(stream))
    decreases |chunks|
  {
    hide Conv;
    if chunks == [] {
      ConvNone(ratio, history);
      assert history + [] == history;
    } else {
      var a, b := chunks[0], Joined(chunks[1..]);
      var head := history + a;
      assert history + Joined(chunks) == head + b;
      ChunkingIsInvisible(ratio, Last(head), chunks[1..]);
      OneCallMore(ratio, head, b, |a|);
    }
  }

  /** A call on a shorter stream, then one on its last samples and more input. */
  lemma OneCallMore(ratio: nat, head: seq<int>, b: seq<int>, m: nat)
    requires Supported(ratio) && |head| == m + STATE_NUM
    ensures Conv(ratio, head + b, m + |b|) == Conv(ratio, head, m) + Conv(ratio, Last(head) + b, |b|)
    ensures Last(head + b) == Last(Last(head) + b)
  {
    hide Conv;
    ConvPrefix(ratio, head, b, m);
    ConvSplits(ratio, head + b, m, |b|);
    assert (head + b)[m..] == Last(head) + b;
  }

  // ---- What the phases mean ----

  /** Output `j` of a filter at the output rate, from the inside of the polyphase form. */
  lemma {:induction false} ConvAt(ratio: nat, stream: seq<int>, n: nat, m: nat, phase: nat)
    requires Supported(ratio) && n + STATE_NUM <= |stream| && m < n && phase < ratio
    ensures |Conv(ratio, stream, n)| == ratio * n && ratio * m + phase < ratio * n
    ensures Conv(ratio, stream, n)[ratio * m + phase] == Sample(Row(ratio, phase), stream[m..m + COEF_NUM])
  {
    hide Sample, Row, Conv, Phases;
    ConvLength(ratio, stream, n - 1);
    ConvLength(ratio, stream, n);
    ConvNext(ratio, stream, n - 1);
    MulNext(ratio, m, n);
    if m == n - 1 {
      PhaseAt(ratio, stream[m..m + COEF_NUM], phase);
    } else {
      ConvAt(ratio, stream, n - 1, m, phase);
    }
  }

  lemma {:induction false} ConvLength(ratio: nat, stream: seq<int>, n: nat)
    requires Supported(ratio) && n + STATE_NUM <= |stream|
    ensures |Conv(ratio, stream, n)| == ratio * n
  {
    if n == 0 {
    } else {
      ConvLength(ratio, stream, n - 1);
      MulNext(ratio, n - 1, n);
    }
  }

  /** Impulse response at the output rate: the coefficient `delay` output samples after the newest input. */
  function Tap(ratio: nat, delay: nat): int
    requires Supported(ratio) && ratio > 0 && delay / ratio < COEF_NUM
  {
    var oldest := COEF_NUM - 1 - delay / ratio;
    if ratio == 6 then COEF_8K[delay % 6][oldest] else COEF_16K[delay % ratio][oldest]
  }

  /** The stream at the output rate, `ratio - 1` zeros behind every sample, zero outside. */
  function Stuffed(ratio: nat, stream: seq<int>, j: int): int
    requires ratio > 0
  {
    if 0 <= j && j % ratio == 0 && j / ratio < |stream| then stream[j / ratio] else 0
  }

  /** The first `n` terms of an ordinary FIR filter at the output rate. */
  function Filtered(ratio: nat, stream: seq<int>, j: int, n: nat): int
    requires Supported(ratio) && 0 < ratio && n <= ratio * COEF_NUM
  {
    if n == 0 then 0
    else
      DelayInside(ratio, n - 1);
      Filtered(ratio, stream, j, n - 1) + Stuffed(ratio, stream, j - (n - 1)) * Tap(ratio, n - 1)
  }

  lemma DelayInside(ratio: nat, delay: nat)
    requires 0 < ratio && delay < ratio * COEF_NUM
    ensures delay / ratio < COEF_NUM
  {
    MulIfMonotone(ratio, COEF_NUM, delay / ratio);
  }

  /** The polyphase form is the plain one: zeros stuffed between the samples, then one filter at the output
      rate, 24 coefficients to every input sample. */
  lemma {:induction false} PolyphaseIsFilter(ratio: nat, stream: seq<int>, n: nat, m: nat, phase: nat)
    requires Supported(ratio) && n + STATE_NUM <= |stream| && m < n && phase < ratio
    ensures |Conv(ratio, stream, n)| == ratio * n && ratio * m + phase < ratio * n
    ensures Conv(ratio, stream, n)[ratio * m + phase]
         == Wrap32(Filtered(ratio, stream, ratio * (m + STATE_NUM) + phase, ratio * COEF_NUM)) / 0x1_0000
  {
    hide Row, Filtered, Dot, Wrap32, Conv;
    var row, window := Row(ratio, phase), stream[m..m + COEF_NUM];
    ConvAt(ratio, stream, n, m, phase);
    NewestFirst(ratio, stream, m, phase, COEF_NUM);
    DotZero(row, window);
  }

  lemma DotZero(row: seq<int>, window: seq<int>)
    ensures Dot(row, window, 0) == 0
  {
  }

  /** The filter meets the window from its newest sample backwards. */
  lemma {:induction false} NewestFirst(ratio: nat, stream: seq<int>, m: nat, phase: nat, n: nat)
    requires Supported(ratio) && m + COEF_NUM <= |stream| && phase < ratio && n <= COEF_NUM
    ensures ratio * n <= ratio * COEF_NUM
    ensures Filtered(ratio, stream, ratio * (m + STATE_NUM) + phase, ratio * n)
         == Dot(Row(ratio, phase), stream[m..m + COEF_NUM], COEF_NUM)
            - Dot(Row(ratio, phase), stream[m..m + COEF_NUM], COEF_NUM - n)
  {
    hide Row, Filtered, Dot, Tap;
    MulMonotone(ratio, n, COEF_NUM);
    if n == 0 {
      FilteredNone(ratio, stream, ratio * (m + STATE_NUM) + phase);
    } else {
      var row, window, k := Row(ratio, phase), stream[m..m + COEF_NUM], COEF_NUM - n;
      var j := ratio * (m + STATE_NUM) + phase;
      NewestFirst(ratio, stream, m, phase, n - 1);
      SplitProduct(ratio, m + STATE_NUM, n - 1);
      OneSampleBack(ratio, stream, j, n - 1, m + k, phase, ratio);
      MulNext(ratio, n - 1, COEF_NUM);
      TapOfPhase(ratio, n - 1, phase);
      DotOfNext(row, window, k);
      assert window[k] == stream[m + k];
    }
  }

  lemma FilteredNone(ratio: nat, stream: seq<int>, j: int)
    requires Supported(ratio) && 0 < ratio
    ensures ratio * 0 == 0 && Filtered(ratio, stream, j, ratio * 0) == 0
  {
  }

  /** Of the coefficients that fall between two samples, only that of the phase meets a sample. */
  lemma {:induction false} OneSampleBack(ratio: nat, stream: seq<int>, j: int, q: nat, k: nat, phase: nat, r: nat)
    requires Supported(ratio) && k < |stream| && phase < ratio && q < COEF_NUM && r <= ratio
    requires j - ratio * q == ratio * k + phase
    ensures ratio * q + r <= ratio * COEF_NUM && (ratio * q + phase) / ratio == q
    ensures Filtered(ratio, stream, j, ratio * q + r) == Filtered(ratio, stream, j, ratio * q)
              + if r > phase then stream[k] * Tap(ratio, ratio * q + phase) else 0
  {
    hide Tap, Stuffed, Filtered;
    MulNext(ratio, q, COEF_NUM);
    QuotientOf(ratio, q, phase);
    if r == 0 {
    } else {
      OneSampleBack(ratio, stream, j, q, k, phase, r - 1);
      QuotientOf(ratio, q, r - 1);
      StuffedAt(ratio, stream, k, phase, r - 1);
      FilteredNext(ratio, stream, j, ratio * q + (r - 1));
      assert j - (ratio * q + (r - 1)) == ratio * k + phase - (r - 1);
    }
  }

  lemma FilteredNext(ratio: nat, stream: seq<int>, j: int, n: nat)
    requires Supported(ratio) && 0 < ratio && n + 1 <= ratio * COEF_NUM && n / ratio < COEF_NUM
    ensures Filtered(ratio, stream, j, n + 1)
         == Filtered(ratio, stream, j, n) + Stuffed(ratio, stream, j - n) * Tap(ratio, n)
  {
    hide Stuffed, Tap;
  }

  lemma SplitProduct(r: nat, a: nat, b: nat)
    requires b <= a
    ensures r * a - r * b == r * (a - b)
  {
  }

  lemma QuotientOf(ratio: nat, q: int, r: nat)
    requires r < ratio
    ensures (ratio * q + r) / ratio == q && (ratio * q + r) % ratio == r
  {
    var x := ratio * q + r;
    assert x == ratio * (x / ratio) + x % ratio;
    OnlyMultiple(ratio, q - x / ratio);
  }

  lemma OnlyMultiple(ratio: nat, d: int)
    requires Abs(ratio * d) < ratio
    ensures d == 0
  {
    MulIfMonotone(ratio, 1, Abs(d));
    assert Abs(ratio * d) == ratio * Abs(d);
  }

  lemma TapOfPhase(ratio: nat, q: nat, phase: nat)
    requires Supported(ratio) && phase < ratio && q < COEF_NUM
    ensures (ratio * q + phase) / ratio == q && Tap(ratio, ratio * q + phase) == Row(ratio, phase)[STATE_NUM - q]
  {
    QuotientOf(ratio, q, phase);
    hide COEF_8K, COEF_16K;
  }

  lemma StuffedAt(ratio: nat, stream: seq<int>, k: nat, phase: nat, r: nat)
    requires r < ratio && phase < ratio && k < |stream|
    ensures Stuffed(ratio, stream, ratio * k + phase - r) == if r == phase then stream[k] else 0
  {
    if r <= phase {
      QuotientOf(ratio, k, phase - r);
    } else {
      QuotientOf(ratio, k - 1, ratio + phase - r);
      assert ratio * (k - 1) + ratio == ratio * k;
    }
  }

  /** A stream of silence but for one sample. */
  ghost predicate OnlyAt(stream: seq<int>, at: nat) {
    at < |stream| && forall i | 0 <= i < |stream| && i != at :: stream[i] == 0
  }

  lemma {:induction false} DotOfImpulse(row: seq<int>, window: seq<int>, at: nat, n: nat)
    requires OnlyAt(window, at) && n <= |row| == |window|
    ensures Dot(row, window, n) == if at < n then window[at] * row[at] else 0
  {
    if n == 0 {
    } else {
      DotOfImpulse(row, window, at, n - 1);
    }
  }

  /** One sample alone comes out as the coefficients, in the order of their delay. */
  lemma {:induction false} ImpulseResponse(ratio: nat, stream: seq<int>, n: nat, m: nat, phase: nat, at: nat)
    requires Supported(ratio) && n + STATE_NUM <= |stream| && m < n && phase < ratio
    requires OnlyAt(stream, at) && m <= at < m + COEF_NUM
    ensures |Conv(ratio, stream, n)| == ratio * n && ratio * m + phase < ratio * n
    ensures Conv(ratio, stream, n)[ratio * m + phase]
         == Wrap32(stream[at] * Row(ratio, phase)[at - m]) / 0x1_0000
    ensures var delay := ratio * (m + STATE_NUM - at) + phase;
            delay / ratio < COEF_NUM && Row(ratio, phase)[at - m] == Tap(ratio, delay)
  {
    hide Conv, Row, Tap, Wrap32, Dot;
    ConvAt(ratio, stream, n, m, phase);
    var window := stream[m..m + COEF_NUM];
    assert window[at - m] == stream[at];
    DotOfImpulse(Row(ratio, phase), window, at - m, COEF_NUM);
    TapOfPhase(ratio, m + STATE_NUM - at, phase);
  }

  /** The two coefficients in the middle of every row. */
  lemma Middle8k()
    ensures Row(6, 0)[11] == 30721 == Row(6, 5)[12] && Row(6, 1)[11] == 28131 == Row(6, 4)[12]
    ensures Row(6, 2)[11] == 23348 == Row(6, 3)[12] && Row(6, 3)[11] == 17094 == Row(6, 2)[12]
    ensures Row(6, 4)[11] == 10285 == Row(6, 1)[12] && Row(6, 5)[11] == 3861 == Row(6, 0)[12]
  {
  }

  lemma Middle16k(ratio: nat)
    requires 0 < ratio <= 3
    ensures Row(ratio, 0)[11] == 29344 && Row(ratio, 0)[12] == 7324
    ensures ratio > 1 ==> Row(ratio, 1)[11] == 20320 == Row(ratio, 1)[12]
    ensures ratio > 2 ==> Row(ratio, 2)[11] == 7324 && Row(ratio, 2)[12] == 29344
  {
  }

  /** An impulse of 16384, 12 samples later, at ratio 6. */
  lemma {:induction false} Impulse8k(stream: seq<int>, n: nat, m: nat)
    requires n + STATE_NUM <= |stream| && m < n && OnlyAt(stream, m + 11) && stream[m + 11] == 16384
    ensures |Conv(6, stream, n)| == 6 * n
    ensures Conv(6, stream, n)[6 * m..6 * m + 6] == [7680, 7032, 5837, 4273, 2571, 965]
  {
    hide Conv, Row, Tap, OnlyAt;
    Middle8k();
    ImpulseResponse(6, stream, n, m, 0, m + 11);
    ImpulseResponse(6, stream, n, m, 1, m + 11);
    ImpulseResponse(6, stream, n, m, 2, m + 11);
    ImpulseResponse(6, stream, n, m, 3, m + 11);
    ImpulseResponse(6, stream, n, m, 4, m + 11);
    ImpulseResponse(6, stream, n, m, 5, m + 11);
  }

  /** The same at ratio 3. */
  lemma {:induction false} Impulse16k(stream: seq<int>, n: nat, m: nat)
    requires n + STATE_NUM <= |stream| && m < n && OnlyAt(stream, m + 11) && stream[m + 11] == 16384
    ensures |Conv(3, stream, n)| == 3 * n
    ensures Conv(3, stream, n)[3 * m..3 * m + 3] == [7336, 5080, 1831]
  {
    hide Conv, Row, Tap, OnlyAt;
    Middle16k(3);
    ImpulseResponse(3, stream, n, m, 0, m + 11);
    ImpulseResponse(3, stream, n, m, 1, m + 11);
    ImpulseResponse(3, stream, n, m, 2, m + 11);
  }

  /** Interpolation runs forward in time: while a sample is the older of the two in the middle of the window
      the outputs fall from phase to phase, while it is the newer one they rise. */
  lemma {:induction false} PhasesInterpolate(ratio: nat, stream: seq<int>, n: nat, m: nat, phase: nat, at: nat)
    requires Supported(ratio) && n + STATE_NUM <= |stream| && m < n && phase + 1 < ratio
    requires OnlyAt(stream, at) && (at == m + 11 || at == m + 12) && 0 < stream[at] < 0x8000
    ensures |Conv(ratio, stream, n)| == ratio * n && ratio * m + phase + 1 < ratio * n
    ensures var j := ratio * m + phase;
            var before, after := Conv(ratio, stream, n)[j], Conv(ratio, stream, n)[j + 1];
            if at == m + 11 then before >= after && (stream[at] >= 26 ==> before > after)
            else before <= after && (stream[at] >= 26 ==> before < after)
  {
    hide Conv, Row, Tap, OnlyAt, Wrap32;
    var x := stream[at];
    ImpulseResponse(ratio, stream, n, m, phase, at);
    ImpulseResponse(ratio, stream, n, m, phase + 1, at);
    MiddleOrder(ratio, phase);
    var c, d := Row(ratio, phase)[at - m], Row(ratio, phase + 1)[at - m];
    if at == m + 11 {
      ProductOrder(x, d, c);
    } else {
      ProductOrder(x, c, d);
    }
  }

  lemma MiddleOrder(ratio: nat, phase: nat)
    requires Supported(ratio) && phase + 1 < ratio
    ensures 0 < Row(ratio, phase + 1)[11] <= Row(ratio, phase)[11] - 2590 <= 0x7000
    ensures 0 < Row(ratio, phase)[12] <= Row(ratio, phase + 1)[12] - 2590 <= 0x7000
  {
    if ratio == 6 {
      Middle8k();
    } else {
      Middle16k(ratio);
    }
    hide Row;
    assert phase == 0 || phase == 1 || phase == 2 || phase == 3 || phase == 4;
  }

  lemma ProductOrder(x: int, c: int, d: int)
    requires 0 < x < 0x8000 && 0 < c <= d - 2590 <= 0x7000
    ensures Wrap32(x * c) / 0x1_0000 <= Wrap32(x * d) / 0x1_0000
    ensures x >= 26 ==> Wrap32(x * c) / 0x1_0000 < Wrap32(x * d) / 0x1_0000
  {
    MulMonotone(x, c, d - 2590);
    MulMonotone(x, d, 0x7fff);
    assert x * (d - 2590) == x * d - x * 2590;
    WrapOfFit(x * c);
    WrapOfFit(x * d);
  }

  // ---- The accumulator ----

  function Abs(x: int): nat {
    if x < 0 then -x else x
  }

  /** L1 norm of the first `n` coefficients. */
  function Norm(row: seq<int>, n: nat): nat
    requires n <= |row|
  {
    if n == 0 then 0 else Norm(row, n - 1) + Abs(row[n - 1])
  }

  ghost predicate Within(window: seq<int>, bound: nat) {
    forall i | 0 <= i < |window| :: Abs(window[i]) <= bound
  }

  predicate FitsInt32(x: int) {
    -0x8000_0000 <= x < 0x8000_0000
  }

  lemma {:induction false} DotBound(row: seq<int>, window: seq<int>, bound: nat, n: nat)
    requires n <= |row| && n <= |window| && Within(window, bound)
    ensures Abs(Dot(row, window, n)) <= bound * Norm(row, n)
  {
    if n == 0 {
    } else {
      DotBound(row, window, bound, n - 1);
      var x, c := window[n - 1], row[n - 1];
      AbsProduct(x, c, bound);
      assert bound * (Norm(row, n - 1) + Abs(c)) == bound * Norm(row, n - 1) + bound * Abs(c);
    }
  }

  lemma AbsProduct(x: int, c: int, bound: nat)
    requires Abs(x) <= bound
    ensures Abs(x * c) <= bound * Abs(c)
  {
    MulMonotone(Abs(c), Abs(x), bound);
    assert Abs(x * c) == Abs(c) * Abs(x);
  }

  /** The window that drives a row hardest. */
  function Worst(row: seq<int>, bound: nat): seq<int> {
    var b: int := bound;
    seq(|row|, i requires 0 <= i < |row| => if row[i] < 0 then -b else b)
  }

  lemma {:induction false} WorstDot(row: seq<int>, bound: nat, n: nat)
    requires n <= |row|
    ensures Dot(row, Worst(row, bound), n) == bound * Norm(row, n)
  {
    if n == 0 {
    } else {
      WorstDot(row, bound, n - 1);
      assert Worst(row, bound)[n - 1] * row[n - 1] == bound * Abs(row[n - 1]);
      assert bound * (Norm(row, n - 1) + Abs(row[n - 1])) == bound * Norm(row, n - 1) + bound * Abs(row[n - 1]);
    }
  }

  lemma {:induction false} NormMonotone(row: seq<int>, n: nat, m: nat)
    requires n <= m <= |row|
    ensures Norm(row, n) <= Norm(row, m)
    decreases m
  {
    if n < m {
      NormMonotone(row, n, m - 1);
    }
  }

  lemma NormFour(row: seq<int>, k: nat)
    requires k + 4 <= |row|
    ensures Norm(row, k + 4) == Norm(row, k) + Abs(row[k]) + Abs(row[k + 1]) + Abs(row[k + 2]) + Abs(row[k + 3])
  {
    assert Norm(row, k + 2) == Norm(row, k) + Abs(row[k]) + Abs(row[k + 1]);
  }

  /** The sum of magnitudes, spelt out. */
  lemma {:induction false} NormSum(r: seq<int>)
    requires |r| == COEF_NUM
    ensures Norm(r, COEF_NUM) ==
            Abs(r[0]) + Abs(r[1]) + Abs(r[2]) + Abs(r[3]) + Abs(r[4]) + Abs(r[5]) + Abs(r[6]) + Abs(r[7])
            + Abs(r[8]) + Abs(r[9]) + Abs(r[10]) + Abs(r[11]) + Abs(r[12]) + Abs(r[13]) + Abs(r[14]) + Abs(r[15])
            + Abs(r[16]) + Abs(r[17]) + Abs(r[18]) + Abs(r[19]) + Abs(r[20]) + Abs(r[21]) + Abs(r[22]) + Abs(r[23])
  {
    hide Norm, Abs;
    NormZero(r);
    NormFour(r, 0);
    NormFour(r, 4);
    NormFour(r, 8);
    NormFour(r, 12);
    NormFour(r, 16);
    NormFour(r, 20);
  }

  lemma {:induction false} NormZero(row: seq<int>)
    ensures Norm(row, 0) == 0
  {
  }

  lemma RowNorms8k()
    ensures Norm(Row(6, 0), COEF_NUM) == 47690 == Norm(Row(6, 5), COEF_NUM)
    ensures Norm(Row(6, 1), COEF_NUM) == 62181 == Norm(Row(6, 4), COEF_NUM)
    ensures Norm(Row(6, 2), COEF_NUM) == 71978 == Norm(Row(6, 3), COEF_NUM)
  {
    hide Norm;
    NormSum(COEF_8K[0]);
    NormSum(COEF_8K[1]);
    NormSum(COEF_8K[2]);
    NormSum(COEF_8K[3]);
    NormSum(COEF_8K[4]);
    NormSum(COEF_8K[5]);
  }

  lemma RowNorms16k()
    ensures Norm(Row(3, 0), COEF_NUM) == 55423 == Norm(Row(3, 2), COEF_NUM)
    ensures Norm(Row(3, 1), COEF_NUM) == 70524
  {
    hide Norm;
    NormSum(COEF_16K[0]);
    NormSum(COEF_16K[1]);
    NormSum(COEF_16K[2]);
  }

  /** Every partial sum of every phase stays inside 32 bits for all windows within the bound. */
  ghost predicate NeverOverflows(ratio: nat, bound: nat)
    requires Supported(ratio)
  {
    forall phase, window, n {:trigger Dot(Row(ratio, phase), window, n)} |
      0 <= phase < ratio && |window| == COEF_NUM && Within(window, bound) && 0 <= n <= COEF_NUM ::
      FitsInt32(Dot(Row(ratio, phase), window, n))
  }

  /** The largest norm decides: the accumulator is safe exactly up to the bound at which that row's worst
      window still fits. */
  lemma OverflowByWorstRow(ratio: nat, worst: nat, top: nat, bound: nat)
    requires Supported(ratio) && worst < ratio && Norm(Row(ratio, worst), COEF_NUM) == top
    requires forall phase | 0 <= phase < ratio :: Norm(Row(ratio, phase), COEF_NUM) <= top
    ensures NeverOverflows(ratio, bound) <==> bound * top < 0x8000_0000
  {
    if bound * top < 0x8000_0000 {
      forall phase, window, n {:trigger Dot(Row(ratio, phase), window, n)} |
        0 <= phase < ratio && |window| == COEF_NUM && Within(window, bound) && 0 <= n <= COEF_NUM
        ensures FitsInt32(Dot(Row(ratio, phase), window, n))
      {
        var row := Row(ratio, phase);
        DotBound(row, window, bound, n);
        NormMonotone(row, n, COEF_NUM);
        MulMonotone(bound, Norm(row, n), top);
      }
    } else {
      var row := Row(ratio, worst);
      var window := Worst(row, bound);
      WorstDot(row, bound, COEF_NUM);
      assert Within(window, bound);
      assert !FitsInt32(Dot(row, window, COEF_NUM));
    }
  }

  /** 8 kHz to 48 kHz: safe exactly for samples up to 29835 in magnitude. */
  lemma AccumulatorBound8k(bound: nat)
    ensures NeverOverflows(6, bound) <==> bound <= 29835
  {
    RowNorms8k();
    hide Norm, Row;
    forall phase | 0 <= phase < 6
      ensures Norm(Row(6, phase), COEF_NUM) <= 71978
    {
      assert phase == 0 || phase == 1 || phase == 2 || phase == 3 || phase == 4 || phase == 5;
    }
    OverflowByWorstRow(6, 2, 71978, bound);
  }

  /** 16 kHz to 48 kHz: safe exactly for samples up to 30450 in magnitude. */
  lemma AccumulatorBound16k(bound: nat)
    ensures NeverOverflows(3, bound) <==> bound <= 30450
  {
    RowNorms16k();
    hide Norm, Row;
    forall phase | 0 <= phase < 3
      ensures Norm(Row(3, phase), COEF_NUM) <= 70524
    {
      assert phase == 0 || phase == 1 || phase == 2;
    }
    OverflowByWorstRow(3, 1, 70524, bound);
  }

  /** Within the bound no wrap takes place: the output is the exact product sum divided by 65536, rounded
      down. */
  lemma {:induction false} SampleIsExact(ratio: nat, phase: nat, window: seq<int>, bound: nat)
    requires Supported(ratio) && phase < ratio && |window| == COEF_NUM
    requires Within(window, bound) && NeverOverflows(ratio, bound)
    ensures Sample(Row(ratio, phase), window) == Dot(Row(ratio, phase), window, COEF_NUM) / 0x1_0000
  {
    hide Row, Dot;
    assert FitsInt32(Dot(Row(ratio, phase), window, COEF_NUM));
    WrapOfFit(Dot(Row(ratio, phase), window, COEF_NUM));
  }

  lemma WrapOfFit(x: int)
    requires FitsInt32(x)
    ensures Wrap32(x) == x
  {
  }
}
