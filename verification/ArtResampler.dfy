/**
 The ART resampler at work: a buffer of 16 filter lengths that is filled from the left and,
 when full, moved down so that only the newest filter length remains
 (components/audio-resampler/resampler.c). The buffer is proved to be a moving view of the
 whole input stream behind one filter length of silence.
 */
module ArtResampler {
  import opened Prelude
  import opened ArtClock
  import opened ArtFilters

  // ---------------------------------------------------------------- the infinite tape

  function Silence(b: Bank): (f: Frame)
    ensures |f| == b.channels
  {
    seq(b.channels, _ => 0.0)
  }

  /** The input stream behind `numTaps` frames of silence, and silence beyond its end. */
  function Tape(b: Bank, s: seq<Frame>, m: int): (f: Frame)
    ensures FramesOf(b, s) ==> |f| == b.channels
  {
    if b.numTaps <= m < b.numTaps + |s| then s[m - b.numTaps] else Silence(b)
  }

  ghost predicate FramesOf(b: Bank, s: seq<Frame>) {
    forall i :: 0 <= i < |s| ==> |s[i]| == b.channels
  }

  /** The `numTaps` frames of the tape around position `p`. */
  function Window(b: Bank, s: seq<Frame>, p: int): (w: seq<Frame>)
    requires FramesOf(b, s)
    ensures |w| == b.numTaps
    ensures forall k :: 0 <= k < b.numTaps ==> w[k] == Tape(b, s, p - Half(b) + 1 + k)
    ensures WindowOf(b, w)
  {
    seq(b.numTaps, k requires 0 <= k < b.numTaps => Tape(b, s, p - Half(b) + 1 + k))
  }

  /** Output `j` of the whole stream: the taps around position numTaps / 2 + j / ratio. */
  function Output(b: Bank, s: seq<Frame>, j: nat): Frame
    requires ValidBank(b) && FramesOf(b, s)
  {
    var t := Time(b.ratio, j);
    Subsample(b, Window(b, s, Half(b) + t.Floor), Frac(t), b.interpolate)
  }

  // ------------------------------------------- what an output is, frame by frame

  /** The weight that a filter gives to input frame `i` for an output `whole` input frames in. */
  function Tap(row: seq<real>, i: int, whole: int): real {
    var k := |row| + i - whole - 1;
    if 0 <= k < |row| then row[k] else 0.0
  }

  /** What the first `m` input frames contribute to channel `c`. */
  function Response(row: seq<real>, s: seq<Frame>, whole: int, c: nat, m: nat): real
    requires m <= |s| && forall i :: 0 <= i < |s| ==> c < |s[i]|
  {
    if m == 0 then 0.0 else Response(row, s, whole, c, m - 1) + Tap(row, m - 1, whole) * s[m - 1][c]
  }

  lemma {:induction false} ResponsePrefix(row: seq<real>, s: seq<Frame>, x: Frame, whole: int, c: nat, m: nat)
    requires m <= |s| && c < |x| && forall i :: 0 <= i < |s| ==> c < |s[i]|
    ensures Response(row, s + [x], whole, c, m) == Response(row, s, whole, c, m)
  {
    if m > 0 { ResponsePrefix(row, s, x, whole, c, m - 1); }
  }

  lemma ResponseAppend(b: Bank, row: seq<real>, s: seq<Frame>, x: Frame, whole: int, c: nat)
    requires FramesOf(b, s) && FramesOf(b, s + [x]) && |x| == b.channels && c < b.channels
    ensures Response(row, s + [x], whole, c, |s + [x]|) == Response(row, s, whole, c, |s|) + Tap(row, |s|, whole) * x[c]
  {
    hide Tap;
    ResponsePrefix(row, s, x, whole, c, |s|);
  }

  /** Two windows that differ in one place, if at all. */
  lemma {:induction false} DotDiffers(row: seq<real>, w: seq<Frame>, v: seq<Frame>, c: nat, k: int, d: real, m: nat)
    requires m <= |row| && m <= |w| == |v| && forall i :: 0 <= i < |w| ==> c < |w[i]| && c < |v[i]|
    requires forall i :: 0 <= i < |w| ==> w[i][c] == v[i][c] + if i == k then d else 0.0
    ensures Dot(row, w, c, m) == Dot(row, v, c, m) + if 0 <= k < m then row[k] * d else 0.0
  {
    if m > 0 {
      DotDiffers(row, w, v, c, k, d, m - 1);
      assert row[m - 1] * (v[m - 1][c] + d) == row[m - 1] * v[m - 1][c] + row[m - 1] * d;
    }
  }

  lemma TapeAppend(b: Bank, s: seq<Frame>, x: Frame, at: int, c: nat)
    requires FramesOf(b, s) && FramesOf(b, s + [x]) && |x| == b.channels && c < b.channels
    ensures Tape(b, s + [x], at)[c] == Tape(b, s, at)[c] + if at == b.numTaps + |s| then x[c] else 0.0
  {
  }

  /** One more input frame meets exactly one tap, or none. */
  lemma DotAppend(b: Bank, row: seq<real>, s: seq<Frame>, x: Frame, whole: int, c: nat)
    requires FramesOf(b, s) && FramesOf(b, s + [x]) && |x| == b.channels && c < b.channels
    requires |row| == b.numTaps
    ensures Dot(row, Window(b, s + [x], Half(b) + whole), c, b.numTaps)
         == Dot(row, Window(b, s, Half(b) + whole), c, b.numTaps) + Tap(row, |s|, whole) * x[c]
  {
    hide Dot, Tape, Half;
    var w, v, k := Window(b, s + [x], Half(b) + whole), Window(b, s, Half(b) + whole), b.numTaps + |s| - whole - 1;
    forall i | 0 <= i < |w| ensures w[i][c] == v[i][c] + if i == k then x[c] else 0.0 {
      TapeAppend(b, s, x, whole + 1 + i, c);
    }
    DotDiffers(row, w, v, c, k, x[c], b.numTaps);
  }

  lemma {:induction false} DotNothing(b: Bank, row: seq<real>, whole: int, c: nat, m: nat)
    requires c < b.channels && m <= |row| == b.numTaps
    ensures Dot(row, Window(b, [], Half(b) + whole), c, m) == 0.0
  {
    if m > 0 { DotNothing(b, row, whole, c, m - 1); }
  }

  /** Summing over the taps of the window is summing over the input frames. */
  lemma {:induction false} DotIsResponse(b: Bank, row: seq<real>, s: seq<Frame>, whole: int, c: nat)
    requires FramesOf(b, s) && c < b.channels && |row| == b.numTaps
    ensures Dot(row, Window(b, s, Half(b) + whole), c, b.numTaps) == Response(row, s, whole, c, |s|)
  {
    if s == [] {
      DotNothing(b, row, whole, c, b.numTaps);
    } else {
      var rest, x := s[..|s| - 1], s[|s| - 1];
      assert s == rest + [x] && FramesOf(b, rest) && |x| == b.channels;
      hide *;
      DotIsResponse(b, row, rest, whole, c);
      DotAppend(b, row, rest, x, whole, c);
      ResponseAppend(b, row, rest, x, whole, c);
    }
  }

  /** A stream with one frame that is not silent comes out as that frame times one tap. */
  lemma {:induction false} ImpulseResponse(row: seq<real>, s: seq<Frame>, whole: int, c: nat, i: nat, m: nat)
    requires i < |s| && m <= |s| && forall k :: 0 <= k < |s| ==> c < |s[k]| && (k != i ==> s[k][c] == 0.0)
    ensures Response(row, s, whole, c, m) == if i < m then Tap(row, i, whole) * s[i][c] else 0.0
  {
    if m > 0 { ImpulseResponse(row, s, whole, c, i, m - 1); }
  }

  /** Channel `c` of input frame `i`, silent outside the stream. */
  function InputAt(s: seq<Frame>, i: int, c: nat): real
    requires forall k :: 0 <= k < |s| ==> c < |s[k]|
  {
    if 0 <= i < |s| then s[i][c] else 0.0
  }

  /** Output `j` lies `whole` input frames and `frac` of a frame in. */
  predicate LiesAt(b: Bank, j: nat, whole: int, frac: real) {
    b.ratio > 0.0 && j as real == (whole as real + frac) * b.ratio && 0.0 <= frac < 1.0
  }

  lemma PlaceIs(b: Bank, j: nat, whole: int, frac: real)
    requires LiesAt(b, j, whole, frac)
    ensures Time(b.ratio, j).Floor == whole && Frac(Time(b.ratio, j)) == frac
  {
    var t := Time(b.ratio, j);
    DivMul(j as real, b.ratio);
    var u := whole as real + frac;
    MulOrder(t, u, b.ratio);
    MulOrder(u, t, b.ratio);
    FloorIs(t, whole);
  }

  /**
   Without interpolation, output `j` is the response of the filter nearest to its fraction; without
   lowpass the first and last filters give the input frame half a filter length back, or the one
   after it.
   */
  lemma NearestOutput(b: Bank, s: seq<Frame>, j: nat, whole: int, frac: real, fi: nat, c: nat)
    requires ValidBank(b) && FramesOf(b, s) && !b.interpolate && c < b.channels && LiesAt(b, j, whole, frac)
    requires fi as real <= frac * b.numFilters as real + 0.5 < fi as real + 1.0
    ensures fi <= b.numFilters
    ensures Output(b, s, j)[c] ==
      if b.lowpass || 0 < fi < b.numFilters then Response(b.filters[fi], s, whole, c, |s|)
      else InputAt(s, whole - Half(b) + if fi == 0 then 0 else 1, c)
  {
    NearestIs(b, frac, fi);
    OutputSamples(b, s, j, whole, frac, c);
    hide Output, Time, Dot, Nearest, Below, Tape, Response, InputAt, Window;
    EdgeFilter(fi, b.numFilters);
    DotIsResponse(b, b.filters[fi], s, whole, c);
    EdgeFrame(b, s, whole, c);
  }

  /** The middle of the window is the input half a filter length back. */
  lemma EdgeFrame(b: Bank, s: seq<Frame>, whole: int, c: nat)
    requires ValidBank(b) && FramesOf(b, s) && c < b.channels
    ensures var w := Window(b, s, Half(b) + whole);
            w[Half(b) - 1][c] == InputAt(s, whole - Half(b), c) && w[Half(b)][c] == InputAt(s, whole - Half(b) + 1, c)
  {
    assert b.numTaps == 2 * Half(b);
  }

  /** Without lowpass, an output at a whole position is the input frame half a filter length back. */
  lemma WholeOutput(b: Bank, s: seq<Frame>, j: nat, whole: int, c: nat)
    requires ValidBank(b) && FramesOf(b, s) && !b.interpolate && !b.lowpass && c < b.channels
    requires LiesAt(b, j, whole, 0.0)
    ensures Output(b, s, j)[c] == InputAt(s, whole - b.numTaps / 2, c)
  {
    NearestOutput(b, s, j, whole, 0.0, 0, c);
  }

  lemma EdgeFilter(fi: nat, n: nat)
    requires fi <= n && n >= 1
    ensures fi % n == 0 <==> fi == 0 || fi == n
  {
    if fi == n { ModUnique(1, 0, n); } else { ModUnique(0, fi, n); }
  }

  /** With interpolation it is the weighted sum of the two filters around its fraction. */
  lemma BlendedOutput(b: Bank, s: seq<Frame>, j: nat, whole: int, frac: real, fi: nat, rest: real, c: nat)
    requires ValidBank(b) && FramesOf(b, s) && b.interpolate && c < b.channels && LiesAt(b, j, whole, frac)
    requires frac * b.numFilters as real == fi as real + rest && 0.0 <= rest < 1.0
    ensures fi < b.numFilters
    ensures Output(b, s, j)[c] == Response(b.filters[fi], s, whole, c, |s|) * (1.0 - rest)
                                  + Response(b.filters[fi + 1], s, whole, c, |s|) * rest
  {
    hide Output, Time, Dot, Below, Rest, Tape, Response, Window, SampleAt;
    BelowIs(b, frac, fi, rest);
    OutputSamples(b, s, j, whole, frac, c);
    var f, g := b.filters[fi], b.filters[fi + 1];
    DotIsResponse(b, f, s, whole, c);
    DotIsResponse(b, g, s, whole, c);
    SampleBlends(b, Window(b, s, Half(b) + whole), frac, fi, rest, c,
                 Response(f, s, whole, c, |s|), Response(g, s, whole, c, |s|));
  }

  lemma SampleBlends(b: Bank, w: seq<Frame>, frac: real, fi: nat, rest: real, c: nat, x: real, y: real)
    requires ValidBank(b) && WindowOf(b, w) && 0.0 <= frac < 1.0 && c < b.channels && fi < b.numFilters
    requires Below(b, frac) == fi && Rest(b, frac) == rest
    requires Dot(b.filters[fi], w, c, b.numTaps) == x && Dot(b.filters[fi + 1], w, c, b.numTaps) == y
    ensures SampleAt(b, w, frac, true, c) == x * (1.0 - rest) + y * rest
  {
    hide Dot, Below, Rest;
  }

  lemma NearestIs(b: Bank, frac: real, fi: nat)
    requires 1 <= b.numFilters && 0.0 <= frac < 1.0
    requires fi as real <= frac * b.numFilters as real + 0.5 < fi as real + 1.0
    ensures Nearest(b, frac) == fi
  {
    FloorIs(Scaled(frac, b.numFilters) + 0.5, fi);
  }

  lemma BelowIs(b: Bank, frac: real, fi: nat, rest: real)
    requires 1 <= b.numFilters && 0.0 <= frac < 1.0
    requires frac * b.numFilters as real == fi as real + rest && 0.0 <= rest < 1.0
    ensures Below(b, frac) == fi && Rest(b, frac) == rest
  {
    FloorIs(Scaled(frac, b.numFilters), fi);
  }

  lemma OutputSamples(b: Bank, s: seq<Frame>, j: nat, whole: int, frac: real, c: nat)
    requires ValidBank(b) && FramesOf(b, s) && c < b.channels && LiesAt(b, j, whole, frac)
    ensures |Output(b, s, j)| == b.channels
    ensures Output(b, s, j)[c] == SampleAt(b, Window(b, s, Half(b) + whole), frac, b.interpolate, c)
  {
    PlaceIs(b, j, whole, frac);
    hide Time, SampleAt, Tape, Frac;
  }

  /** Input that arrives later does not change an output. */
  lemma OutputCausal(b: Bank, s: seq<Frame>, t: seq<Frame>, j: nat)
    requires ValidBank(b) && FramesOf(b, s) && FramesOf(b, t) && FramesOf(b, s + t)
    requires j < Ready(b.ratio, |s|)
    ensures Output(b, s + t, j) == Output(b, s, j)
  {
    ReadyExact(b.ratio, |s|, j);
    FloorBounds(Time(b.ratio, j));
    var p := Half(b) + Time(b.ratio, j).Floor;
    assert p < Half(b) + |s|;
    var u, v := Window(b, s + t, p), Window(b, s, p);
    forall k | 0 <= k < b.numTaps ensures u[k] == v[k] {
      assert Tape(b, s + t, p - Half(b) + 1 + k) == Tape(b, s, p - Half(b) + 1 + k);
    }
    assert u == v;
  }

  lemma FloorShift(x: real, n: int)
    ensures (x + n as real).Floor == x.Floor + n && Frac(x + n as real) == Frac(x)
  {
    FloorBounds(x);
    FloorIs(x + n as real, x.Floor + n);
  }

  /** A position before `index - half` whose window starts at or after zero reads filled entries only. */
  lemma WindowInside(b: Bank, offset: real, index: nat)
    requires ValidBank(b)
    requires Half(b) as real <= offset < (index - Half(b)) as real
    ensures Half(b) <= offset.Floor && offset.Floor - Half(b) + 1 + b.numTaps <= index
  {
    FloorBounds(offset);
    assert b.numTaps == 2 * Half(b);
  }

  /** Buffer positions and stream positions order the same way. */
  lemma OffsetOrder(offset: real, t: real, half: nat, shift: nat, index: nat, n: nat)
    requires index + shift == 2 * half + n && offset + shift as real == half as real + t
    ensures offset >= (index - half) as real <==> t >= n as real
  {
    assert index - half == n + half - shift;
    assert (index - half) as real == n as real + half as real - shift as real;
  }

  /** The code's test for "no output can be computed yet", in stream terms. */
  lemma WaitsExactly(b: Bank, offset: real, shift: nat, index: nat, n: nat, j: nat)
    requires ValidBank(b) && index + shift == b.numTaps + n
    requires offset + shift as real == Half(b) as real + Time(b.ratio, j)
    ensures offset >= (index - Half(b)) as real <==> Need(b.ratio, j) > n
    ensures offset >= (index - Half(b)) as real <==> j >= Ready(b.ratio, n)
  {
    hide Time, Need, Ready;
    assert b.numTaps == 2 * Half(b);
    hide ValidBank, Half;
    ReadyExact(b.ratio, n, j);
    OffsetOrder(offset, Time(b.ratio, j), Half(b), shift, index, n);
  }

  /** After a reduced bank's outputs the position lies on the grid, so snapping leaves it alone. */
  lemma SnapAligned(b: Bank, step: nat, j: nat, n: int)
    requires Reduced(b, step)
    ensures Snap(Time(b.ratio, j) + n as real, b.numFilters) == Time(b.ratio, j) + n as real
  {
    OnGrid(b, step, j);
    var x := Time(b.ratio, j) + n as real;
    assert x * b.numFilters as real == (j * step + n * b.numFilters) as real;
    SnapIdentity(x, b.numFilters, j * step + n * b.numFilters);
  }

  /** `out` holds outputs number from, from + 1, ... of the stream. */
  ghost predicate Matches(b: Bank, s: seq<Frame>, from: nat, out: seq<Frame>)
    requires ValidBank(b) && FramesOf(b, s)
  {
    forall i :: 0 <= i < |out| ==> out[i] == Output(b, s, from + i)
  }

  lemma MatchesOneMore(b: Bank, s: seq<Frame>, from: nat, out: seq<Frame>)
    requires ValidBank(b) && FramesOf(b, s) && Matches(b, s, from, out)
    ensures Matches(b, s, from, out + [Output(b, s, from + |out|)])
  {
  }

  lemma MatchesExtend(b: Bank, s: seq<Frame>, t: seq<Frame>, from: nat, out: seq<Frame>)
    requires ValidBank(b) && FramesOf(b, s) && FramesOf(b, t) && Matches(b, s, from, out)
    requires from + |out| <= Ready(b.ratio, |s|)
    ensures FramesOf(b, s + t) && Matches(b, s + t, from, out)
  {
    hide Output, Ready;
    forall i | 0 <= i < |out| ensures out[i] == Output(b, s + t, from + i) {
      OutputCausal(b, s, t, from + i);
    }
  }

  /** No input has been taken that the next or the latest output did not call for. */
  ghost predicate Frugal(ratio: real, have: nat, used: nat, made: nat, next: nat, more: bool)
    requires ratio > 0.0
  {
    used == 0
    || (0 < made <= next && Need(ratio, next - 1) == have + used)
    || (more && Need(ratio, next) >= have + used)
  }

  lemma FrugalOutput(ratio: real, have: nat, used: nat, made: nat, next: nat, more: bool)
    requires ratio > 0.0 && made <= next && Frugal(ratio, have, used, made, next, true)
    requires Need(ratio, next) <= have + used
    ensures Frugal(ratio, have, used, made + 1, next + 1, more)
  {
    if 0 < made { NeedMono(ratio, next - 1, next); }
  }

  /** When the call has filled its output, it has used exactly the required input. */
  lemma FullCall(ratio: real, have: nat, done: nat, m: nat, n: nat, used: nat)
    requires ratio > 0.0 && done + n <= Ready(ratio, have + used) && used <= m
    requires done <= Ready(ratio, have) && Frugal(ratio, have, used, n, done + n, false)
    ensures Generated(ratio, have, done, m, n) == n && Used(ratio, have, done, m, n) == used
    ensures RequiredFor(ratio, have, done, n) == used
  {
    ReadyMono(ratio, have + used, have + m);
    if n > 0 { ReadyExact(ratio, have + used, done + n - 1); }
  }

  /** When the call ran out of input, it has made every output that can be computed. */
  lemma StarvedCall(ratio: real, have: nat, done: nat, m: nat, n: nat, made: nat)
    requires ratio > 0.0 && done <= Ready(ratio, have) && done + made == Ready(ratio, have + m) && made < n
    ensures Generated(ratio, have, done, m, n) == made && Used(ratio, have, done, m, n) == m
  {
  }

  lemma PositionIs(offset: real, taps: nat, half: nat, index: nat, shift: nat, n: nat, t: real)
    requires taps == 2 * half && index + shift == taps + n && offset + shift as real == half as real + t
    ensures offset + taps as real / 2.0 - index as real == t - n as real
  {
    assert taps as real == 2.0 * half as real;
    assert index as real + shift as real == taps as real + n as real;
  }

  class Resampler {
    const bank: Bank
    const numSamples: nat
    const buffer: array<Frame>
    var inputIndex: nat
    var outputOffset: real

    /** All frames consumed and the number of frames produced since reset; how far the buffer has moved. */
    ghost var stream: seq<Frame>
    ghost var emitted: nat
    ghost var shift: nat
    /** For a reduced bank, the filters advanced per output. */
    ghost const step: nat

    ghost predicate Shaped()
      reads this
    {
      && ValidBank(bank) && numSamples == bank.numTaps * 16 && buffer.Length == numSamples
      && (bank.snap ==> Reduced(bank, step))
    }

    /** The filled part of the buffer shows the tape from `shift` on. */
    ghost predicate Shows()
      reads this, buffer
    {
      && inputIndex <= buffer.Length
      && inputIndex + shift == bank.numTaps + |stream|
      && forall k :: 0 <= k < inputIndex ==> buffer[k] == Tape(bank, stream, shift + k)
    }

    /** `offset` is the buffer position of the next output, and its window lies inside the buffer. */
    ghost predicate Aligned(offset: real)
      reads this
    {
      && bank.ratio > 0.0
      && offset + shift as real == Half(bank) as real + Time(bank.ratio, emitted)
      && offset >= Half(bank) as real
    }

    ghost predicate Valid()
      reads this, buffer
    {
      && Shaped() && Shows() && FramesOf(bank, stream)
      && bank.numTaps <= inputIndex
      && Aligned(outputOffset)
      && emitted <= Ready(bank.ratio, |stream|)
    }

    constructor (b: Bank, ghost filterStep: nat)
      requires ValidBank(b) && (b.snap ==> Reduced(b, filterStep))
      ensures Valid() && bank == b && fresh(buffer) && stream == [] && emitted == 0
    {
      bank, step := b, filterStep;
      numSamples := b.numTaps * 16;
      buffer := new Frame[b.numTaps * 16](_ => Silence(b));
      inputIndex, outputOffset := b.numTaps, (b.numTaps / 2) as real;
      stream, emitted, shift := [], 0, 0;
    }

    method Reset()
      requires Shaped()
      modifies this, buffer
      ensures Valid() && stream == [] && emitted == 0
    {
      for i := 0 to numSamples
        invariant forall k :: 0 <= k < i ==> buffer[k] == Silence(bank)
        modifies buffer
      {
        buffer[i] := Silence(bank);
      }
      inputIndex, outputOffset := bank.numTaps, (bank.numTaps / 2) as real;
      stream, emitted, shift := [], 0, 0;
    }

    lemma Alignment()
      requires Valid()
      ensures bank.ratio > 0.0 && bank.numTaps == 2 * Half(bank) && inputIndex + shift == bank.numTaps + |stream|
      ensures outputOffset + shift as real == Half(bank) as real + Time(bank.ratio, emitted)
    {
      hide Time, Ready, Tape;
    }

    lemma PositionFacts()
      requires Valid()
      ensures bank.ratio > 0.0
      ensures outputOffset + bank.numTaps as real / 2.0 - inputIndex as real
           == Time(bank.ratio, emitted) - |stream| as real
    {
      hide *;
      Alignment();
      PositionIs(outputOffset, bank.numTaps, Half(bank), inputIndex, shift, |stream|, Time(bank.ratio, emitted));
    }

    /** resampleGetPosition: how far the next output lies beyond the input, in input frames. */
    function Position(): (p: real)
      reads this, buffer
      requires Valid()
      ensures p == Time(bank.ratio, emitted) - |stream| as real
    {
      PositionFacts();
      outputOffset + bank.numTaps as real / 2.0 - inputIndex as real
    }

    /** memmove of the newest filter length to the front of a full buffer. */
    method MoveDown()
      requires Shaped() && Shows() && inputIndex == numSamples
      modifies this`inputIndex, this`outputOffset, this`shift, buffer
      ensures Shows() && inputIndex == bank.numTaps
      ensures shift == old(shift) + (numSamples - bank.numTaps)
      ensures outputOffset == old(outputOffset) - (numSamples - bank.numTaps) as real
    {
      var gap := numSamples - bank.numTaps;
      for i := 0 to bank.numTaps
        invariant forall k :: 0 <= k < i ==> buffer[k] == old(buffer[k + gap])
        invariant forall k :: i <= k < numSamples ==> buffer[k] == old(buffer[k])
        modifies buffer
      {
        buffer[i] := buffer[i + gap];
      }
      outputOffset := outputOffset - gap as real;
      inputIndex := inputIndex - gap;
      shift := shift + gap;
      forall k | 0 <= k < inputIndex ensures buffer[k] == Tape(bank, stream, shift + k) {
        assert buffer[k] == old(buffer[k + gap]);
      }
    }

    /** One input frame; `offset2` is what the outputs of this call have added to the position. */
    method Consume(f: Frame, offset2: real)
      requires Shaped() && Shows() && FramesOf(bank, stream) && |f| == bank.channels
      requires bank.numTaps <= inputIndex && Aligned(outputOffset + offset2)
      requires outputOffset + offset2 >= (inputIndex - Half(bank)) as real
      modifies this`inputIndex, this`outputOffset, this`shift, this`stream, buffer
      ensures Shows() && FramesOf(bank, stream) && bank.numTaps <= inputIndex
      ensures Aligned(outputOffset + offset2) && stream == old(stream) + [f]
      ensures outputOffset + shift as real == old(outputOffset + shift as real)
    {
      if inputIndex == numSamples {
        MoveDown();
      }
      Append(f);
    }

    method Append(f: Frame)
      requires Shows() && inputIndex < buffer.Length
      modifies this`inputIndex, this`stream, buffer
      ensures Shows() && inputIndex == old(inputIndex) + 1 && stream == old(stream) + [f]
    {
      buffer[inputIndex] := f;
      inputIndex := inputIndex + 1;
      stream := stream + [f];
      forall k | 0 <= k < inputIndex ensures buffer[k] == Tape(bank, stream, shift + k) {
        if k < inputIndex - 1 {
          assert Tape(bank, stream, shift + k) == Tape(bank, old(stream), shift + k);
        }
      }
    }

    /** A filter length of the buffer is a window of the stream. */
    lemma BufferWindow(from: nat, p: int)
      requires Shows() && FramesOf(bank, stream) && from + bank.numTaps <= inputIndex
      requires from + shift == p - Half(bank) + 1
      ensures buffer[from..from + bank.numTaps] == Window(bank, stream, p)
    {
      hide Tape;
      var w, v := buffer[from..from + bank.numTaps], Window(bank, stream, p);
      forall k | 0 <= k < bank.numTaps ensures w[k] == v[k] {
        assert w[k] == buffer[from + k];
      }
    }

    /** One output frame, from the taps around `offset` in the buffer. */
    method Produce(offset: real) returns (f: Frame)
      requires Shaped() && Shows() && FramesOf(bank, stream) && Aligned(offset)
      requires offset < (inputIndex - Half(bank)) as real
      ensures f == Output(bank, stream, emitted)
      ensures emitted < Ready(bank.ratio, |stream|)
    {
      hide Subsample, Tape, Ready, Need;
      var at := offset.Floor;
      ghost var t := Time(bank.ratio, emitted);
      WindowInside(bank, offset, inputIndex);
      FloorShift(t, Half(bank) - shift);
      assert offset == t + (Half(bank) - shift) as real;
      WaitsExactly(bank, offset, shift, inputIndex, |stream|, emitted);
      var from := at - Half(bank) + 1;
      var w := buffer[from..from + bank.numTaps];
      BufferWindow(from, Half(bank) + t.Floor);
      f := ComputeFrame(bank, w, offset - at as real);
    }

    /**
     One call: input is taken only when the next output needs it, until the output is full or
     the input is exhausted. Counts follow the closed forms; every output is that of the stream.
     */
    method Process(input: seq<Frame>, numOutput: nat) returns (used: nat, generated: nat, output: seq<Frame>)
      requires Valid() && FramesOf(bank, input)
      modifies this, buffer
      ensures Valid() && used <= |input| && stream == old(stream) + input[..used]
      ensures emitted == old(emitted) + generated
      ensures generated == Generated(bank.ratio, |old(stream)|, old(emitted), |input|, numOutput)
      ensures used == Used(bank.ratio, |old(stream)|, old(emitted), |input|, numOutput)
      ensures |output| == generated && Matches(bank, stream, old(emitted), output)
    {
      ghost var have, first := |stream|, emitted;
      var offset2;
      used, generated, output, offset2 := Convert(input, numOutput);
      outputOffset := outputOffset + offset2;
      if bank.snap {
        SnapAligned(bank, step, emitted, Half(bank) - shift);
        assert outputOffset == Time(bank.ratio, emitted) + (Half(bank) - shift) as real;
        outputOffset := Snap(outputOffset, bank.numFilters);
      }
    }

    /** Everything but the position is as between calls; the position is behind by `offset2`. */
    ghost predicate Running(offset2: real)
      reads this, buffer
    {
      && Shaped() && Shows() && FramesOf(bank, stream)
      && bank.numTaps <= inputIndex
      && Aligned(outputOffset + offset2)
      && emitted <= Ready(bank.ratio, |stream|)
    }

    /** The loop's input branch. */
    method StepIn(f: Frame, offset2: real, ghost have: nat, ghost first: nat, ghost output: seq<Frame>)
      requires Running(offset2) && |f| == bank.channels && have <= |stream|
      requires outputOffset + offset2 >= (inputIndex - Half(bank)) as real
      requires first + |output| == emitted && Matches(bank, stream, first, output)
      modifies this`inputIndex, this`outputOffset, this`shift, this`stream, buffer
      ensures Running(offset2) && stream == old(stream) + [f]
      ensures Matches(bank, stream, first, output)
      ensures outputOffset + shift as real == old(outputOffset + shift as real)
      ensures Frugal(bank.ratio, have, |stream| - have, |output|, emitted, true)
    {
      WaitsExactly(bank, outputOffset + offset2, shift, inputIndex, |stream|, emitted);
      ReadyMono(bank.ratio, |stream|, |stream| + 1);
      MatchesExtend(bank, stream, [f], first, output);
      Consume(f, offset2);
    }

    /** The loop's output branch. */
    method StepOut(offset2: real, ghost have: nat, ghost first: nat, output: seq<Frame>, ghost more: bool)
      returns (longer: seq<Frame>, next2: real)
      requires Running(offset2) && have <= |stream|
      requires Frugal(bank.ratio, have, |stream| - have, |output|, emitted, true)
      requires outputOffset + offset2 < (inputIndex - Half(bank)) as real
      requires first + |output| == emitted && Matches(bank, stream, first, output)
      requires outputOffset + shift as real == Half(bank) as real + Time(bank.ratio, first)
      modifies this`emitted
      ensures Running(next2) && emitted == old(emitted) + 1
      ensures |longer| == |output| + 1 && Matches(bank, stream, first, longer)
      ensures Frugal(bank.ratio, have, |stream| - have, |longer|, emitted, more)
    {
      hide Output, Frugal, Need;
      WaitsExactly(bank, outputOffset + offset2, shift, inputIndex, |stream|, emitted);
      FrugalOutput(bank.ratio, have, |stream| - have, |output|, emitted, more);
      TimeNext(bank.ratio, emitted);
      TimeAdd(bank.ratio, first, |output| + 1);
      MatchesOneMore(bank, stream, first, output);
      var f := Produce(outputOffset + offset2);
      longer := output + [f];
      next2 := |longer| as real / bank.ratio;
      emitted := emitted + 1;
    }

    /** The main loop. */
    method Convert(input: seq<Frame>, numOutput: nat)
      returns (used: nat, generated: nat, output: seq<Frame>, offset2: real)
      requires Valid() && FramesOf(bank, input)
      modifies this, buffer
      ensures Running(offset2)
      ensures used <= |input| && stream == old(stream) + input[..used]
      ensures emitted == old(emitted) + generated
      ensures generated == Generated(bank.ratio, |old(stream)|, old(emitted), |input|, numOutput)
      ensures used == Used(bank.ratio, |old(stream)|, old(emitted), |input|, numOutput)
      ensures |output| == generated && Matches(bank, stream, old(emitted), output)
    {
      hide Output, Generated, Used, Need, Ready;
      ghost var have, first := |stream|, emitted;
      used, generated, output, offset2 := 0, 0, [], 0.0;
      while generated < numOutput
        invariant Running(offset2)
        invariant used <= |input| && stream == old(stream) + input[..used] && |stream| == have + used
        invariant emitted == first + generated && |output| == generated <= numOutput
        invariant outputOffset + shift as real == Half(bank) as real + Time(bank.ratio, first)
        invariant Matches(bank, stream, first, output)
        invariant Frugal(bank.ratio, have, used, generated, emitted, generated < numOutput)
        decreases numOutput - generated, |input| - used
      {
        if outputOffset + offset2 >= (inputIndex - Half(bank)) as real {
          if used == |input| {
            WaitsExactly(bank, outputOffset + offset2, shift, inputIndex, |stream|, emitted);
            StarvedCall(bank.ratio, have, first, |input|, numOutput, generated);
            return;
          }
          StepIn(input[used], offset2, have, first, output);
          used := used + 1;
        } else {
          output, offset2 := StepOut(offset2, have, first, output, generated + 1 < numOutput);
          generated := generated + 1;
        }
      }
      FullCall(bank.ratio, have, first, |input|, numOutput, used);
    }

    /** resampleGetRequiredSamples: a dry run counting the input that `numOutput` outputs need. */
    method GetRequiredSamples(numOutput: nat) returns (used: nat)
      requires Valid()
      ensures used == RequiredFor(bank.ratio, |stream|, emitted, numOutput)
    {
      hide Time, Need, Ready;
      var index: nat, offset, left: nat := inputIndex, outputOffset, numOutput;
      used := 0;
      ghost var have, made: nat, moved: nat := |stream|, 0, shift;
      while left > 0
        invariant bank.numTaps <= index <= numSamples && made + left == numOutput
        invariant DryRun(bank, index, offset, moved, have + used, emitted + made)
        invariant Frugal(bank.ratio, have, used, made, emitted + made, left > 0)
        invariant emitted + made <= Ready(bank.ratio, have + used)
        decreases left, if Need(bank.ratio, emitted + made) > have + used
                        then Need(bank.ratio, emitted + made) - have - used else 0
      {
        WaitsExactly(bank, offset, moved, index, have + used, emitted + made);
        if offset >= (index - Half(bank)) as real {
          if index == numSamples {
            offset := offset - (numSamples - bank.numTaps) as real;
            index := index - (numSamples - bank.numTaps);
            moved := moved + (numSamples - bank.numTaps);
          }
          ReadyMono(bank.ratio, have + used, have + used + 1);
          index, used := index + 1, used + 1;
        } else {
          FrugalOutput(bank.ratio, have, used, made, emitted + made, left > 1);
          TimeNext(bank.ratio, emitted + made);
          offset := offset + 1.0 / bank.ratio;
          left, made := left - 1, made + 1;
        }
      }
      FullCall(bank.ratio, have, emitted, used, numOutput, used);
    }

    /** resampleGetExpectedOutput: a dry run counting the output that `numInput` inputs yield. */
    method GetExpectedOutput(numInput: nat) returns (generated: nat)
      requires Valid()
      ensures generated == ExpectedFrom(bank.ratio, |stream|, emitted, numInput)
    {
      hide Time, Need, Ready;
      var index: nat, offset, left: nat := inputIndex, outputOffset, numInput;
      generated := 0;
      ghost var have, moved: nat := |stream|, shift;
      while true
        invariant bank.numTaps <= index <= numSamples && left <= numInput
        invariant DryRun(bank, index, offset, moved, have + numInput - left, emitted + generated)
        invariant emitted + generated <= Ready(bank.ratio, have + numInput - left)
        decreases left, Ready(bank.ratio, have + numInput - left) - emitted - generated
      {
        WaitsExactly(bank, offset, moved, index, have + numInput - left, emitted + generated);
        if offset >= (index - Half(bank)) as real {
          if left == 0 {
            break;
          }
          if index == numSamples {
            offset := offset - (numSamples - bank.numTaps) as real;
            index := index - (numSamples - bank.numTaps);
            moved := moved + (numSamples - bank.numTaps);
          }
          ReadyMono(bank.ratio, have + numInput - left, have + numInput - left + 1);
          index, left := index + 1, left - 1;
        } else {
          TimeNext(bank.ratio, emitted + generated);
          offset := offset + 1.0 / bank.ratio;
          generated := generated + 1;
        }
      }
    }
  }

  /** The local variables of a dry run stand for `n` inputs and `j` outputs. */
  ghost predicate DryRun(b: Bank, index: nat, offset: real, moved: nat, n: nat, j: nat) {
    && b.ratio > 0.0
    && index + moved == b.numTaps + n
    && offset + moved as real == Half(b) as real + Time(b.ratio, j)
  }

  // --------------------------------------------------- the application's use of the resampler

  function OnePass(b: Bank, s: seq<Frame>): (out: seq<Frame>)
    requires ValidBank(b) && FramesOf(b, s)
    ensures |out| == Ready(b.ratio, |s|)
    ensures forall j :: 0 <= j < |out| ==> out[j] == Output(b, s, j)
  {
    seq(Ready(b.ratio, |s|), j requires 0 <= j < Ready(b.ratio, |s|) => Output(b, s, j))
  }

  datatype Call = Data(input: seq<Frame>, room: nat) | Restart

  /** What a run has consumed and how many frames it has produced since its latest reset. */
  datatype Progress = Progress(consumed: seq<Frame>, produced: nat)

  /** A call takes a beginning of its input. */
  lemma UsedWithin(ratio: real, have: nat, done: nat, m: nat, n: nat)
    requires ratio > 0.0 && done <= Ready(ratio, have)
    ensures Used(ratio, have, done, m, n) <= m
    ensures done + Generated(ratio, have, done, m, n) <= Ready(ratio, have + Used(ratio, have, done, m, n))
  {
    var made := Generated(ratio, have, done, m, n);
    ReadyMono(ratio, have, have + m);
    if made == n > 0 {
      ReadyExact(ratio, have + m, done + n - 1);
      ReadyExact(ratio, have + RequiredFor(ratio, have, done, n), done + n - 1);
    }
  }

  /** The calls alone decide what is consumed and how much is produced. */
  function ProgressOf(b: Bank, calls: seq<Call>): (p: Progress)
    requires b.ratio > 0.0
    ensures p.produced <= Ready(b.ratio, |p.consumed|)
  {
    if calls == [] then Progress([], 0)
    else
      var p, call := ProgressOf(b, calls[..|calls| - 1]), calls[|calls| - 1];
      match call
      case Restart => Progress([], 0)
      case Data(input, room) =>
        UsedWithin(b.ratio, |p.consumed|, p.produced, |input|, room);
        Progress(p.consumed + input[..Used(b.ratio, |p.consumed|, p.produced, |input|, room)],
                 p.produced + Generated(b.ratio, |p.consumed|, p.produced, |input|, room))
  }

  /**
   Any run of calls with any room, and of resets: everything produced since the latest reset is
   the beginning of the one-pass output of what the calls since then have consumed.
   */
  method RunCalls(r: Resampler, calls: seq<Call>) returns (out: seq<Frame>)
    requires r.Valid() && r.stream == [] && r.emitted == 0
    requires forall i :: 0 <= i < |calls| && calls[i].Data? ==> FramesOf(r.bank, calls[i].input)
    modifies r, r.buffer
    ensures r.Valid()
    ensures var p := ProgressOf(r.bank, calls);
            && r.stream == p.consumed && r.emitted == p.produced
            && out == OnePass(r.bank, p.consumed)[..p.produced]
  {
    hide Output, Ready, Generated, Used, ProgressOf;
    out := [];
    RunNone(r.bank);
    for i := 0 to |calls|
      invariant r.Valid() && |out| == r.emitted && Matches(r.bank, r.stream, 0, out)
      invariant Progress(r.stream, r.emitted) == ProgressOf(r.bank, calls[..i])
    {
      RunOne(r.bank, calls, i);
      match calls[i]
      case Restart =>
        r.Reset();
        out := [];
      case Data(input, room) =>
        ghost var before := r.stream;
        var used, generated, more := r.Process(input, room);
        MatchesExtend(r.bank, before, input[..used], 0, out);
        MatchesJoin(r.bank, r.stream, out, more);
        out := out + more;
    }
    assert calls[..|calls|] == calls;
    assert forall j :: 0 <= j < |out| ==> out[j] == Output(r.bank, r.stream, 0 + j);
  }

  lemma RunNone(b: Bank)
    requires b.ratio > 0.0
    ensures ProgressOf(b, []) == Progress([], 0)
  {
  }

  lemma RunOne(b: Bank, calls: seq<Call>, i: nat)
    requires b.ratio > 0.0 && i < |calls|
    ensures var p := ProgressOf(b, calls[..i]);
            match calls[i]
            case Restart => ProgressOf(b, calls[..i + 1]) == Progress([], 0)
            case Data(input, room) =>
              var used := Used(b.ratio, |p.consumed|, p.produced, |input|, room);
              && used <= |input|
              && ProgressOf(b, calls[..i + 1])
                 == Progress(p.consumed + input[..used],
                             p.produced + Generated(b.ratio, |p.consumed|, p.produced, |input|, room))
  {
    hide Used, Generated, Ready;
    assert calls[..i + 1][..i] == calls[..i];
    var p := ProgressOf(b, calls[..i]);
    if calls[i].Data? { UsedWithin(b.ratio, |p.consumed|, p.produced, |calls[i].input|, calls[i].room); }
  }

  lemma MatchesJoin(b: Bank, s: seq<Frame>, out: seq<Frame>, more: seq<Frame>)
    requires ValidBank(b) && FramesOf(b, s) && Matches(b, s, 0, out) && Matches(b, s, |out|, more)
    ensures Matches(b, s, 0, out + more)
  {
    hide Output;
    forall j | 0 <= j < |out + more| ensures (out + more)[j] == Output(b, s, 0 + j) {
      if j >= |out| { assert more[j - |out|] == Output(b, s, |out| + (j - |out|)); }
    }
  }

  /**
   Any sequence of blocks after a reset, each given audio_resample_max_output frames of room:
   every block is consumed whole, the output is that of the stream in one pass, and the
   position ends in [0, 1 / ratio).
   */
  method ResampleBlocks(r: Resampler, blocks: seq<seq<Frame>>) returns (all: seq<Frame>)
    requires r.Shaped() && forall i :: 0 <= i < |blocks| ==> FramesOf(r.bank, blocks[i])
    modifies r, r.buffer
    ensures r.Valid() && r.stream == Concat(blocks)
    ensures all == OnePass(r.bank, r.stream)
    ensures 0.0 <= r.Position() < 1.0 / r.bank.ratio
  {
    r.Reset();
    all := [];
    CeilBounds(0.0);
    for i := 0 to |blocks|
      invariant r.Valid() && r.stream == Concat(blocks[..i])
      invariant r.emitted == Ready(r.bank.ratio, |r.stream|)
      invariant all == OnePass(r.bank, r.stream)
    {
      ghost var before := r.stream;
      var out := ResampleBlock(r, blocks[i]);
      OnePassGrows(r.bank, before, blocks[i], all, out);
      all := all + out;
      assert blocks[..i + 1][..i] == blocks[..i];
    }
    assert blocks[..|blocks|] == blocks;
    CaughtUpPosition(r.bank.ratio, |r.stream|);
  }

  /** One call of audio_resample_process on a caught-up resampler. */
  method ResampleBlock(r: Resampler, block: seq<Frame>) returns (out: seq<Frame>)
    requires r.Valid() && FramesOf(r.bank, block) && r.emitted == Ready(r.bank.ratio, |r.stream|)
    modifies r, r.buffer
    ensures r.Valid() && r.stream == old(r.stream) + block
    ensures r.emitted == Ready(r.bank.ratio, |r.stream|) == old(r.emitted) + |out|
    ensures Matches(r.bank, r.stream, old(r.emitted), out)
  {
    MaxOutputSuffices(r.bank.ratio, |r.stream|, |block|);
    ExpectedIsExact(r.bank.ratio, |r.stream|, r.emitted, |block|, MaxOutput(r.bank.ratio, |block|));
    var used, generated;
    used, generated, out := r.Process(block, MaxOutput(r.bank.ratio, |block|));
    assert block[..|block|] == block;
  }

  lemma OnePassGrows(b: Bank, s: seq<Frame>, t: seq<Frame>, all: seq<Frame>, out: seq<Frame>)
    requires ValidBank(b) && FramesOf(b, s) && FramesOf(b, t) && FramesOf(b, s + t)
    requires all == OnePass(b, s) && Matches(b, s + t, |all|, out)
    requires Ready(b.ratio, |s + t|) == |all| + |out|
    ensures all + out == OnePass(b, s + t)
  {
    hide Output;
    assert Matches(b, s, 0, all);
    MatchesExtend(b, s, t, 0, all);
    var whole := OnePass(b, s + t);
    forall j | 0 <= j < |whole| ensures whole[j] == (all + out)[j] {
      if j >= |all| { assert out[j - |all|] == Output(b, s + t, |all| + (j - |all|)); }
    }
  }
}
