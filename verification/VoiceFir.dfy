/**
 The polyphase voice resampler (components/pogvoice/pogvoice_resample.c) as a
 convolution over an unbounded signal: what output number j is, how many outputs
 n inputs yield, and why neither depends on how the signal was cut into blocks.
 */
module VoiceFir {
  import opened Prelude

  const TAPS := 32
  const PHASES := 32
  const MAX_BLOCK := 160
  const MAX_CAPACITY := 1024
  const UNITY := 32768
  const MIN_RATE := 8000
  const MAX_RATE := 48000

  predicate Int16(x: int) {
    -32768 <= x <= 32767
  }

  ghost predicate AllInt16(s: seq<int>) {
    forall i :: 0 <= i < |s| ==> Int16(s[i])
  }

  predicate RateOk(rate: nat) {
    MIN_RATE <= rate <= MAX_RATE
  }

  /** Rates and one coefficient row per phase, plus the row that closes the last blend. */
  datatype Config = Config(inRate: nat, outRate: nat, rows: seq<seq<int>>)

  ghost predicate ValidConfig(c: Config) {
    && RateOk(c.inRate) && RateOk(c.outRate)
    && |c.rows| == PHASES + 1
    && forall p :: 0 <= p < |c.rows| ==> |c.rows[p]| == TAPS && AllInt16(c.rows[p])
  }

  // ---------------------------------------------------------------- the signal

  /** The unbounded signal: silence before the first sample. */
  function At(s: seq<int>, n: int): int {
    if 0 <= n < |s| then s[n] else 0
  }

  /** The first `m` taps of the convolution of `row` with the signal around `n`. */
  function Convolve(row: seq<int>, s: seq<int>, n: int, m: nat): int
    requires m <= |row|
  {
    if m == 0 then 0
    else Convolve(row, s, n, m - 1) + At(s, n - (m - 1)) * row[m - 1]
  }

  function Clip16(v: int): (r: int)
    ensures Int16(r)
    ensures Int16(v) ==> r == v
  {
    if v > 32767 then 32767 else if v < -32768 then -32768 else v
  }

  /** Weighted mean of two Q15 accumulators, rounded to nearest by the arithmetic shift. */
  function Mix(a: int, b: int, blend: nat): int
    requires blend <= 256
  {
    (a * (256 - blend) + b * blend + 0x40_0000) / 0x80_0000
  }

  function PhaseIndex(c: Config, phase: nat): nat
    requires 0 < c.outRate
  {
    phase * PHASES / c.outRate
  }

  function BlendOf(c: Config, phase: nat): nat
    requires 0 < c.outRate
  {
    (phase * PHASES) % c.outRate * 256 / c.outRate
  }

  lemma PhaseBounds(c: Config, phase: nat)
    requires 0 < c.outRate && phase < c.outRate
    ensures PhaseIndex(c, phase) < PHASES
    ensures BlendOf(c, phase) < 256
  {
    DivBelow(phase * PHASES, c.outRate, PHASES);
    DivBelow((phase * PHASES) % c.outRate * 256, c.outRate, 256);
  }

  lemma DivBelow(x: nat, d: nat, q: nat)
    requires 0 < d && x < q * d
    ensures x / d < q
  {
    assert x == x / d * d + x % d;
    if x / d >= q { MulMono(q, x / d, d); }
  }

  /** The value of an output lying `phase` of `c.outRate` parts after sample `n`. */
  function ValueAt(c: Config, s: seq<int>, n: int, phase: nat): int
    requires ValidConfig(c) && phase < c.outRate
  {
    PhaseBounds(c, phase);
    var p := PhaseIndex(c, phase);
    Clip16(Mix(Convolve(c.rows[p], s, n, TAPS), Convolve(c.rows[p + 1], s, n, TAPS), BlendOf(c, phase)))
  }

  /** Output number `j`: it lies at input time j * inRate / outRate. */
  function Sample(c: Config, s: seq<int>, j: nat): int
    requires ValidConfig(c)
  {
    ValueAt(c, s, j * c.inRate / c.outRate, j * c.inRate % c.outRate)
  }

  function Samples(c: Config, s: seq<int>, from: nat, to: nat): (r: seq<int>)
    requires ValidConfig(c) && from <= to
    ensures |r| == to - from
    ensures forall i :: 0 <= i < |r| ==> r[i] == Sample(c, s, from + i)
  {
    seq(to - from, i requires 0 <= i < to - from => Sample(c, s, from + i))
  }

  // --------------------------------------------- what an output is, sample by sample

  /** The weight that a row gives to a sample `d` places back. */
  function Tap(row: seq<int>, d: int): int {
    if 0 <= d < |row| then row[d] else 0
  }

  /** What the first `m` samples of the signal contribute at time `n`. */
  function Response(row: seq<int>, s: seq<int>, n: int, m: nat): int
    requires m <= |s|
  {
    if m == 0 then 0 else Response(row, s, n, m - 1) + s[m - 1] * Tap(row, n - (m - 1))
  }

  lemma {:induction false} ResponsePrefix(row: seq<int>, s: seq<int>, x: int, n: int, m: nat)
    requires m <= |s|
    ensures Response(row, s + [x], n, m) == Response(row, s, n, m)
  {
    if m > 0 { ResponsePrefix(row, s, x, n, m - 1); }
  }

  /** One more sample is seen by exactly one tap, or by none. */
  lemma {:induction false} ConvolveAppend(row: seq<int>, s: seq<int>, x: int, n: int, m: nat)
    requires m <= |row|
    ensures Convolve(row, s + [x], n, m)
         == Convolve(row, s, n, m) + if 0 <= n - |s| < m then x * row[n - |s|] else 0
  {
    if m > 0 {
      ConvolveAppend(row, s, x, n, m - 1);
      var k := n - (m - 1);
      assert At(s + [x], k) == At(s, k) + if k == |s| then x else 0;
    }
  }

  lemma {:induction false} ConvolveNothing(row: seq<int>, n: int, m: nat)
    requires m <= |row|
    ensures Convolve(row, [], n, m) == 0
  {
    if m > 0 { ConvolveNothing(row, n, m - 1); }
  }

  /** Summing over the taps is summing over the samples. */
  lemma {:induction false} ConvolveIsResponse(row: seq<int>, s: seq<int>, n: int)
    ensures Convolve(row, s, n, |row|) == Response(row, s, n, |s|)
  {
    if s == [] {
      ConvolveNothing(row, n, |row|);
    } else {
      var rest, x := s[..|s| - 1], s[|s| - 1];
      assert s == rest + [x];
      ConvolveIsResponse(row, rest, n);
      ConvolveAppend(row, rest, x, n, |row|);
      ResponsePrefix(row, rest, x, n, |rest|);
    }
  }

  /** A single sample comes out weighted by the tap that it has reached. */
  lemma {:induction false} ImpulseResponse(row: seq<int>, s: seq<int>, n: int, i: nat, m: nat)
    requires i < |s| && m <= |s| && forall k :: 0 <= k < |s| && k != i ==> s[k] == 0
    ensures Response(row, s, n, m) == if i < m then s[i] * Tap(row, n - i) else 0
  {
    if m > 0 { ImpulseResponse(row, s, n, i, m - 1); }
  }

  /** `v` is the 16-bit integer nearest to x / 2^23, halves rounded up. */
  predicate NearestTo(v: int, x: int) {
    && Int16(v)
    && (v > -32768 ==> 0x80_0000 * v <= x + 0x40_0000)
    && (v < 32767 ==> x + 0x40_0000 < 0x80_0000 * (v + 1))
  }

  lemma NearestUnique(u: int, v: int, x: int)
    requires NearestTo(u, x) && NearestTo(v, x)
    ensures u == v
  {
  }

  /** Where an output lies: `f` of outRate parts after sample `n`, `r` parts after phase `p`, `w` of 256 steps on. */
  predicate LiesAt(c: Config, j: nat, n: nat, f: nat, p: nat, r: nat, w: nat) {
    && n * c.outRate + f == j * c.inRate && f < c.outRate
    && p * c.outRate + r == f * PHASES && r < c.outRate
    && w * c.outRate <= r * 256 < (w + 1) * c.outRate
  }

  /**
   An output is the 16-bit value nearest to the responses of the two rows around its phase, the
   first weighted by 256 - w and the second by w.
   */
  lemma SampleExactly(c: Config, s: seq<int>, j: nat, n: nat, f: nat, p: nat, r: nat, w: nat)
    requires ValidConfig(c) && LiesAt(c, j, n, f, p, r, w)
    ensures p < PHASES && w < 256
    ensures var a, b := Response(c.rows[p], s, n, |s|), Response(c.rows[p + 1], s, n, |s|);
            NearestTo(Sample(c, s, j), a * (256 - w) + b * w)
  {
    PlaceIs(c, j, n, f, p, r, w);
    PhaseBounds(c, f);
    ConvolveIsResponse(c.rows[p], s, n);
    ConvolveIsResponse(c.rows[p + 1], s, n);
    MixNearest(Convolve(c.rows[p], s, n, TAPS), Convolve(c.rows[p + 1], s, n, TAPS), w);
  }

  lemma MixNearest(a: int, b: int, w: nat)
    requires w <= 256
    ensures NearestTo(Clip16(Mix(a, b, w)), a * (256 - w) + b * w)
  {
    var x := a * (256 - w) + b * w;
    var y := x + 0x40_0000;
    assert y == y / 0x80_0000 * 0x80_0000 + y % 0x80_0000;
  }

  lemma PlaceIs(c: Config, j: nat, n: nat, f: nat, p: nat, r: nat, w: nat)
    requires 0 < c.outRate && LiesAt(c, j, n, f, p, r, w)
    ensures j * c.inRate / c.outRate == n && j * c.inRate % c.outRate == f
    ensures PhaseIndex(c, f) == p && BlendOf(c, f) == w
  {
    ModUnique(n, f, c.outRate);
    ModUnique(p, r, c.outRate);
    assert (w + 1) * c.outRate == w * c.outRate + c.outRate;
    ModUnique(w, r * 256 - w * c.outRate, c.outRate);
  }

  /** Every output lies somewhere. */
  lemma PlaceOf(c: Config, j: nat) returns (n: nat, f: nat, p: nat, r: nat, w: nat)
    requires 0 < c.outRate
    ensures LiesAt(c, j, n, f, p, r, w)
  {
    n, f := j * c.inRate / c.outRate, j * c.inRate % c.outRate;
    p, r := f * PHASES / c.outRate, f * PHASES % c.outRate;
    w := r * 256 / c.outRate;
    assert r * 256 == w * c.outRate + r * 256 % c.outRate;
    assert (w + 1) * c.outRate == w * c.outRate + c.outRate;
  }

  /** At a phase of its own, a row alone decides. */
  lemma OnPhase(c: Config, s: seq<int>, j: nat, n: nat, f: nat, p: nat)
    requires ValidConfig(c) && LiesAt(c, j, n, f, p, 0, 0)
    ensures p < PHASES
    ensures NearestTo(Sample(c, s, j), 256 * Response(c.rows[p], s, n, |s|))
  {
    SampleExactly(c, s, j, n, f, p, 0, 0);
  }

  /** Between two phases, the output lies between the two rows' values, and on the side of the nearer one. */
  lemma BetweenPhases(c: Config, s: seq<int>, j: nat, n: nat, f: nat, p: nat, r: nat, w: nat, u: int, mid: int, v: int)
    requires ValidConfig(c) && LiesAt(c, j, n, f, p, r, w) && p < PHASES
    requires var a, b := Response(c.rows[p], s, n, |s|), Response(c.rows[p + 1], s, n, |s|);
             NearestTo(u, 256 * a) && NearestTo(mid, 128 * (a + b)) && NearestTo(v, 256 * b)
    ensures 2 * r < c.outRate ==> u <= Sample(c, s, j) <= mid || mid <= Sample(c, s, j) <= u
    ensures 2 * r >= c.outRate ==> mid <= Sample(c, s, j) <= v || v <= Sample(c, s, j) <= mid
  {
    var a, b := Response(c.rows[p], s, n, |s|), Response(c.rows[p + 1], s, n, |s|);
    hide *;
    SampleExactly(c, s, j, n, f, p, r, w);
    var x := a * (256 - w) + b * w;
    SideOf(c, j, n, f, p, r, w);
    WeightOrder(a, b, w);
    NearestMono(u, Sample(c, s, j), 256 * a, x);
    NearestMono(mid, Sample(c, s, j), 128 * (a + b), x);
    NearestMono(v, Sample(c, s, j), 256 * b, x);
  }

  lemma SideOf(c: Config, j: nat, n: nat, f: nat, p: nat, r: nat, w: nat)
    requires ValidConfig(c) && LiesAt(c, j, n, f, p, r, w)
    ensures if 2 * r < c.outRate then w < 128 else 128 <= w < 256
  {
    HalfWay(r, w, c.outRate);
  }

  lemma HalfWay(r: nat, w: nat, d: nat)
    requires 0 < d && w * d <= r * 256 < (w + 1) * d && r < d
    ensures 2 * r < d ==> w < 128
    ensures 2 * r >= d ==> 128 <= w < 256
  {
    if 2 * r < d && w >= 128 { MulMono(128, w, d); }
    if 2 * r >= d && w < 128 { MulMono(w + 1, 128, d); }
    if w >= 256 { MulMono(256, w, d); }
  }

  /** The weighted sum lies between the first value and the mean, or between the mean and the second. */
  lemma WeightOrder(a: int, b: int, w: nat)
    requires w < 256
    ensures var x, m := a * (256 - w) + b * w, 128 * (a + b);
            if w < 128 then 256 * a <= x <= m || m <= x <= 256 * a else m <= x <= 256 * b || 256 * b <= x <= m
  {
    var x, e := a * (256 - w) + b * w, b - a;
    assert x == 256 * a + e * w == 128 * (a + b) + e * (w - 128) == 256 * b - e * (256 - w);
    var d: nat := if e >= 0 then e else -e;
    MulMono(0, w, d);
    MulMono(w, 256, d);
    if w < 128 { MulMono(w, 128, d); } else { MulMono(128, w, d); }
  }

  lemma NearestMono(u: int, v: int, x: int, y: int)
    requires NearestTo(u, x) && NearestTo(v, y)
    ensures x <= y ==> u <= v
    ensures y <= x ==> v <= u
  {
  }

  // ------------------------------------------------------------ counting outputs

  function CeilDiv(a: nat, d: nat): nat
    requires 0 < d
  {
    (a + d - 1) / d
  }

  lemma CeilDivIs(a: nat, d: nat, q: nat)
    requires 0 < d
    requires (q - 1) * d < a <= q * d
    ensures CeilDiv(a, d) == q
  {
    var r := CeilDiv(a, d);
    assert a + d - 1 == r * d + (a + d - 1) % d;
    if r < q { MulMono(r, q - 1, d); }
    if r > q { MulMono(q + 1, r, d); }
  }

  lemma CeilDivBounds(a: nat, d: nat)
    requires 0 < d
    ensures (CeilDiv(a, d) - 1) * d < a <= CeilDiv(a, d) * d
  {
    var r := CeilDiv(a, d);
    assert a + d - 1 == r * d + (a + d - 1) % d;
  }

  /** How many outputs the first `n` inputs yield. */
  function Produced(c: Config, n: nat): nat
    requires 0 < c.inRate
  {
    CeilDiv(n * c.outRate, c.inRate)
  }

  /** What the phase accumulator holds once `n` inputs have been consumed. */
  function PhaseAfter(c: Config, n: nat): (phase: nat)
    requires 0 < c.inRate
    ensures phase < c.inRate
  {
    CeilDivBounds(n * c.outRate, c.inRate);
    Produced(c, n) * c.inRate - n * c.outRate
  }

  /** Output `j` exists after `n` inputs exactly when its time lies before sample `n`. */
  lemma ProducedExact(c: Config, n: nat, j: nat)
    requires 0 < c.inRate && 0 < c.outRate
    ensures j < Produced(c, n) <==> j * c.inRate / c.outRate < n
  {
    var p := Produced(c, n);
    var x := j * c.inRate;
    CeilDivBounds(n * c.outRate, c.inRate);
    assert x == x / c.outRate * c.outRate + x % c.outRate;
    if j < p {
      MulMono(j, p - 1, c.inRate);
      if x / c.outRate >= n { MulMono(n, x / c.outRate, c.outRate); }
    } else {
      MulMono(p, j, c.inRate);
      if x / c.outRate < n { MulMono(x / c.outRate + 1, n, c.outRate); }
    }
  }

  /** The count the code computes before touching any state. */
  function Required(c: Config, phase: nat, count: nat): nat
    requires 0 < c.inRate
  {
    var span := count * c.outRate;
    if span > phase then (span - phase + c.inRate - 1) / c.inRate else 0
  }

  lemma RequiredExact(c: Config, n: nat, count: nat)
    requires 0 < c.inRate
    ensures Required(c, PhaseAfter(c, n), count) == Produced(c, n + count) - Produced(c, n)
  {
    var m, phase, span := Produced(c, n), PhaseAfter(c, n), count * c.outRate;
    var x := Required(c, phase, count);
    CeilDivBounds(n * c.outRate, c.inRate);
    assert (n + count) * c.outRate == n * c.outRate + span;
    if span > phase {
      CeilDivBounds(span - phase, c.inRate);
      assert (m + x) * c.inRate == m * c.inRate + x * c.inRate;
      assert (m + x - 1) * c.inRate == m * c.inRate + (x - 1) * c.inRate;
      CeilDivIs((n + count) * c.outRate, c.inRate, m + x);
    } else {
      CeilDivIs((n + count) * c.outRate, c.inRate, m);
    }
  }

  lemma CeilDivSubadditive(a: nat, b: nat, d: nat)
    requires 0 < d
    ensures CeilDiv(a, d) <= CeilDiv(a + b, d) <= CeilDiv(a, d) + CeilDiv(b, d)
  {
    var x, y, z := CeilDiv(a, d), CeilDiv(b, d), CeilDiv(a + b, d);
    CeilDivBounds(a, d);
    CeilDivBounds(b, d);
    CeilDivBounds(a + b, d);
    if z < x { MulMono(z, x - 1, d); }
    assert (x + y) * d == x * d + y * d;
    if z > x + y { MulMono(x + y, z - 1, d); }
  }

  /** From any point of the stream, `count` inputs yield at most ceil(count * out / in) outputs. */
  lemma ProducedBound(c: Config, n: nat, count: nat)
    requires 0 < c.inRate
    ensures 0 <= Produced(c, n + count) - Produced(c, n) <= CeilDiv(count * c.outRate, c.inRate)
  {
    assert (n + count) * c.outRate == n * c.outRate + count * c.outRate;
    CeilDivSubadditive(n * c.outRate, count * c.outRate, c.inRate);
  }

  /** The 1024-sample buffers of a voice turn hold the output of every admissible block. */
  lemma ConversationBufferSuffices(c: Config, n: nat, count: nat)
    requires RateOk(c.inRate) && RateOk(c.outRate) && count <= MAX_BLOCK
    ensures Produced(c, n + count) - Produced(c, n) <= 960 < MAX_CAPACITY
  {
    ProducedBound(c, n, count);
    var x := CeilDiv(count * c.outRate, c.inRate);
    CeilDivBounds(count * c.outRate, c.inRate);
    MulMono(count, MAX_BLOCK, c.outRate);
    if x > 960 { MulMono(960, x - 1, c.inRate); }
  }

  // ------------------------------------------------------- independence of blocks

  lemma {:induction false} ConvolveCausal(row: seq<int>, s: seq<int>, t: seq<int>, n: int, m: nat)
    requires m <= |row| && n < |s|
    ensures Convolve(row, s + t, n, m) == Convolve(row, s, n, m)
  {
    if m > 0 {
      ConvolveCausal(row, s, t, n, m - 1);
      assert At(s + t, n - (m - 1)) == At(s, n - (m - 1));
    }
  }

  /** Later input never changes an output that has already been emitted. */
  lemma SampleCausal(c: Config, s: seq<int>, t: seq<int>, j: nat)
    requires ValidConfig(c) && j < Produced(c, |s|)
    ensures Sample(c, s + t, j) == Sample(c, s, j)
  {
    ProducedExact(c, |s|, j);
    var n, phase := j * c.inRate / c.outRate, j * c.inRate % c.outRate;
    PhaseBounds(c, phase);
    var p := PhaseIndex(c, phase);
    ConvolveCausal(c.rows[p], s, t, n, TAPS);
    ConvolveCausal(c.rows[p + 1], s, t, n, TAPS);
  }

  /** The whole output of a signal taken in one pass. */
  function OnePass(c: Config, s: seq<int>): seq<int>
    requires ValidConfig(c)
  {
    Samples(c, s, 0, Produced(c, |s|))
  }

  /** What a streaming resampler emits for each block in turn, given all blocks before it. */
  function Blockwise(c: Config, blocks: seq<seq<int>>): seq<int>
    requires ValidConfig(c)
  {
    if blocks == [] then []
    else
      var before := Concat(blocks[..|blocks| - 1]);
      var after := before + blocks[|blocks| - 1];
      ProducedBound(c, |before|, |blocks[|blocks| - 1]|);
      Blockwise(c, blocks[..|blocks| - 1]) + Samples(c, after, Produced(c, |before|), Produced(c, |after|))
  }

  lemma OnePassExtends(c: Config, s: seq<int>, t: seq<int>)
    requires ValidConfig(c)
    ensures Produced(c, |s|) <= Produced(c, |s + t|)
    ensures OnePass(c, s + t) == OnePass(c, s) + Samples(c, s + t, Produced(c, |s|), Produced(c, |s + t|))
  {
    ProducedBound(c, |s|, |t|);
    var k := Produced(c, |s|);
    forall j | 0 <= j < k ensures OnePass(c, s + t)[j] == OnePass(c, s)[j] {
      SampleCausal(c, s, t, j);
    }
  }

  /** Any cut of a signal into blocks yields the one-pass output of the whole signal. */
  lemma {:induction false} BlockwiseIsOnePass(c: Config, blocks: seq<seq<int>>)
    requires ValidConfig(c)
    ensures Blockwise(c, blocks) == OnePass(c, Concat(blocks))
    ensures |Blockwise(c, blocks)| == CeilDiv(|Concat(blocks)| * c.outRate, c.inRate)
  {
    if blocks == [] {
      CeilDivIs(0, c.inRate, 0);
    } else {
      BlockwiseIsOnePass(c, blocks[..|blocks| - 1]);
      OnePassExtends(c, Concat(blocks[..|blocks| - 1]), blocks[|blocks| - 1]);
    }
  }

  // ------------------------------------------------------------ numeric guarantees

  function Sum(row: seq<int>, m: nat): int
    requires m <= |row|
  {
    if m == 0 then 0 else Sum(row, m - 1) + row[m - 1]
  }

  lemma {:induction false} ConvolveConstant(row: seq<int>, s: seq<int>, n: int, m: nat, v: int)
    requires m <= |row|
    requires forall k :: n - m < k <= n ==> At(s, k) == v
    ensures Convolve(row, s, n, m) == v * Sum(row, m)
  {
    if m > 0 {
      ConvolveConstant(row, s, n, m - 1, v);
      assert At(s, n - (m - 1)) == v;
      assert v * Sum(row, m) == v * Sum(row, m - 1) + v * row[m - 1];
    }
  }

  /** Unity gain: a signal constant over the window comes out unchanged at every phase and blend. */
  lemma ConstantPreserved(c: Config, s: seq<int>, j: nat, v: int)
    requires ValidConfig(c) && Int16(v)
    requires forall p :: 0 <= p < |c.rows| ==> Sum(c.rows[p], TAPS) == UNITY
    requires var n := j * c.inRate / c.outRate; forall k :: n - TAPS < k <= n ==> At(s, k) == v
    ensures Sample(c, s, j) == v
  {
    var n, phase := j * c.inRate / c.outRate, j * c.inRate % c.outRate;
    PhaseBounds(c, phase);
    var p, blend := PhaseIndex(c, phase), BlendOf(c, phase);
    ConvolveConstant(c.rows[p], s, n, TAPS, v);
    ConvolveConstant(c.rows[p + 1], s, n, TAPS, v);
    var u := v * UNITY;
    assert u * (256 - blend) + u * blend == u * 256;
    assert Mix(u, u, blend) == v;
  }

  lemma {:induction false} ConvolveBounded(row: seq<int>, s: seq<int>, n: int, m: nat)
    requires m <= |row| && AllInt16(row) && AllInt16(s)
    ensures -(0x4000_0000 * m) <= Convolve(row, s, n, m) <= 0x4000_0000 * m
  {
    if m > 0 {
      ConvolveBounded(row, s, n, m - 1);
      ProductBounded(At(s, n - (m - 1)), row[m - 1]);
    }
  }

  lemma ProductBounded(x: int, y: int)
    requires Int16(x) && Int16(y)
    ensures -0x4000_0000 <= x * y <= 0x4000_0000
  {
    if x >= 0 { MulBetween(y, -32768, 32767, x); } else { MulBetween(-y, -32767, 32768, -x); }
  }

  lemma MulBetween(y: int, lo: int, hi: int, x: nat)
    requires lo <= y <= hi && x <= 32768 && lo <= 0 <= hi
    ensures lo * 32768 <= y * x <= hi * 32768
  {
    MulMono(lo, y, x);
    MulMono(y, hi, x);
    MulMono(0, -lo, 32768 - x);
    MulMono(0, hi, 32768 - x);
  }

  /** Blending two accumulators of 32 taps stays far inside 64 bits. */
  lemma MixBounded(a: int, b: int, blend: nat)
    requires blend <= 256
    requires -0x8_0000_0000 <= a <= 0x8_0000_0000 && -0x8_0000_0000 <= b <= 0x8_0000_0000
    ensures -0x800_0000_0000 <= a * (256 - blend) + b * blend <= 0x800_0000_0000
  {
    MulMono(a, 0x8_0000_0000, 256 - blend);
    MulMono(-0x8_0000_0000, a, 256 - blend);
    MulMono(b, 0x8_0000_0000, blend);
    MulMono(-0x8_0000_0000, b, blend);
  }
}
