/**
 The filter bank of the ART resampler: how a position selects a filter, and why reducing the
 bank to dest / gcd(source, dest) filters makes interpolation between filters unnecessary
 (components/audio-resampler/resampler.c, main/audio/audio_resample.c).
 */
module ArtFilters {
  import opened Prelude
  import opened ArtClock

  /** One sample per channel. */
  type Frame = seq<real>

  /** The immutable part of a resampler context; `filters` are abstract rows of taps. */
  datatype Bank = Bank(channels: nat, numTaps: nat, numFilters: nat, ratio: real,
                       interpolate: bool, lowpass: bool, snap: bool, filters: seq<seq<real>>)

  ghost predicate ValidBank(b: Bank) {
    && 0 < b.numTaps <= 1024 && b.numTaps % 4 == 0
    && 1 <= b.numFilters <= 1024
    && b.ratio > 0.0
    && |b.filters| == b.numFilters + 1
    && forall i :: 0 <= i < |b.filters| ==> |b.filters[i]| == b.numTaps
  }

  function Half(b: Bank): nat {
    b.numTaps / 2
  }

  ghost predicate WindowOf(b: Bank, w: seq<Frame>) {
    |w| == b.numTaps && forall k :: 0 <= k < |w| ==> |w[k]| == b.channels
  }

  // -------------------------------------------------------------- the two subsamplers

  /** The first `m` products of a filter with one channel of the window. */
  function Dot(row: seq<real>, w: seq<Frame>, c: nat, m: nat): real
    requires m <= |row| && m <= |w| && forall k :: 0 <= k < |w| ==> c < |w[k]|
  {
    if m == 0 then 0.0 else Dot(row, w, c, m - 1) + row[m - 1] * w[m - 1][c]
  }

  /** The loop of apply_filter. */
  method ApplyFilter(row: seq<real>, w: seq<Frame>, c: nat) returns (sum: real)
    requires |row| <= |w| && forall k :: 0 <= k < |w| ==> c < |w[k]|
    ensures sum == Dot(row, w, c, |row|)
  {
    sum := 0.0;
    for i := 0 to |row|
      invariant sum == Dot(row, w, c, i)
    {
      sum := sum + row[i] * w[i][c];
    }
  }

  function Scaled(x: real, n: nat): real {
    x * n as real
  }

  lemma ScaledBounds(frac: real, n: nat)
    requires 0.0 <= frac < 1.0 && n >= 1
    ensures 0.0 <= Scaled(frac, n) < n as real
  {
    MulOrder(frac, 1.0, n as real);
    if frac > 0.0 { MulOrder(0.0, frac, n as real); }
  }

  lemma FloorWithin(x: real, n: nat)
    requires 0.0 <= x < n as real
    ensures 0 <= x.Floor < n && 0 <= (x + 0.5).Floor <= n
  {
    FloorBounds(x);
    FloorBounds(x + 0.5);
  }

  /** Index of the nearest filter for a fractional position. */
  function Nearest(b: Bank, frac: real): (fi: nat)
    requires 1 <= b.numFilters && 0.0 <= frac < 1.0
    ensures fi <= b.numFilters
  {
    ScaledBounds(frac, b.numFilters);
    FloorWithin(Scaled(frac, b.numFilters), b.numFilters);
    (Scaled(frac, b.numFilters) + 0.5).Floor
  }

  /** Index of the filter at or below a fractional position. */
  function Below(b: Bank, frac: real): (fi: nat)
    requires 1 <= b.numFilters && 0.0 <= frac < 1.0
    ensures fi < b.numFilters
  {
    ScaledBounds(frac, b.numFilters);
    FloorWithin(Scaled(frac, b.numFilters), b.numFilters);
    Scaled(frac, b.numFilters).Floor
  }

  /** One filter alone; without lowpass the first and last filters are the sample itself. */
  function Pick(b: Bank, w: seq<Frame>, fi: nat, c: nat): real
    requires ValidBank(b) && WindowOf(b, w) && fi <= b.numFilters && c < b.channels
  {
    if !b.lowpass && fi % b.numFilters == 0 then
      w[Half(b) - 1 + if fi == 0 then 0 else 1][c]
    else Dot(b.filters[fi], w, c, b.numTaps)
  }

  /** Two neighbouring filters, weighted. */
  function Blend(b: Bank, w: seq<Frame>, fi: nat, rest: real, c: nat): real
    requires ValidBank(b) && WindowOf(b, w) && fi < b.numFilters && c < b.channels
  {
    Dot(b.filters[fi], w, c, b.numTaps) * (1.0 - rest) + Dot(b.filters[fi + 1], w, c, b.numTaps) * rest
  }

  /** How far a fractional position lies behind the filter below it. */
  function Rest(b: Bank, frac: real): real
    requires 1 <= b.numFilters && 0.0 <= frac < 1.0
  {
    Scaled(frac, b.numFilters) - Below(b, frac) as real
  }

  /** subsample_no_interpolate and subsample_interpolate on the window around the position. */
  function SampleAt(b: Bank, w: seq<Frame>, frac: real, interpolate: bool, c: nat): real
    requires ValidBank(b) && WindowOf(b, w) && 0.0 <= frac < 1.0 && c < b.channels
  {
    if interpolate
    then Blend(b, w, Below(b, frac), Rest(b, frac), c)
    else Pick(b, w, Nearest(b, frac), c)
  }

  function Subsample(b: Bank, w: seq<Frame>, frac: real, interpolate: bool): (f: Frame)
    requires ValidBank(b) && WindowOf(b, w) && 0.0 <= frac < 1.0
    ensures |f| == b.channels
    ensures forall c :: 0 <= c < |f| ==> f[c] == SampleAt(b, w, frac, interpolate, c)
  {
    seq(b.channels, c requires 0 <= c < b.channels => SampleAt(b, w, frac, interpolate, c))
  }

  /** The chosen subsampler on one channel. */
  method ComputeSample(b: Bank, w: seq<Frame>, frac: real, c: nat) returns (v: real)
    requires ValidBank(b) && WindowOf(b, w) && 0.0 <= frac < 1.0 && c < b.channels
    ensures v == SampleAt(b, w, frac, b.interpolate, c)
  {
    hide Dot;
    if b.interpolate {
      var fi := Below(b, frac);
      var rest := frac * b.numFilters as real - fi as real;
      var lo := ApplyFilter(b.filters[fi], w, c);
      var hi := ApplyFilter(b.filters[fi + 1], w, c);
      v := lo * (1.0 - rest) + hi * rest;
    } else {
      var fi := Nearest(b, frac);
      if !b.lowpass && fi % b.numFilters == 0 {
        v := w[Half(b) - 1 + if fi == 0 then 0 else 1][c];
      } else {
        v := ApplyFilter(b.filters[fi], w, c);
      }
    }
  }

  /** One output frame, channel by channel. */
  method ComputeFrame(b: Bank, w: seq<Frame>, frac: real) returns (f: Frame)
    requires ValidBank(b) && WindowOf(b, w) && 0.0 <= frac < 1.0
    ensures f == Subsample(b, w, frac, b.interpolate)
  {
    hide SampleAt;
    f := [];
    for c := 0 to b.channels
      invariant |f| == c && forall i :: 0 <= i < c ==> f[i] == SampleAt(b, w, frac, b.interpolate, i)
    {
      var v := ComputeSample(b, w, frac, c);
      f := f + [v];
    }
  }

  // ---------------------------------------------------------- greatest common divisor

  predicate Divides(d: nat, n: nat)
    requires d > 0
  {
    n % d == 0
  }

  ghost predicate IsGcd(g: nat, a: nat, b: nat) {
    g > 0 && Divides(g, a) && Divides(g, b) && forall d: nat :: d > 0 && Divides(d, a) && Divides(d, b) ==> d <= g
  }

  /** A common divisor of b and a % b is one of a and b, and conversely. */
  lemma EuclidStep(a: nat, b: nat, d: nat)
    requires b > 0 && d > 0 && Divides(d, b)
    ensures Divides(d, a) <==> Divides(d, a % b)
  {
    var k := b / d;
    assert a == a / b * (k * d) + a % b;
    assert a == (a / b * k) * d + a % b;
    ModCancel(a / b * k, a % b, d);
  }

  lemma ModCancel(q: int, r: int, d: nat)
    requires d > 0
    ensures (q * d + r) % d == r % d
  {
    assert q * d + r == (q + r / d) * d + r % d;
    ModUnique(q + r / d, r % d, d);
  }

  /** gcd as the resampler computes it. */
  method Gcd(a0: nat, b0: nat) returns (a: nat)
    requires a0 > 0 || b0 > 0
    ensures IsGcd(a, a0, b0)
  {
    var b: nat := b0;
    a := a0;
    while b != 0
      invariant a > 0 || b > 0
      invariant forall d: nat :: d > 0 ==> (Divides(d, a0) && Divides(d, b0) <==> Divides(d, a) && Divides(d, b))
      decreases b
    {
      forall d: nat | d > 0 && Divides(d, b) ensures Divides(d, a) <==> Divides(d, a % b) {
        EuclidStep(a, b, d);
      }
      var t := a % b;
      a := b;
      b := t;
    }
    assert Divides(a, a) && Divides(a, 0);
    forall d: nat | d > 0 && Divides(d, a) ensures d <= a {
      DivisorBound(d, a);
    }
  }

  lemma DivisorBound(d: nat, n: nat)
    requires d > 0 && n > 0 && Divides(d, n)
    ensures d <= n && n / d > 0 && n / d * d == n
  {
    assert n == n / d * d + n % d;
    if n / d > 0 { MulMono(1, n / d, d); } else { MulMono(n / d, 0, d); }
  }

  predicate PowerOfTwo(n: nat) {
    n == 1 || (n > 1 && n % 2 == 0 && PowerOfTwo(n / 2))
  }

  function Pow2(k: nat): (n: nat)
    ensures n >= 1
  {
    if k == 0 then 1 else 2 * Pow2(k - 1)
  }

  /** The powers of two are those that halving brings down to one. */
  lemma {:induction false} PowerOfTwoIs(n: nat) returns (k: nat)
    requires PowerOfTwo(n)
    ensures n == Pow2(k)
  {
    if n == 1 {
      k := 0;
    } else {
      k := PowerOfTwoIs(n / 2);
      k := k + 1;
    }
  }

  lemma {:induction false} IsPowerOfTwo(k: nat)
    ensures PowerOfTwo(Pow2(k))
  {
    if k > 0 { IsPowerOfTwo(k - 1); }
  }

  // ------------------------------------------------------------------ filter reduction

  /**
   The filter count, interpolation and snapping that resampleFixedRatioInit settles on: with
   room for dest / gcd filters the bank is reduced and every output falls on a filter.
   */
  method ReduceFilters(source: nat, dest: nat, maxFilters: nat, noReduction: bool, wantInterpolation: bool)
    returns (numFilters: nat, interpolate: bool, snap: bool, g: nat)
    requires source > 0 && dest > 0
    ensures IsGcd(g, source, dest) && dest / g * g == dest && source / g * g == source && source / g > 0
    ensures if !noReduction && dest / g <= maxFilters
            then numFilters == dest / g && !interpolate && snap == !PowerOfTwo(numFilters)
            else numFilters == maxFilters && interpolate == wantInterpolation && !snap
  {
    numFilters, interpolate, snap := maxFilters, wantInterpolation, false;
    g := Gcd(source, dest);
    DivisorBound(g, source);
    DivisorBound(g, dest);
    if !noReduction {
      var factor := dest / g;
      if factor <= maxFilters {
        interpolate, numFilters := false, factor;
        if !PowerOfTwo(numFilters) {
          snap := true;
        }
      }
    }
  }

  /** The count that audio_resample_init asks for: exact when at most 1024. */
  method ExactFilters(inputRate: nat, outputRate: nat) returns (maxFilters: nat, ghost g: nat)
    requires inputRate > 0 && outputRate > 0
    ensures IsGcd(g, inputRate, outputRate)
    ensures 1 <= maxFilters == if outputRate / g > 1024 then 1024 else outputRate / g
  {
    var h: nat, b: nat := inputRate, outputRate;
    while b != 0
      invariant h > 0
      invariant forall d: nat :: d > 0 ==>
        (Divides(d, inputRate) && Divides(d, outputRate) <==> Divides(d, h) && Divides(d, b))
      decreases b
    {
      forall d: nat | d > 0 && Divides(d, b) ensures Divides(d, h) <==> Divides(d, h % b) {
        EuclidStep(h, b, d);
      }
      var t := b;
      b := h % b;
      h := t;
    }
    assert Divides(h, h) && Divides(h, 0);
    forall d: nat | d > 0 && Divides(d, h) ensures d <= h {
      DivisorBound(d, h);
    }
    DivisorBound(h, outputRate);
    g := h;
    maxFilters := outputRate / h;
    if maxFilters > 1024 {
      maxFilters := 1024;
    }
  }

  // ---------------------------------------------------- positions that meet the filters

  /** A bank whose positions advance by `step` filters per output. */
  ghost predicate Reduced(b: Bank, step: nat) {
    ValidBank(b) && step > 0 && b.ratio * step as real == b.numFilters as real
  }

  /** With reduced rates the ratio is filters per step. */
  lemma ReducedRatio(source: nat, dest: nat, g: nat)
    requires source > 0 && dest > 0 && IsGcd(g, source, dest)
    ensures (dest as real / source as real) * (source / g) as real == (dest / g) as real
  {
    DivisorBound(g, source);
    DivisorBound(g, dest);
    var p, q := (source / g) as real, (dest / g) as real;
    assert source as real == p * g as real && dest as real == q * g as real;
    var r := dest as real / source as real;
    assert r * (p * g as real) == q * g as real;
    assert (r * p - q) * g as real == 0.0;
  }

  /** Output `j` lies (j * step) / numFilters input samples in, exactly. */
  lemma OnGrid(b: Bank, step: nat, j: nat)
    requires Reduced(b, step)
    ensures Time(b.ratio, j) * b.numFilters as real == (j * step) as real
  {
    var t, n, s := Time(b.ratio, j), b.numFilters as real, step as real;
    DivMul(j as real, b.ratio);
    assert t * n == t * (b.ratio * s) == (t * b.ratio) * s;
    assert j as real * s == (j * step) as real;
  }

  function Frac(x: real): (f: real)
    ensures 0.0 <= f < 1.0
  {
    x - x.Floor as real
  }

  lemma GridSplit(t: real, n: nat, q: int, r: nat)
    requires n > 0 && r < n && t * n as real == (q * n + r) as real
    ensures (t - q as real) * n as real == r as real
    ensures 0.0 <= t - q as real < 1.0
  {
    var d := t - q as real;
    assert q as real * n as real == (q * n) as real;
    assert d * n as real == r as real;
    MulOrder(d, 0.0, n as real);
    MulOrder(d, 1.0, n as real);
  }

  /** The whole and fractional parts of an on-grid position are quotient and remainder. */
  lemma GridParts(b: Bank, step: nat, j: nat)
    requires Reduced(b, step)
    ensures Time(b.ratio, j).Floor == j * step / b.numFilters
    ensures Frac(Time(b.ratio, j)) * b.numFilters as real == (j * step % b.numFilters) as real
  {
    OnGrid(b, step, j);
    var t, n, k := Time(b.ratio, j), b.numFilters, j * step;
    var q, r := k / n, k % n;
    assert k == q * n + r;
    GridSplit(t, n, q, r);
    FloorIs(t, q);
  }

  lemma GridIndex(b: Bank, f: real, r: nat)
    requires 1 <= b.numFilters && 0.0 <= f < 1.0 && f * b.numFilters as real == r as real
    ensures Nearest(b, f) == r && Below(b, f) == r
  {
    var x := Scaled(f, b.numFilters);
    FloorIs(x + 0.5, r);
    FloorIs(x, r);
    assert Nearest(b, f) == (x + 0.5).Floor;
    assert Below(b, f) == x.Floor;
  }

  /** The bank that the rates call for: as many filters as the destination rate in lowest terms. */
  ghost predicate BankFor(b: Bank, source: nat, dest: nat, g: nat) {
    && ValidBank(b) && source > 0 && dest > 0 && IsGcd(g, source, dest)
    && b.ratio == dest as real / source as real && b.numFilters == dest / g
  }

  lemma BankForReduced(b: Bank, source: nat, dest: nat, g: nat)
    requires BankFor(b, source, dest, g)
    ensures Reduced(b, source / g)
  {
    ReducedRatio(source, dest, g);
    DivisorBound(g, source);
  }

  /** Output `j` uses filter (j * source / g) mod (dest / g), whichever way it is looked up. */
  lemma PhaseExact(b: Bank, source: nat, dest: nat, g: nat, j: nat)
    requires BankFor(b, source, dest, g)
    ensures Nearest(b, Frac(Time(b.ratio, j))) == Below(b, Frac(Time(b.ratio, j))) == j * (source / g) % (dest / g)
    ensures Frac(Time(b.ratio, j)) * b.numFilters as real == (j * (source / g) % (dest / g)) as real
  {
    BankForReduced(b, source, dest, g);
    GridParts(b, source / g, j);
    GridIndex(b, Frac(Time(b.ratio, j)), j * (source / g) % b.numFilters);
  }

  /** The filter for fraction zero of a bank without lowpass: the identity tap. */
  ghost predicate UnitFilter(b: Bank)
    requires ValidBank(b)
  {
    forall k :: 0 <= k < b.numTaps ==> b.filters[0][k] == if k == Half(b) - 1 then 1.0 else 0.0
  }

  lemma {:induction false} UnitDot(row: seq<real>, w: seq<Frame>, c: nat, m: nat, at: nat)
    requires m <= |row| && m <= |w| && at < |w| && forall k :: 0 <= k < |w| ==> c < |w[k]|
    requires forall k :: 0 <= k < m ==> row[k] == if k == at then 1.0 else 0.0
    ensures Dot(row, w, c, m) == if at < m then w[at][c] else 0.0
  {
    if m > 0 { UnitDot(row, w, c, m - 1, at); }
  }

  lemma SmallMod(r: nat, n: nat)
    requires r < n
    ensures r % n == r
  {
  }

  lemma PickIsBlend(b: Bank, w: seq<Frame>, r: nat, c: nat)
    requires ValidBank(b) && WindowOf(b, w) && r < b.numFilters && c < b.channels
    requires b.lowpass || UnitFilter(b)
    ensures Pick(b, w, r, c) == Blend(b, w, r, 0.0, c)
  {
    hide Dot;
    SmallMod(r, b.numFilters);
    var x, y := Dot(b.filters[r], w, c, b.numTaps), Dot(b.filters[r + 1], w, c, b.numTaps);
    assert x * (1.0 - 0.0) + y * 0.0 == x;
    if !b.lowpass && r == 0 { UnitDot(b.filters[0], w, c, b.numTaps, Half(b) - 1); }
  }

  lemma RestIsZero(b: Bank, f: real, r: nat)
    requires 1 <= b.numFilters && 0.0 <= f < 1.0 && Below(b, f) == r && f * b.numFilters as real == r as real
    ensures Rest(b, f) == 0.0
  {
    hide Below;
  }

  /** At a filter's own phase the two subsamplers agree. */
  lemma SameOnFilter(b: Bank, w: seq<Frame>, f: real, r: nat, c: nat)
    requires ValidBank(b) && WindowOf(b, w) && 0.0 <= f < 1.0 && c < b.channels && r < b.numFilters
    requires Nearest(b, f) == Below(b, f) == r && f * b.numFilters as real == r as real
    requires b.lowpass || UnitFilter(b)
    ensures SampleAt(b, w, f, false, c) == SampleAt(b, w, f, true, c)
  {
    RestIsZero(b, f, r);
    hide Pick, Blend, UnitFilter, Rest, Nearest, Below;
    PickIsBlend(b, w, r, c);
  }

  /** Dropping interpolation preserves the meaning of every output. */
  lemma InterpolationUnneeded(b: Bank, source: nat, dest: nat, g: nat, j: nat, w: seq<Frame>)
    requires BankFor(b, source, dest, g) && WindowOf(b, w)
    requires b.lowpass || UnitFilter(b)
    ensures var f := Frac(Time(b.ratio, j));
            Subsample(b, w, f, false) == Subsample(b, w, f, true)
  {
    hide SampleAt, Nearest, Below, UnitFilter, Divides;
    var f, r := Frac(Time(b.ratio, j)), j * (source / g) % (dest / g);
    PhaseExact(b, source, dest, g, j);
    forall c | 0 <= c < b.channels ensures SampleAt(b, w, f, false, c) == SampleAt(b, w, f, true, c) {
      SameOnFilter(b, w, f, r, c);
    }
  }

  /** The rounding of the position to the nearest filter after each buffer. */
  function Snap(x: real, n: nat): real
    requires n > 0
  {
    x.Floor as real + (Frac(x) * n as real + 0.5).Floor as real / n as real
  }

  /** On the grid it changes nothing. */
  lemma SnapIdentity(x: real, n: nat, k: int)
    requires n > 0 && x * n as real == k as real
    ensures Snap(x, n) == x
  {
    var m := k - x.Floor * n;
    assert Frac(x) * n as real == m as real;
    FloorIs(m as real + 0.5, m);
    assert m as real / n as real == Frac(x);
  }

  /** It moves any position to a filter's, by at most half the distance between two filters. */
  lemma SnapNearest(x: real, n: nat) returns (at: int)
    requires n > 0
    ensures Snap(x, n) * n as real == at as real
    ensures -0.5 <= (Snap(x, n) - x) * n as real <= 0.5
  {
    var r := Scaled(Frac(x), n);
    var k := (r + 0.5).Floor;
    FloorBounds(r + 0.5);
    var y := x.Floor as real + k as real / n as real;
    DivMul(k as real, n as real);
    at := x.Floor * n + k;
    assert y * n as real == at as real;
    assert (y - x) * n as real == k as real - r;
  }
}
