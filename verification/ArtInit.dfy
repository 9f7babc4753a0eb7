/**
 Setting up the ART resampler for two rates: resampleFixedRatioInit and resampleInit in
 components/audio-resampler/resampler.c, and audio_resample_init in
 main/audio/audio_resample.c. The bank built here is the one the phase theorems of
 `ArtFilters` speak of, and its filter count is the smallest that needs no interpolation.
 */
module ArtInit {
  import opened Prelude
  import opened ArtClock
  import opened ArtFilters
  import opened ArtResampler

  // ------------------------------------------------------------ when filters suffice

  /** In lowest terms the two rates have no common factor. */
  lemma LowestTerms(source: nat, dest: nat, g: nat)
    requires source > 0 && dest > 0 && IsGcd(g, source, dest)
    ensures IsGcd(1, source / g, dest / g)
  {
    var p, q := source / g, dest / g;
    DivisorBound(g, source);
    DivisorBound(g, dest);
    assert Divides(1, p) && Divides(1, q);
    forall d: nat | d > 0 && Divides(d, p) && Divides(d, q) ensures d <= 1 {
      FactorOut(source, g, d);
      FactorOut(dest, g, d);
      if d > 1 { MulMono(2, d, g); }
    }
  }

  lemma FactorOut(n: nat, g: nat, d: nat)
    requires g > 0 && d > 0 && n / g * g == n && Divides(d, n / g)
    ensures d * g > 0 && Divides(d * g, n)
  {
    var k := n / g / d;
    assert n / g == k * d;
    assert n == k * (d * g);
    MulMono(1, d, g);
    ModUnique(k, 0, d * g);
  }

  lemma Cancel(p: nat, q: nat, n: nat, k: nat)
    requires p >= q > 0 && p * n == k * q
    ensures k >= n && (p - q) * n == (k - n) * q
  {
    if k < n { MulMono(k + 1, n, q); MulMono(q, p, n); }
  }

  lemma DivideThrough(p: nat, q: nat, n: nat, k: nat)
    requires p > 0 && q > 0 && p * n == k * q && Divides(p, k)
    ensures Divides(q, n)
  {
    var m := k / p;
    assert k == m * p;
    assert p * n == p * (m * q);
    EqualFactor(p, n, m * q);
    ModUnique(m, 0, q);
  }

  lemma EqualFactor(p: nat, a: int, b: int)
    requires p > 0 && p * a == p * b
    ensures a == b
  {
    if a < b { MulMono(a + 1, b, p); }
    if b < a { MulMono(b + 1, a, p); }
  }

  /** Euclid's lemma: what divides a product and shares no factor with one side divides the other. */
  lemma {:induction false} Euclid(p: nat, q: nat, n: nat, k: nat)
    requires q > 0 && IsGcd(1, p, q) && p * n == k * q
    ensures Divides(q, n)
    decreases p + q
  {
    if p == 0 {
      assert Divides(q, 0) && Divides(q, q);
    } else if p >= q {
      Cancel(p, q, n, k);
      CoprimeMinus(p, q);
      Euclid(p - q, q, n, k - n);
    } else {
      Cancel(q, p, k, n);
      CoprimeMinus(q, p);
      Euclid(q - p, p, k, n - k);
      DivideThrough(p, q, n, k);
    }
  }

  lemma CoprimeMinus(p: nat, q: nat)
    requires p >= q > 0 && (IsGcd(1, p, q) || IsGcd(1, q, p))
    ensures IsGcd(1, p - q, q)
  {
    assert Divides(1, p - q);
    forall d: nat | d > 0 && Divides(d, p - q) && Divides(d, q) ensures d <= 1 {
      assert p == (q / d) * d + (p - q);
      ModCancel(q / d, p - q, d);
      assert Divides(d, p);
    }
  }

  predicate Whole(x: real) {
    x == x.Floor as real
  }

  /** Output `j` falls on one of `n` equally spaced filters. */
  predicate OnFilter(ratio: real, n: nat, j: nat)
    requires ratio > 0.0 && n > 0
  {
    Whole(Scaled(Frac(Time(ratio, j)), n))
  }

  ghost predicate AllOnFilters(ratio: real, n: nat)
    requires ratio > 0.0 && n > 0
  {
    forall j: nat :: OnFilter(ratio, n, j)
  }

  lemma WholeShift(x: real, k: int)
    ensures Whole(x - k as real) <==> Whole(x)
  {
    FloorBounds(x);
    FloorIs(x - k as real, x.Floor - k);
  }

  lemma WholeFrac(t: real, n: nat)
    ensures Whole(Scaled(Frac(t), n)) <==> Whole(Scaled(t, n))
  {
    assert t.Floor as real * n as real == (t.Floor * n) as real;
    var x := t * n as real;
    WholeShift(x, t.Floor * n);
    assert Frac(t) * n as real == x - (t.Floor * n) as real;
  }

  lemma TimeOnGrid(ratio: real, p: nat, q: nat, j: nat)
    requires ratio > 0.0 && ratio * p as real == q as real
    ensures Time(ratio, j) * q as real == (j * p) as real
  {
    var t := Time(ratio, j);
    DivMul(j as real, ratio);
    assert t * q as real == t * (ratio * p as real) == (t * ratio) * p as real;
  }

  lemma MultipleLands(t: real, k: nat, q: nat, n: nat)
    requires q > 0 && Divides(q, n) && t * q as real == k as real
    ensures Whole(Scaled(t, n))
  {
    var m := n / q;
    assert n as real == q as real * m as real;
    assert Scaled(t, n) == (t * q as real) * m as real;
    assert k as real * m as real == (k * m) as real;
    FloorIs(Scaled(t, n), k * m);
  }

  lemma LandsOnMultiple(t: real, p: nat, q: nat, n: nat) returns (k: int)
    requires q > 0 && t * q as real == p as real && Whole(Scaled(t, n))
    ensures p * n == k * q
  {
    k := (t * n as real).Floor;
    assert (t * q as real) * n as real == (t * n as real) * q as real;
    assert (p * n) as real == p as real * n as real && (k * q) as real == k as real * q as real;
  }

  lemma MultiplesLand(ratio: real, p: nat, q: nat, n: nat, j: nat)
    requires ratio > 0.0 && ratio * p as real == q as real && q > 0 && n > 0 && Divides(q, n)
    ensures OnFilter(ratio, n, j)
  {
    hide Scaled, Whole;
    TimeOnGrid(ratio, p, q, j);
    MultipleLands(Time(ratio, j), j * p, q, n);
    WholeFrac(Time(ratio, j), n);
  }

  /** The second output is the one that tells: it lies source / dest input frames in. */
  lemma SecondTells(ratio: real, p: nat, q: nat, n: nat)
    requires ratio > 0.0 && ratio * p as real == q as real && q > 0 && n > 0 && IsGcd(1, p, q)
    requires OnFilter(ratio, n, 1)
    ensures Divides(q, n)
  {
    hide Scaled, Whole;
    TimeOnGrid(ratio, p, q, 1);
    WholeFrac(Time(ratio, 1), n);
    var k := LandsOnMultiple(Time(ratio, 1), p, q, n);
    if k < 0 { MulMono(k, -1, q); }
    Euclid(p, q, n, k);
  }

  /** Every output falls on a filter exactly when the filter count is a multiple of dest / g. */
  lemma LandsExactlyWhen(source: nat, dest: nat, g: nat, n: nat)
    requires source > 0 && dest > 0 && IsGcd(g, source, dest) && n > 0
    ensures dest / g > 0
    ensures AllOnFilters(dest as real / source as real, n) <==> Divides(dest / g, n)
  {
    hide OnFilter;
    DivisorBound(g, dest);
    ReducedRatio(source, dest, g);
    LowestTerms(source, dest, g);
    var ratio, p, q := dest as real / source as real, source / g, dest / g;
    if Divides(q, n) {
      forall j: nat ensures OnFilter(ratio, n, j) {
        MultiplesLand(ratio, p, q, n, j);
      }
    } else if AllOnFilters(ratio, n) {
      assert OnFilter(ratio, n, 1);
      SecondTells(ratio, p, q, n);
    }
  }

  // ---------------------------------------------------------------- building a bank

  /** The last filter is the first one, one tap later. */
  ghost predicate Seam(b: Bank)
    requires ValidBank(b)
  {
    var first, last := b.filters[0], b.filters[b.numFilters];
    && first[b.numTaps - 1] == 0.0 && last[0] == 0.0
    && forall k :: 1 <= k < b.numTaps ==> last[k] == first[k - 1]
  }

  /** Rotating the first filter and clearing the outer taps, as resampleInit ends. */
  method LastFilter(first: seq<real>) returns (cleared: seq<real>, last: seq<real>)
    requires first != []
    ensures |cleared| == |last| == |first|
    ensures cleared == first[|first| - 1 := 0.0] && last[0] == 0.0
    ensures forall k :: 1 <= k < |last| ==> last[k] == first[k - 1]
  {
    last := seq(|first|, _ => 0.0);
    for j := 0 to |first|
      invariant |last| == |first|
      invariant forall k :: 1 <= k <= j && k < |first| ==> last[k] == first[k - 1]
    {
      last := last[(if j + 1 < |first| then j + 1 else 0) := first[j]];
    }
    cleared, last := first[|first| - 1 := 0.0], last[0 := 0.0];
  }

  /** `design(n, i)` is the sinc filter for the fraction i / n. */
  method BuildFilters(n: nat, taps: nat, design: (nat, nat) -> seq<real>) returns (filters: seq<seq<real>>)
    requires n > 0 && taps > 0 && forall m, i :: |design(m, i)| == taps
    ensures |filters| == n + 1 && forall i :: 0 <= i <= n ==> |filters[i]| == taps
    ensures forall i :: 1 <= i < n ==> filters[i] == design(n, i)
    ensures filters[0] == design(n, 0)[taps - 1 := 0.0] && filters[n][0] == 0.0
    ensures forall k :: 1 <= k < taps ==> filters[n][k] == design(n, 0)[k - 1]
  {
    filters := [];
    for i := 0 to n
      invariant |filters| == i && forall m :: 0 <= m < i ==> filters[m] == design(n, m)
    {
      filters := filters + [design(n, i)];
    }
    var first, last := LastFilter(filters[0]);
    filters := filters[0 := first] + [last];
  }

  lemma {:induction false} SeamDot(b: Bank, w: seq<Frame>, next: seq<Frame>, c: nat, m: nat)
    requires ValidBank(b) && Seam(b) && WindowOf(b, w) && WindowOf(b, next) && c < b.channels && m < b.numTaps
    requires forall k :: 1 <= k < b.numTaps ==> w[k] == next[k - 1]
    ensures Dot(b.filters[b.numFilters], w, c, m + 1) == Dot(b.filters[0], next, c, m)
  {
    if m == 0 {
      assert Dot(b.filters[b.numFilters], w, c, 0) == 0.0;
    } else {
      SeamDot(b, w, next, c, m - 1);
    }
  }

  /** Choosing the last filter at one position is choosing the first filter at the next. */
  lemma SeamContinuous(b: Bank, s: seq<Frame>, p: int, c: nat)
    requires ValidBank(b) && Seam(b) && FramesOf(b, s) && c < b.channels
    ensures Pick(b, Window(b, s, p), b.numFilters, c) == Pick(b, Window(b, s, p + 1), 0, c)
  {
    var w, next := Window(b, s, p), Window(b, s, p + 1);
    var m := b.numTaps - 1;
    SeamDot(b, w, next, c, m);
    assert Dot(b.filters[0], next, c, b.numTaps) == Dot(b.filters[0], next, c, m);
    assert w[Half(b)] == next[Half(b) - 1];
  }

  // -------------------------------------------------------------------- the lowpass

  datatype Options = Options(interpolate: bool, lowpass: bool, noReduction: bool)

  lemma ManualCutoff(relative: real, ratio: real, cutoff: real, freq: nat, source: nat, dest: nat)
    requires source > 0 && dest > 0 && ratio == dest as real / source as real
    requires relative == freq as real / (dest as real / 2.0) && cutoff == relative * ratio
    ensures 0.0 < cutoff < 1.0 <==> 0 < 2 * freq < source
  {
    DivMul(dest as real, source as real);
    DivMul(freq as real, dest as real / 2.0);
    CutoffTimes(relative, ratio, cutoff, dest as real / 2.0, source as real, dest as real, freq as real);
    assert cutoff * source as real == (2 * freq) as real;
    MulOrder(0.0, cutoff, source as real);
    MulOrder(cutoff, 1.0, source as real);
  }

  lemma CutoffTimes(relative: real, ratio: real, cutoff: real, half: real, source: real, dest: real, freq: real)
    requires ratio * source == dest && half * 2.0 == dest && relative * half == freq
    requires cutoff == relative * ratio
    ensures cutoff * source == freq * 2.0
  {
    assert relative * ratio * source == relative * (ratio * source) == relative * (half * 2.0);
  }

  lemma ProductBetween(x: real, y: real)
    requires 0.0 < x < 1.0 && 0.0 < y < 1.0
    ensures 0.0 < x * y < 1.0
  {
    MulOrder(x, 1.0, y);
  }

  lemma PositiveQuotient(x: real, y: real)
    requires x > 0.0 && y > 0.0
    ensures x / y > 0.0
  {
  }

  /**
   The cutoff that resampleFixedRatioInit hands on, relative to the source rate: a lowpass is
   used for a frequency below the source's Nyquist, or by itself whenever the rate goes down.
   */
  method Cutoff(source: nat, dest: nat, taps: nat, lowpassFreq: nat, auto: bool) returns (cutoff: real)
    requires source > 0 && dest > 0 && taps > 0
    ensures 0.0 < cutoff < 1.0 <==>
      if lowpassFreq > 0 then 2 * lowpassFreq < source else auto && dest < source
  {
    var ratio := dest as real / source as real;
    PositiveQuotient(dest as real, source as real);
    var relative := lowpassFreq as real / (dest as real / 2.0);
    if lowpassFreq == 0 && auto && dest < source {
      DivMul(dest as real, source as real);
      MulOrder(ratio, 1.0, source as real);
      PositiveQuotient(7.5, taps as real);
      PositiveQuotient(7.5 / taps as real, ratio);
      relative := 1.0 - 7.5 / taps as real / ratio;
      if relative < 0.8 {
        relative := 0.8;
      }
      if relative < ratio {
        relative := ratio;
      }
      ProductBetween(relative, ratio);
      cutoff := relative * ratio;
    } else {
      cutoff := relative * ratio;
      ManualCutoff(relative, ratio, cutoff, lowpassFreq, source, dest);
    }
  }

  // ------------------------------------------------------------------- initialisation

  predicate TapsOk(taps: nat) {
    taps % 4 == 0 && 0 < taps <= 1024
  }

  /** For two rates a bank is reduced exactly when it has dest / g filters. */
  lemma BankSettles(b: Bank, source: nat, dest: nat, g: nat)
    requires ValidBank(b) && source > 0 && dest > 0 && IsGcd(g, source, dest)
    requires b.ratio == dest as real / source as real
    ensures Reduced(b, source / g) <==> b.numFilters == dest / g
  {
    DivisorBound(g, source);
    ReducedRatio(source, dest, g);
  }

  lemma SeamBuilt(b: Bank, first: seq<real>)
    requires ValidBank(b) && |first| == b.numTaps
    requires b.filters[0] == first[b.numTaps - 1 := 0.0] && b.filters[b.numFilters][0] == 0.0
    requires forall k :: 1 <= k < b.numTaps ==> b.filters[b.numFilters][k] == first[k - 1]
    ensures Seam(b)
  {
  }

  /**
   resampleFixedRatioInit: no context for an unusable tap count, filter count or cutoff;
   otherwise the bank for the two rates, reduced exactly when the limit allows it.
   */
  method FixedRatioInit(channels: nat, taps: nat, maxFilters: nat, source: nat, dest: nat,
                        lowpassFreq: nat, o: Options, design: (nat, nat) -> seq<real>)
    returns (bank: Option<Bank>, g: nat)
    requires source > 0 && dest > 0 && forall n, i :: |design(n, i)| == taps
    ensures IsGcd(g, source, dest)
    ensures var fits := !o.noReduction && dest / g <= maxFilters;
            bank.Some? <==>
              && 2 * lowpassFreq <= dest && TapsOk(taps)
              && 1 <= (if fits then dest / g else maxFilters) <= 1024
    ensures bank.Some? ==>
      var b := bank.value;
      && ValidBank(b) && Seam(b) && b.channels == channels && b.numTaps == taps
      && b.ratio == dest as real / source as real
      && (b.lowpass <==> if lowpassFreq > 0 then 2 * lowpassFreq < source else o.lowpass && dest < source)
    ensures bank.Some? && !o.noReduction ==> (Reduced(bank.value, source / g) <==> dest / g <= maxFilters)
    ensures bank.Some? && !o.noReduction && dest / g <= maxFilters ==>
      BankFor(bank.value, source, dest, g) && !bank.value.interpolate
    ensures bank.Some? && (o.noReduction || dest / g > maxFilters) ==>
      bank.value.numFilters == maxFilters && bank.value.interpolate == o.interpolate && !bank.value.snap
  {
    hide Divides, Reduced, Seam;
    var n, interpolate, snap;
    n, interpolate, snap, g := ReduceFilters(source, dest, maxFilters, o.noReduction, o.interpolate);
    if 2 * lowpassFreq > dest || taps % 4 != 0 || taps == 0 || taps > 1024 || n < 1 || n > 1024 {
      return None, g;
    }
    var cutoff := Cutoff(source, dest, taps, lowpassFreq, o.lowpass);
    var filters := BuildFilters(n, taps, design);
    var ratio := dest as real / source as real;
    PositiveQuotient(dest as real, source as real);
    var b := Bank(channels, taps, n, ratio, interpolate, 0.0 < cutoff < 1.0, snap, filters);
    BankSettles(b, source, dest, g);
    SeamBuilt(b, design(n, 0));
    bank := Some(b);
  }

  lemma GcdUnique(g: nat, h: nat, a: nat, b: nat)
    requires IsGcd(g, a, b) && IsGcd(h, a, b)
    ensures g == h
  {
    hide Divides;
  }

  /** With as many filters as dest / g, but at most 1024: when all outputs fall on one. */
  lemma CountSettles(source: nat, dest: nat, g: nat, n: nat)
    requires source > 0 && dest > 0 && IsGcd(g, source, dest)
    requires 1 <= n == if dest / g > 1024 then 1024 else dest / g
    ensures dest as real / source as real > 0.0
    ensures AllOnFilters(dest as real / source as real, n) <==> dest / g <= 1024
  {
    hide AllOnFilters;
    PositiveQuotient(dest as real, source as real);
    LandsExactlyWhen(source, dest, g, n);
    var q := dest / g;
    if q <= 1024 { ModUnique(1, 0, q); } else { ModUnique(0, n, q); }
  }

  /**
   audio_resample_init: equal rates need no resampler. Otherwise interpolation between filters
   stays on exactly when some output would fall between two of them.
   */
  method SetUp(inputRate: nat, outputRate: nat, channels: nat, taps: nat, design: (nat, nat) -> seq<real>)
    returns (r: Resampler?, ghost g: nat)
    requires inputRate > 0 && outputRate > 0 && forall n, i :: |design(n, i)| == taps
    ensures IsGcd(g, inputRate, outputRate)
    ensures r != null <==> inputRate != outputRate && TapsOk(taps)
    ensures r != null ==>
      && fresh(r) && fresh(r.buffer) && r.Valid() && r.stream == [] && r.emitted == 0
      && r.bank.ratio == outputRate as real / inputRate as real && Seam(r.bank)
      && (r.bank.lowpass <==> outputRate < inputRate)
      && (r.bank.interpolate <==> !AllOnFilters(r.bank.ratio, r.bank.numFilters))
      && (outputRate / g <= 1024 ==> BankFor(r.bank, inputRate, outputRate, g))
      && (outputRate / g > 1024 ==> r.bank.interpolate && r.bank.numFilters == 1024)
  {
    hide Divides, IsGcd, AllOnFilters, Seam;
    var maxFilters;
    maxFilters, g := ExactFilters(inputRate, outputRate);
    if inputRate == outputRate {
      return null, g;
    }
    var bank, h := FixedRatioInit(channels, taps, maxFilters, inputRate, outputRate, 0,
                                  Options(true, true, false), design);
    GcdUnique(g, h, inputRate, outputRate);
    if bank.None? {
      return null, g;
    }
    CountSettles(inputRate, outputRate, g, maxFilters);
    r := new Resampler(bank.value, inputRate / g);
  }
}
