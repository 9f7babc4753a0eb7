/**
 The timing of the ART resampler (components/audio-resampler/resampler.c) in exact
 arithmetic: when an output can be computed, how many outputs an input yields, and the
 closed forms of the two dry-run predictors.
 */
module ArtClock {

  // ------------------------------------------------------------------ real arithmetic

  lemma DivMul(x: real, r: real)
    requires r > 0.0
    ensures x / r * r == x
  {
  }

  lemma MulOrder(x: real, y: real, r: real)
    requires r > 0.0
    ensures x < y <==> x * r < y * r
  {
    if x < y { assert (y - x) * r > 0.0; } else { assert (x - y) * r >= 0.0; }
  }

  lemma DivAdd(x: real, y: real, r: real)
    requires r > 0.0
    ensures (x + y) / r == x / r + y / r
  {
  }

  lemma DivOrder(x: real, y: real, r: real)
    requires r > 0.0
    ensures x / r < y <==> x < y * r
  {
    MulOrder(x / r, y, r);
    DivMul(x, r);
  }

  lemma FloorBounds(x: real)
    ensures x.Floor as real <= x < x.Floor as real + 1.0
  {
  }

  lemma FloorIs(x: real, n: int)
    requires n as real <= x < n as real + 1.0
    ensures x.Floor == n
  {
  }

  function Ceil(x: real): int {
    -((-x).Floor)
  }

  lemma CeilBounds(x: real)
    ensures Ceil(x) as real - 1.0 < x <= Ceil(x) as real
  {
    FloorBounds(-x);
  }

  // ------------------------------------------------------------------------- timing

  /** The position of output `j`, in input samples after the first one. */
  function Time(ratio: real, j: nat): (t: real)
    requires ratio > 0.0
    ensures t >= 0.0
  {
    DivOrder(j as real, 0.0, ratio);
    j as real / ratio
  }

  /** How many inputs must have arrived before output `j` can be computed. */
  function Need(ratio: real, j: nat): (n: nat)
    requires ratio > 0.0
    ensures n > 0
  {
    Time(ratio, j).Floor + 1
  }

  /** How many outputs can be computed from the first `n` inputs. */
  function Ready(ratio: real, n: nat): nat
    requires ratio > 0.0
  {
    assert n as real * ratio >= 0.0;
    CeilBounds(n as real * ratio);
    Ceil(n as real * ratio)
  }

  /** The three views of "output j can be computed from n inputs" agree. */
  lemma ReadyExact(ratio: real, n: nat, j: nat)
    requires ratio > 0.0
    ensures j < Ready(ratio, n) <==> Time(ratio, j) < n as real
    ensures Need(ratio, j) <= n <==> Time(ratio, j) < n as real
  {
    DivOrder(j as real, n as real, ratio);
    CeilBounds(n as real * ratio);
    FloorBounds(Time(ratio, j));
  }

  lemma TimeNext(ratio: real, j: nat)
    requires ratio > 0.0
    ensures Time(ratio, j + 1) == Time(ratio, j) + 1.0 / ratio
    ensures Time(ratio, j) < Time(ratio, j + 1)
  {
    DivAdd(j as real, 1.0, ratio);
    DivOrder(1.0, 0.0, ratio);
    DivMul(1.0, ratio);
  }

  lemma TimeAdd(ratio: real, i: nat, j: nat)
    requires ratio > 0.0
    ensures Time(ratio, i + j) == Time(ratio, i) + j as real / ratio
  {
    DivAdd(i as real, j as real, ratio);
  }

  lemma ReadyMono(ratio: real, m: nat, n: nat)
    requires ratio > 0.0 && m <= n
    ensures Ready(ratio, m) <= Ready(ratio, n)
  {
    var j := Ready(ratio, m);
    if j > 0 {
      ReadyExact(ratio, m, j - 1);
      ReadyExact(ratio, n, j - 1);
    }
  }

  lemma {:induction false} NeedMono(ratio: real, i: nat, j: nat)
    requires ratio > 0.0 && i <= j
    ensures Need(ratio, i) <= Need(ratio, j)
    decreases j - i
  {
    if i < j {
      NeedMono(ratio, i, j - 1);
      TimeNext(ratio, j - 1);
      FloorBounds(Time(ratio, j));
      FloorBounds(Time(ratio, j - 1));
    }
  }

  // -------------------------------------------------- what one call does, in closed form

  /** Outputs of a call with `m` inputs and room for `n` outputs, after `have` inputs and `done` outputs. */
  function Generated(ratio: real, have: nat, done: nat, m: nat, n: nat): nat
    requires ratio > 0.0 && done <= Ready(ratio, have)
  {
    ReadyMono(ratio, have, have + m);
    var possible := Ready(ratio, have + m) - done;
    if n < possible then n else possible
  }

  /** Inputs consumed by that call: no more than its last output needed, or all. */
  function Used(ratio: real, have: nat, done: nat, m: nat, n: nat): nat
    requires ratio > 0.0 && done <= Ready(ratio, have)
  {
    if n == 0 then 0
    else if Generated(ratio, have, done, m, n) == n then RequiredFor(ratio, have, done, n)
    else m
  }

  /** What resampleGetRequiredSamples predicts. */
  function RequiredFor(ratio: real, have: nat, done: nat, n: nat): nat
    requires ratio > 0.0
  {
    if n == 0 || Need(ratio, done + n - 1) <= have then 0 else Need(ratio, done + n - 1) - have
  }

  /** What resampleGetExpectedOutput predicts. */
  function ExpectedFrom(ratio: real, have: nat, done: nat, m: nat): nat
    requires ratio > 0.0 && done <= Ready(ratio, have)
  {
    ReadyMono(ratio, have, have + m);
    Ready(ratio, have + m) - done
  }

  /** Supplying the predicted inputs yields exactly the wanted outputs and uses every input. */
  lemma RequiredIsEnough(ratio: real, have: nat, done: nat, n: nat)
    requires ratio > 0.0 && done <= Ready(ratio, have)
    ensures var m := RequiredFor(ratio, have, done, n);
            Generated(ratio, have, done, m, n) == n && Used(ratio, have, done, m, n) == m
  {
    if n > 0 {
      var m := RequiredFor(ratio, have, done, n);
      ReadyExact(ratio, have + m, done + n - 1);
    }
  }

  /** One input fewer would not do. */
  lemma RequiredIsLeast(ratio: real, have: nat, done: nat, m: nat, n: nat)
    requires ratio > 0.0 && done <= Ready(ratio, have)
    requires m < RequiredFor(ratio, have, done, n)
    ensures Generated(ratio, have, done, m, n) < n
  {
    ReadyExact(ratio, have + m, done + n - 1);
    ReadyMono(ratio, have, have + m);
  }

  /** With room for more than predicted, a call yields the prediction and uses every input. */
  lemma ExpectedIsExact(ratio: real, have: nat, done: nat, m: nat, n: nat)
    requires ratio > 0.0 && done <= Ready(ratio, have)
    requires n > ExpectedFrom(ratio, have, done, m)
    ensures Generated(ratio, have, done, m, n) == ExpectedFrom(ratio, have, done, m)
    ensures Used(ratio, have, done, m, n) == m
  {
  }

  // ----------------------------------------------- the capacity the application reserves

  /** audio_resample_max_output while the resampler is active. */
  function MaxOutput(ratio: real, m: nat): int {
    (m as real * ratio + 2.0).Floor
  }

  /** From a caught-up resampler, the reserved capacity is never reached. */
  lemma MaxOutputSuffices(ratio: real, have: nat, m: nat)
    requires ratio > 0.0
    ensures MaxOutput(ratio, m) > ExpectedFrom(ratio, have, Ready(ratio, have), m)
  {
    var x, y := have as real * ratio, m as real * ratio;
    assert (have + m) as real * ratio == x + y;
    CeilBounds(x);
    CeilBounds(x + y);
    FloorBounds(y + 2.0);
    assert m as real * ratio >= 0.0;
  }

  /** Once caught up, the position lies in [0, 1 / ratio). */
  lemma CaughtUpPosition(ratio: real, n: nat)
    requires ratio > 0.0
    ensures 0.0 <= Time(ratio, Ready(ratio, n)) - n as real < 1.0 / ratio
  {
    var j := Ready(ratio, n);
    ReadyExact(ratio, n, j);
    DivOrder(1.0, 0.0, ratio);
    DivMul(1.0, ratio);
    if j > 0 {
      ReadyExact(ratio, n, j - 1);
      TimeNext(ratio, j - 1);
    }
  }
}
