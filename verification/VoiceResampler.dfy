/**
 The streaming form of the voice resampler: a circular history of 32 samples and a
 rational phase accumulator, updated in place
 (components/pogvoice/pogvoice_resample.c), together with the two loops that drive it.
 */
module VoiceResampler {
  import opened Prelude
  import opened VoiceFir

  function Wrap16(x: int): (r: int)
    ensures Int16(r)
    ensures Int16(x) ==> r == x
    ensures (x - r) % 65536 == 0
  {
    (x + 32768) % 65536 - 32768
  }

  /** The part of `x` that storing it as an int16 loses. */
  function Excess(x: int): (e: int)
    ensures e % 65536 == 0
    ensures e == 0 <==> Int16(x)
  {
    x - Wrap16(x)
  }

  function TotalExcess(rounded: seq<int>, m: nat): (e: int)
    requires m <= |rounded|
    ensures e % 65536 == 0
    ensures AllInt16(rounded[..m]) ==> e == 0
  {
    if m == 0 then 0
    else
      assert rounded[..m][..m - 1] == rounded[..m - 1];
      TotalExcess(rounded, m - 1) + Excess(rounded[m - 1])
  }

  lemma {:induction false} SumOfUpdate(row: seq<int>, m: nat, k: nat, v: int)
    requires k < m <= |row|
    ensures Sum(row[k := v], m) == Sum(row, m) + v - row[k]
  {
    if k == m - 1 {
      SumOfPrefix(row, row[k := v], k);
    } else {
      SumOfUpdate(row, m - 1, k, v);
    }
  }

  lemma {:induction false} SumOfPrefix(a: seq<int>, b: seq<int>, m: nat)
    requires m <= |a| && m <= |b| && a[..m] == b[..m]
    ensures Sum(a, m) == Sum(b, m)
  {
    if m > 0 {
      assert a[..m][m - 1] == a[m - 1] && b[..m][m - 1] == b[m - 1];
      assert a[..m - 1] == a[..m][..m - 1] && b[..m - 1] == b[..m][..m - 1];
      SumOfPrefix(a, b, m - 1);
    }
  }

  /**
   The stored form of a row of rounded coefficients: every tap but the centre as int16, and the
   sum at unity up to what int16 storage loses in total.
   */
  ghost predicate StoredRow(rounded: seq<int>, row: seq<int>)
    requires |rounded| == TAPS
  {
    && |row| == TAPS && AllInt16(row)
    && (forall k :: 0 <= k < TAPS && k != TAPS / 2 ==> row[k] == Wrap16(rounded[k]))
    && Sum(row, TAPS) == UNITY - Loss(rounded)
  }

  /** What storing a row and its corrected centre as int16 loses in total. */
  function Loss(rounded: seq<int>): int
    requires |rounded| == TAPS
  {
    TotalExcess(rounded, TAPS) + Excess(Wrap16(rounded[TAPS / 2]) + UNITY - Sum(rounded, TAPS))
  }

  /** The rounded values and the corrected centre fit int16. */
  ghost predicate RowFits(rounded: seq<int>)
    requires |rounded| == TAPS
  {
    AllInt16(rounded) && Int16(rounded[TAPS / 2] + UNITY - Sum(rounded, TAPS))
  }

  lemma FittingRowLosesNothing(rounded: seq<int>)
    requires |rounded| == TAPS && RowFits(rounded)
    ensures Loss(rounded) == 0
  {
    assert rounded[..TAPS] == rounded;
  }

  /**
   One row of rounded coefficients, stored as int16 with the centre tap corrected.
   The row sums to unity up to what int16 storage loses, hence exactly to unity
   precisely when nothing is lost in total.
   */
  method CorrectRow(rounded: seq<int>) returns (row: seq<int>)
    requires |rounded| == TAPS
    ensures StoredRow(rounded, row)
  {
    row := [];
    var total := 0;
    for k := 0 to TAPS
      invariant |row| == k && AllInt16(row)
      invariant forall i :: 0 <= i < k ==> row[i] == Wrap16(rounded[i])
      invariant total == Sum(rounded, k)
      invariant Sum(row, k) == Sum(rounded, k) - TotalExcess(rounded, k)
    {
      var c := rounded[k];
      SumOfPrefix(row, row + [Wrap16(c)], k);
      row := row + [Wrap16(c)];
      total := total + c;
    }
    var centre := Wrap16(row[TAPS / 2] + UNITY - total);
    SumOfUpdate(row, TAPS, TAPS / 2, centre);
    row := row[TAPS / 2 := centre];
  }

  /** Masking an unsigned difference finds the slot of the signal's sample `n - k`. */
  lemma CircularIndex(n: nat, k: nat)
    ensures (n % TAPS - k) % 0x1_0000_0000 % TAPS == (n - k) % TAPS
  {
    var x := n % TAPS - k;
    ModOfMod(x);
    assert n == n / TAPS * TAPS + n % TAPS;
    ModShift(x, n / TAPS);
    assert n - k == x + n / TAPS * TAPS;
  }

  lemma ModOfMod(x: int)
    ensures x % 0x1_0000_0000 % TAPS == x % TAPS
  {
    var q := x / 0x1_0000_0000;
    assert x == x % 0x1_0000_0000 + q * 0x800_0000 * TAPS;
    ModShift(x % 0x1_0000_0000, q * 0x800_0000);
  }

  lemma ModShift(x: int, q: int)
    ensures (x + q * TAPS) % TAPS == x % TAPS
  {
    assert x + q * TAPS == (x / TAPS + q) * TAPS + x % TAPS;
  }

  class Resampler {
    var inputRate: nat
    var outputRate: nat
    var phase: nat
    var head: nat
    const history: array<int>
    var coefficients: seq<seq<int>>

    /** Every sample accepted, and the number of samples emitted, since initialisation. */
    ghost var stream: seq<int>
    ghost var emitted: nat

    ghost function Cfg(): Config
      reads this
    {
      Config(inputRate, outputRate, coefficients)
    }

    predicate Ready()
      reads this
    {
      inputRate != 0 && outputRate != 0
    }

    /** The history holds the newest 32 samples of the signal below `n`. */
    ghost predicate Holds(s: seq<int>, n: int)
      requires history.Length == TAPS
      reads history
    {
      forall m :: n - TAPS <= m < n ==> history[m % TAPS] == At(s, m)
    }

    ghost predicate Valid()
      reads this, history
    {
      && history.Length == TAPS
      && (Ready() ==>
            && ValidConfig(Cfg())
            && AllInt16(stream)
            && emitted == Produced(Cfg(), |stream|)
            && phase == PhaseAfter(Cfg(), |stream|)
            && head == |stream| % TAPS
            && Holds(stream, |stream|))
    }

    /** A zeroed record, as the callers allocate it. */
    constructor ()
      ensures Valid() && !Ready() && fresh(history)
    {
      inputRate, outputRate, phase, head := 0, 0, 0, 0;
      history := new int[TAPS](_ => 0);
      coefficients := [];
      stream, emitted := [], 0;
    }

    /** `rounded` holds the rounded filter coefficients, whose floating-point design is not modelled. */
    method Init(inRate: nat, outRate: nat, rounded: seq<seq<int>>) returns (ok: bool)
      requires Valid()
      requires |rounded| == PHASES + 1 && forall p :: 0 <= p < |rounded| ==> |rounded[p]| == TAPS
      modifies this, history
      ensures Valid()
      ensures ok <==> 8000 <= inRate <= 48000 && 8000 <= outRate <= 48000
      ensures !ok ==> unchanged(this) && unchanged(history)
      ensures ok ==> Ready() && inputRate == inRate && outputRate == outRate && stream == [] && emitted == 0
      ensures ok ==> forall p :: 0 <= p <= PHASES ==> StoredRow(rounded[p], coefficients[p])
      ensures ok ==> forall p :: 0 <= p <= PHASES ==> (Sum(coefficients[p], TAPS) == UNITY <==> Loss(rounded[p]) == 0)
    {
      hide Sum, Loss, Wrap16;
      if inRate < MIN_RATE || inRate > MAX_RATE || outRate < MIN_RATE || outRate > MAX_RATE {
        return false;
      }
      inputRate, outputRate, phase, head := inRate, outRate, 0, 0;
      for i := 0 to TAPS
        invariant forall k :: 0 <= k < i ==> history[k] == 0
        modifies history
      {
        history[i] := 0;
      }
      var rows: seq<seq<int>> := [];
      for p := 0 to PHASES + 1
        invariant |rows| == p
        invariant forall q :: 0 <= q < p ==> |rows[q]| == TAPS && AllInt16(rows[q])
        invariant forall q :: 0 <= q < p ==> StoredRow(rounded[q], rows[q])
        modifies {}
      {
        var row := CorrectRow(rounded[p]);
        rows := rows + [row];
      }
      coefficients := rows;
      stream, emitted := [], 0;
      CeilDivIs(0, inputRate, 0);
      ok := true;
    }

    /** Both accumulators of one output: the inner loop over the circular history. */
    method Accumulate(p: nat) returns (a: int, b: int)
      requires history.Length == TAPS && head < TAPS && ValidConfig(Cfg()) && p < PHASES
      requires stream != [] && AllInt16(stream)
      requires head == (|stream| - 1) % TAPS && Holds(stream, |stream|)
      ensures a == Convolve(coefficients[p], stream, |stream| - 1, TAPS)
      ensures b == Convolve(coefficients[p + 1], stream, |stream| - 1, TAPS)
      ensures -0x8_0000_0000 <= a <= 0x8_0000_0000 && -0x8_0000_0000 <= b <= 0x8_0000_0000
    {
      a, b := 0, 0;
      ghost var n := |stream| - 1;
      for k := 0 to TAPS
        invariant a == Convolve(coefficients[p], stream, n, k)
        invariant b == Convolve(coefficients[p + 1], stream, n, k)
      {
        // Unsigned subtraction, then the mask by TAPS - 1.
        var index := (head - k) % 0x1_0000_0000 % TAPS;
        CircularIndex(n, k);
        var sample := history[index];
        assert sample == At(stream, n - k);
        a := a + sample * coefficients[p][k];
        b := b + sample * coefficients[p + 1][k];
      }
      ConvolveBounded(coefficients[p], stream, n, TAPS);
      ConvolveBounded(coefficients[p + 1], stream, n, TAPS);
    }

    /** The sample that falls due now, from the circular history. */
    method Output() returns (value: int)
      requires history.Length == TAPS && head < TAPS && ValidConfig(Cfg())
      requires stream != [] && AllInt16(stream)
      requires head == (|stream| - 1) % TAPS && Holds(stream, |stream|)
      requires phase < outputRate
      ensures value == ValueAt(Cfg(), stream, |stream| - 1, phase)
    {
      PhaseBounds(Cfg(), phase);
      var scaled := phase * PHASES;
      var index := scaled / outputRate;
      var remainder := scaled % outputRate;
      var blend := remainder * 256 / outputRate;
      var a, b := Accumulate(index);
      MixBounded(a, b, blend);
      value := (a * (256 - blend) + b * blend + 0x40_0000) / 0x80_0000;
      value := if value > 32767 then 32767 else if value < -32768 then -32768 else value;
    }

    /** The outputs that fall between the newest sample and the next one. */
    method EmitDue(out: array<int>, at: nat) returns (used: nat)
      requires history.Length == TAPS && head < TAPS && ValidConfig(Cfg()) && out != history
      requires stream != [] && AllInt16(stream)
      requires head == (|stream| - 1) % TAPS && Holds(stream, |stream|)
      requires emitted == Produced(Cfg(), |stream| - 1) && phase == PhaseAfter(Cfg(), |stream| - 1)
      requires at + Produced(Cfg(), |stream|) - emitted <= out.Length
      modifies this`phase, this`emitted, out
      ensures emitted == Produced(Cfg(), |stream|) && used == emitted - old(emitted)
      ensures phase == PhaseAfter(Cfg(), |stream|) + outputRate
      ensures Wrote(out[..], at, used, old(out[..]), Cfg(), stream, old(emitted))
    {
      hide Sample, Produced, PhaseAfter, Due, Wrote, Holds;
      used := 0;
      ghost var c, n, first := Cfg(), |stream| - 1, emitted;
      DueStart(c, n);
      ProducedBound(c, n, 1);
      WroteNone(out[..], at, c, stream, first);
      while phase < outputRate
        invariant Cfg() == c && emitted == first + used && Due(c, n, emitted, phase)
        invariant Wrote(out[..], at, used, old(out[..]), c, stream, first)
        decreases outputRate - phase
      {
        DueStep(c, n, emitted, phase);
        WroteOne(out[..], at, used, old(out[..]), c, stream, first);
        EmitOne(out, at + used);
        used := used + 1;
      }
      DueEnd(c, n, emitted, phase);
    }

    method EmitOne(out: array<int>, at: nat)
      requires history.Length == TAPS && head < TAPS && ValidConfig(Cfg()) && out != history
      requires stream != [] && AllInt16(stream)
      requires head == (|stream| - 1) % TAPS && Holds(stream, |stream|)
      requires phase < outputRate && at < out.Length
      requires emitted * inputRate / outputRate == |stream| - 1 && emitted * inputRate % outputRate == phase
      modifies this`phase, this`emitted, out
      ensures emitted == old(emitted) + 1 && phase == old(phase) + inputRate
      ensures out[..] == old(out[..])[at := Sample(Cfg(), stream, old(emitted))]
    {
      var value := Output();
      out[at] := value;
      phase := phase + inputRate;
      emitted := emitted + 1;
    }

    /** The newest sample replaces the one that has left the window. */
    method Store(x: int)
      requires Valid() && Ready() && Int16(x)
      modifies history, this`stream
      ensures stream == old(stream) + [x] && AllInt16(stream)
      ensures Holds(stream, |stream|)
    {
      history[head] := x;
      ghost var n := |stream|;
      stream := stream + [x];
      forall m | n + 1 - TAPS <= m < n + 1
        ensures history[m % TAPS] == At(stream, m)
      {
        if m < n {
          DistinctSlots(m, n);
          assert At(old(stream), m) == At(stream, m);
        }
      }
    }

    /** The body of the block loop: one sample in, the outputs due before the next one out. */
    method Feed(x: int, out: array<int>, at: nat) returns (used: nat)
      requires Valid() && Ready() && Int16(x) && out != history
      requires at + Produced(Cfg(), |stream| + 1) - emitted <= out.Length
      modifies this`phase, this`head, this`stream, this`emitted, history, out
      ensures Valid() && Cfg() == old(Cfg()) && stream == old(stream) + [x] && used == emitted - old(emitted)
      ensures Wrote(out[..], at, used, old(out[..]), Cfg(), stream, old(emitted))
    {
      hide Sample, Produced, PhaseAfter, Wrote;
      ghost var n := |stream|;
      Store(x);
      used := EmitDue(out, at);
      phase := phase - outputRate;
      head := (head + 1) % TAPS;
      NextSlot(n);
    }

    /**
     One block. It is refused, touching nothing, exactly when the record is not
     initialised, an argument is out of range or the output would not fit; otherwise the
     samples written are precisely those of the unbounded signal that fall due.
     */
    method Process(input: array?<int>, from: nat, count: nat, out: array?<int>, at: nat, cap: nat)
      returns (n: int)
      requires Valid()
      requires input != null ==> from + count <= input.Length && AllInt16(input[from..from + count])
      requires out != null ==> at + cap <= out.Length
      requires out != history && input != history && (input != null ==> input != out)
      modifies this`phase, this`head, this`stream, this`emitted, history, out
      ensures Valid()
      ensures n == -1 <==>
        || !Ready() || input == null || out == null || count > MAX_BLOCK || cap > MAX_CAPACITY
        || cap < Produced(Cfg(), |old(stream)| + count) - Produced(Cfg(), |old(stream)|)
      ensures n == -1 ==> unchanged(this) && unchanged(history) && (out != null ==> unchanged(out))
      ensures n != -1 ==>
        && stream == old(stream) + input[from..from + count]
        && n == emitted - old(emitted) && 0 <= n <= cap
        && Wrote(out[..], at, n, old(out[..]), Cfg(), stream, old(emitted))
    {
      hide Sample, Produced, PhaseAfter, Holds, Samples;
      if !Ready() || input == null || out == null || count > MAX_BLOCK || cap > MAX_CAPACITY {
        return -1;
      }
      ghost var c, start, before := Cfg(), stream, emitted;
      RequiredExact(c, |stream|, count);
      var span := count * outputRate;
      assert span < 0x1_0000_0000 by { MulMono(count, MAX_BLOCK, outputRate); }
      var required := if span > phase then (span - phase + inputRate - 1) / inputRate else 0;
      if cap < required {
        return -1;
      }
      n := FeedBlock(input, from, count, out, at);
    }

    lemma ValidFacts()
      requires Valid() && Ready()
      ensures ValidConfig(Cfg()) && emitted == Produced(Cfg(), |stream|) && inputRate > 0 && outputRate > 0
    {
    }

    /** The loop over the samples of an accepted block. */
    method FeedBlock(input: array<int>, from: nat, count: nat, out: array<int>, at: nat) returns (used: nat)
      requires Valid() && Ready() && from + count <= input.Length && AllInt16(input[from..from + count])
      requires out != history && input != history && input != out
      requires at + Produced(Cfg(), |stream| + count) - emitted <= out.Length
      modifies this`phase, this`head, this`stream, this`emitted, history, out
      ensures Valid() && stream == old(stream) + input[from..from + count]
      ensures used == emitted - old(emitted)
      ensures Wrote(out[..], at, used, old(out[..]), Cfg(), stream, old(emitted))
    {
      ValidFacts();
      hide Produced, Samples, Wrote, Valid, ValidConfig;
      used := 0;
      ghost var c, start, before, was := Cfg(), stream, emitted, out[..];
      ProducedBound(c, |stream|, count);
      WroteNone(was, at, c, stream, before);
      for i := 0 to count
        invariant Valid() && Cfg() == c
        invariant stream == start + input[from..from + i] && |stream| == |start| + i
        invariant used == emitted - before
        invariant Wrote(out[..], at, used, was, c, stream, before)
        invariant input[..] == old(input[..])
      {
        ProducedBound(c, |stream| + 1, count - i - 1);
        assert input[from + i] == old(input[from..from + count])[i];
        used := FeedOne(input[from + i], out, at, used, before, was);
        assert input[from..from + i + 1] == input[from..from + i] + [input[from + i]];
      }
    }

    /** One more sample of a block; `used` outputs of the block are written already. */
    method FeedOne(x: int, out: array<int>, at: nat, used: nat, ghost first: nat, ghost was: seq<int>)
      returns (now: nat)
      requires Valid() && Ready() && Int16(x) && out != history && first + used == emitted
      requires at + Produced(Cfg(), |stream| + 1) - first <= out.Length && |was| == out.Length
      requires ValidConfig(Cfg()) && Wrote(out[..], at, used, was, Cfg(), stream, first)
      modifies this`phase, this`head, this`stream, this`emitted, history, out
      ensures Valid() && stream == old(stream) + [x] && now == emitted - first
      ensures ValidConfig(Cfg()) && Wrote(out[..], at, now, was, Cfg(), stream, first)
    {
      hide *;
      ValidFacts();
      ghost var c, older, mid := Cfg(), stream, out[..];
      var more := Feed(x, out, at + used);
      assert Cfg() == c && stream == older + [x];
      WroteMore(out[..], mid, was, at, used, more, c, older, x, first);
      now := used + more;
    }
  }

  /** `o` is `was` with outputs number first, first + 1, ... of the signal from index `at`. */
  ghost predicate Wrote(o: seq<int>, at: nat, used: nat, was: seq<int>, c: Config, s: seq<int>, first: nat)
    requires ValidConfig(c)
  {
    && at + used <= |was|
    && o == was[..at] + Samples(c, s, first, first + used) + was[at + used..]
  }

  lemma WroteNone(o: seq<int>, at: nat, c: Config, s: seq<int>, first: nat)
    requires ValidConfig(c) && at <= |o|
    ensures Wrote(o, at, 0, o, c, s, first)
  {
    assert o == o[..at] + [] + o[at..];
  }

  lemma WroteOne(o: seq<int>, at: nat, used: nat, was: seq<int>, c: Config, s: seq<int>, first: nat)
    requires ValidConfig(c) && Wrote(o, at, used, was, c, s, first) && at + used < |o|
    ensures Wrote(o[at + used := Sample(c, s, first + used)], at, used + 1, was, c, s, first)
  {
    assert Samples(c, s, first, first + used + 1) == Samples(c, s, first, first + used) + [Sample(c, s, first + used)];
  }

  /** Writes for one sample continue the writes of the samples before it. */
  lemma WroteMore(o: seq<int>, mid: seq<int>, was: seq<int>, at: nat, used: nat, more: nat,
                  c: Config, s: seq<int>, x: int, first: nat)
    requires ValidConfig(c) && first + used == Produced(c, |s|)
    requires Wrote(mid, at, used, was, c, s, first)
    requires Wrote(o, at + used, more, mid, c, s + [x], first + used)
    ensures Wrote(o, at, used + more, was, c, s + [x], first)
  {
    var whole, head := Samples(c, s + [x], first, first + used + more), Samples(c, s, first, first + used);
    forall i | 0 <= i < used ensures whole[i] == head[i] {
      SampleCausal(c, s, [x], first + i);
    }
    assert Samples(c, s + [x], first, first + used + more)
        == Samples(c, s, first, first + used) + Samples(c, s + [x], first + used, first + used + more);
  }

  lemma NextSlot(n: nat)
    ensures (n % TAPS + 1) % TAPS == (n + 1) % TAPS
  {
    ModShift(n % TAPS + 1, n / TAPS);
    assert n == n / TAPS * TAPS + n % TAPS;
  }

  lemma DistinctSlots(m: int, n: int)
    requires n - TAPS < m < n
    ensures m % TAPS != n % TAPS
  {
    assert m == m / TAPS * TAPS + m % TAPS && n == n / TAPS * TAPS + n % TAPS;
  }

  /** Output `j` is the next one due at sample `n`, `phase` parts after it. */
  ghost predicate Due(c: Config, n: nat, j: nat, phase: nat) {
    phase == j * c.inRate - n * c.outRate && (j - 1) * c.inRate < (n + 1) * c.outRate
  }

  lemma DueStart(c: Config, n: nat)
    requires 0 < c.inRate
    ensures Due(c, n, Produced(c, n), PhaseAfter(c, n))
  {
    CeilDivBounds(n * c.outRate, c.inRate);
    assert (n + 1) * c.outRate == n * c.outRate + c.outRate;
  }

  /** While the phase lies below the output rate, the next output belongs to sample `n`. */
  lemma DueStep(c: Config, n: nat, j: nat, phase: nat)
    requires 0 < c.inRate && 0 < c.outRate
    requires Due(c, n, j, phase) && phase < c.outRate
    ensures j * c.inRate / c.outRate == n && j * c.inRate % c.outRate == phase
    ensures j < Produced(c, n + 1)
    ensures Due(c, n, j + 1, phase + c.inRate)
  {
    var x := j * c.inRate;
    assert x == x / c.outRate * c.outRate + x % c.outRate;
    if x / c.outRate > n { MulMono(n + 1, x / c.outRate, c.outRate); }
    if x / c.outRate < n { MulMono(x / c.outRate + 1, n, c.outRate); }
    ProducedExact(c, n + 1, j);
    assert (j + 1) * c.inRate == x + c.inRate;
    assert (n + 1) * c.outRate == n * c.outRate + c.outRate;
  }

  lemma DueEnd(c: Config, n: nat, j: nat, phase: nat)
    requires 0 < c.inRate
    requires Due(c, n, j, phase) && phase >= c.outRate
    ensures j == Produced(c, n + 1) && phase == PhaseAfter(c, n + 1) + c.outRate
  {
    assert (n + 1) * c.outRate == n * c.outRate + c.outRate;
    CeilDivIs((n + 1) * c.outRate, c.inRate, j);
  }
}
