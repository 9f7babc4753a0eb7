/**
 The two loops that cut audio into blocks for the voice resampler: replies on their way
 to the speaker (components/pogvoice/pogvoice.c) and captured audio on its way to the
 wake engine (components/pogwake/pogwake.c).
 */
module VoiceCallers {
  import opened Prelude
  import opened VoiceFir
  import opened VoiceResampler

  /** `Samples` over adjacent ranges, the first taken before the signal grew. */
  lemma SamplesJoin(c: Config, s: seq<int>, t: seq<int>, from: nat)
    requires ValidConfig(c) && from <= Produced(c, |s|)
    ensures Produced(c, |s|) <= Produced(c, |s + t|)
    ensures Samples(c, s + t, from, Produced(c, |s + t|))
         == Samples(c, s, from, Produced(c, |s|)) + Samples(c, s + t, Produced(c, |s|), Produced(c, |s + t|))
  {
    ProducedBound(c, |s|, |t|);
    var whole, head := Samples(c, s + t, from, Produced(c, |s + t|)), Samples(c, s, from, Produced(c, |s|));
    forall i | 0 <= i < |head| ensures whole[i] == head[i] {
      SampleCausal(c, s, t, from + i);
    }
  }

  /** One block of at most 160 samples through the fixed 1024-sample buffer. */
  method ConvertBlock(r: Resampler, decoded: array<int>, i: nat, n: nat, converted: array<int>)
    returns (got: int)
    requires r.Valid() && r.Ready() && i + n <= decoded.Length && n <= MAX_BLOCK && AllInt16(decoded[..])
    requires converted.Length == MAX_CAPACITY && converted != r.history && decoded != r.history
    requires decoded != converted
    modifies r`phase, r`head, r`stream, r`emitted, r.history, converted
    ensures r.Valid() && 0 <= got <= 960 && r.emitted == old(r.emitted) + got
    ensures r.stream == old(r.stream) + decoded[i..i + n]
    ensures converted[..got] == Samples(r.Cfg(), r.stream, old(r.emitted), r.emitted)
  {
    ConversationBufferSuffices(r.Cfg(), |r.stream|, n);
    got := r.Process(decoded, i, n, converted, 0, MAX_CAPACITY);
  }

  /** One block behind what the speaker has been given since output `first`. */
  method SpeakBlock(r: Resampler, decoded: array<int>, i: nat, n: nat, converted: array<int>,
                    speaker: seq<int>, ghost first: nat)
    returns (ok: bool, longer: seq<int>)
    requires r.Valid() && r.Ready() && i + n <= decoded.Length && n <= MAX_BLOCK && AllInt16(decoded[..])
    requires converted.Length == MAX_CAPACITY && converted != r.history && decoded != r.history
    requires decoded != converted
    requires first <= r.emitted && speaker == Samples(r.Cfg(), r.stream, first, r.emitted)
    modifies r`phase, r`head, r`stream, r`emitted, r.history, converted
    ensures r.Valid() && ok && r.stream == old(r.stream) + decoded[i..i + n]
    ensures first <= r.emitted && longer == Samples(r.Cfg(), r.stream, first, r.emitted)
  {
    hide Sample, Samples;
    ghost var older := r.stream;
    var got := ConvertBlock(r, decoded, i, n, converted);
    SamplesJoin(r.Cfg(), older, decoded[i..i + n], first);
    ok, longer := true, speaker;
    if got < 0 {
      ok := false;
    } else {
      longer := speaker + converted[..got];
    }
  }

  /**
   A decoded reply frame, in blocks, appended to what the speaker will play. No block is
   ever refused, and the speaker receives the outputs of the unbounded signal.
   */
  method ReplyToSpeaker(r: Resampler, decoded: array<int>, samples: nat) returns (ok: bool, speaker: seq<int>)
    requires r.Valid() && r.Ready() && samples <= decoded.Length && AllInt16(decoded[..])
    requires decoded != r.history
    modifies r`phase, r`head, r`stream, r`emitted, r.history
    ensures r.Valid() && ok && old(r.emitted) <= r.emitted
    ensures r.stream == old(r.stream) + decoded[..samples]
    ensures speaker == Samples(r.Cfg(), r.stream, old(r.emitted), r.emitted)
  {
    hide Sample, Produced, Samples;
    var converted := new int[MAX_CAPACITY];
    ok, speaker := true, [];
    var i := 0;
    ghost var c, start, first := r.Cfg(), r.stream, r.emitted;
    while i < samples && ok
      invariant r.Valid() && r.Cfg() == c && ok
      invariant decoded[..] == old(decoded[..])
      invariant var done := if i < samples then i else samples;
                r.stream == start + decoded[..done]
      invariant first <= r.emitted && speaker == Samples(c, r.stream, first, r.emitted)
    {
      var n := samples - i;
      if n > MAX_BLOCK {
        n := MAX_BLOCK;
      }
      ok, speaker := SpeakBlock(r, decoded, i, n, converted, speaker, first);
      assert decoded[..i] + decoded[i..i + n] == decoded[..i + n];
      i := i + MAX_BLOCK;
    }
  }

  /** Every cut of a reply into frames plays the one-pass resampling of the whole reply. */
  method PlayReply(r: Resampler, frames: seq<seq<int>>) returns (played: seq<int>)
    requires r.Valid() && r.Ready() && r.stream == []
    requires forall k :: 0 <= k < |frames| ==> AllInt16(frames[k])
    modifies r`phase, r`head, r`stream, r`emitted, r.history
    ensures r.Valid()
    ensures played == OnePass(r.Cfg(), Concat(frames))
    ensures |played| == CeilDiv(|Concat(frames)| * r.outputRate, r.inputRate)
  {
    played := [];
    ghost var c := r.Cfg();
    CeilDivIs(0, c.inRate, 0);
    for k := 0 to |frames|
      invariant r.Valid() && r.Cfg() == c && r.stream == Concat(frames[..k])
      invariant played == OnePass(c, r.stream)
    {
      var decoded := new int[|frames[k]|](i requires 0 <= i < |frames[k]| => frames[k][i]);
      assert decoded[..] == frames[k];
      ghost var older := r.stream;
      var ok, speaker := ReplyToSpeaker(r, decoded, |frames[k]|);
      OnePassExtends(c, older, frames[k]);
      played := played + speaker;
      assert frames[..k + 1][..k] == frames[..k];
    }
    assert frames[..|frames|] == frames;
  }

  /**
   Unity gain, from the rounded coefficients to the speaker: if storing no row loses anything,
   in particular if the rounded values and the corrected centres fit int16,
   a reply that is constant from sample `a` on comes out as that constant, at every phase, as
   soon as the history holds nothing else.
   */
  method PlayLevel(inRate: nat, outRate: nat, rounded: seq<seq<int>>, frames: seq<seq<int>>, a: nat, v: int)
    returns (ok: bool, played: seq<int>)
    requires |rounded| == PHASES + 1 && forall p :: 0 <= p < |rounded| ==> |rounded[p]| == TAPS
    requires forall k :: 0 <= k < |frames| ==> AllInt16(frames[k])
    requires Int16(v) && forall k :: a <= k < |Concat(frames)| ==> Concat(frames)[k] == v
    ensures ok <==> RateOk(inRate) && RateOk(outRate)
    ensures ok ==> |played| == CeilDiv(|Concat(frames)| * outRate, inRate)
    ensures ok && (forall p :: 0 <= p <= PHASES ==> Loss(rounded[p]) == 0) ==>
      forall j :: 0 <= j < |played| && j * inRate / outRate >= a + TAPS - 1 ==> played[j] == v
    ensures ok && (forall p :: 0 <= p <= PHASES ==> RowFits(rounded[p])) ==>
      forall j :: 0 <= j < |played| && j * inRate / outRate >= a + TAPS - 1 ==> played[j] == v
  {
    forall p | 0 <= p <= PHASES && RowFits(rounded[p]) ensures Loss(rounded[p]) == 0 {
      FittingRowLosesNothing(rounded[p]);
    }
    hide RowFits, Loss, Sample, Sum, StoredRow;
    var r := new Resampler();
    ok := r.Init(inRate, outRate, rounded);
    if !ok {
      return false, [];
    }
    played := PlayReply(r, frames);
    LevelKept(r.Cfg(), Concat(frames), a, v);
  }

  /** With rows of sum one, a signal constant from `a` on is kept from the first full window on. */
  lemma LevelKept(c: Config, s: seq<int>, a: nat, v: int)
    requires ValidConfig(c) && Int16(v) && forall k :: a <= k < |s| ==> s[k] == v
    ensures (forall p :: 0 <= p < |c.rows| ==> Sum(c.rows[p], TAPS) == UNITY) ==>
      forall j :: 0 <= j < |OnePass(c, s)| && j * c.inRate / c.outRate >= a + TAPS - 1 ==> OnePass(c, s)[j] == v
  {
    hide Sum, Sample;
    forall j | 0 <= j < |OnePass(c, s)| && j * c.inRate / c.outRate >= a + TAPS - 1
             && (forall p :: 0 <= p < |c.rows| ==> Sum(c.rows[p], TAPS) == UNITY)
      ensures OnePass(c, s)[j] == v
    {
      ProducedExact(c, |s|, j);
      var n := j * c.inRate / c.outRate;
      assert forall k :: n - TAPS < k <= n ==> At(s, k) == v;
      ConstantPreserved(c, s, j, v);
    }
  }

  const WAKE_INPUT_FRAMES := 960
  const WAKE_RATE := 16000

  function WakeOutputFrames(outputRate: nat): nat
    requires 0 < outputRate
  {
    (WAKE_INPUT_FRAMES * WAKE_RATE + outputRate - 1) / outputRate + 2
  }

  /** At the two rates the firmware can be built for, each block fits behind the earlier ones. */
  lemma WakeBufferSuffices(c: Config, n: nat, offset: nat, count: nat)
    requires (c.inRate == 44100 || c.inRate == 48000) && c.outRate == WAKE_RATE
    requires offset + count <= WAKE_INPUT_FRAMES
    ensures Produced(c, n + offset + count) - Produced(c, n) <= WakeOutputFrames(c.inRate) <= MAX_CAPACITY
  {
    ProducedBound(c, n, offset + count);
    var rest := WAKE_INPUT_FRAMES - offset - count;
    CeilDivSubadditive((offset + count) * c.outRate, rest * c.outRate, c.inRate);
    assert (offset + count) * c.outRate + rest * c.outRate == WAKE_INPUT_FRAMES * c.outRate;
  }

  /** One block written behind the `produced` samples of the blocks before it. */
  method ConvertBehind(r: Resampler, pcm: array<int>, offset: nat, count: nat, converted: array<int>,
                       produced: nat, ghost first: nat)
    returns (n: int)
    requires r.Valid() && r.Ready() && offset + count <= pcm.Length && count <= MAX_BLOCK && AllInt16(pcm[..])
    requires pcm != r.history && converted != r.history && pcm != converted
    requires produced <= converted.Length <= MAX_CAPACITY && first + produced == r.emitted
    requires converted[..produced] == Samples(r.Cfg(), r.stream, first, r.emitted)
    requires Produced(r.Cfg(), |r.stream| + count) - first <= converted.Length
    modifies r`phase, r`head, r`stream, r`emitted, r.history, converted
    ensures r.Valid() && 0 <= n && produced + n <= converted.Length && r.emitted == first + produced + n
    ensures r.stream == old(r.stream) + pcm[offset..offset + count]
    ensures converted[..produced + n] == Samples(r.Cfg(), r.stream, first, r.emitted)
  {
    hide Sample, Produced;
    ghost var older, before := r.stream, converted[..];
    n := r.Process(pcm, offset, count, converted, produced, converted.Length - produced);
    SamplesJoin(r.Cfg(), older, pcm[offset..offset + count], first);
    assert converted[..produced + n]
        == before[..produced] + Samples(r.Cfg(), r.stream, first + produced, r.emitted);
  }

  /** What one drain of the microphone queue hands to the wake engine: never a failure. */
  method CaptureToWake(r: Resampler, pcm: array<int>, inputFrames: nat)
    returns (result: int, converted: array<int>, produced: nat)
    requires r.Valid() && r.Ready() && pcm != r.history && AllInt16(pcm[..])
    requires (r.inputRate == 44100 || r.inputRate == 48000) && r.outputRate == WAKE_RATE
    requires inputFrames <= WAKE_INPUT_FRAMES && inputFrames <= pcm.Length
    modifies r`phase, r`head, r`stream, r`emitted, r.history
    ensures r.Valid() && result == 0
    ensures r.stream == old(r.stream) + pcm[..inputFrames]
    ensures produced == r.emitted - old(r.emitted) <= converted.Length
    ensures converted[..produced] == Samples(r.Cfg(), r.stream, old(r.emitted), r.emitted)
  {
    hide Sample, Produced, Samples, Resampler.Holds, PhaseAfter;
    var room := WakeOutputFrames(r.inputRate);
    converted := new int[room];
    result, produced := 0, 0;
    ghost var c, start, first := r.Cfg(), r.stream, r.emitted;
    var offset := 0;
    while offset < inputFrames
      invariant r.Valid() && r.Cfg() == c && result == 0
      invariant pcm[..] == old(pcm[..]) && fresh(converted) && converted.Length == room
      invariant var done := if offset < inputFrames then offset else inputFrames;
                r.stream == start + pcm[..done]
      invariant produced == r.emitted - first && produced <= room
      invariant converted[..produced] == Samples(c, r.stream, first, r.emitted)
    {
      var count := inputFrames - offset;
      if count > MAX_BLOCK {
        count := MAX_BLOCK;
      }
      WakeBufferSuffices(c, |start|, offset, count);
      var n := ConvertBehind(r, pcm, offset, count, converted, produced, first);
      if n < 0 {
        result := -1;
        break;
      }
      assert pcm[..offset] + pcm[offset..offset + count] == pcm[..offset + count];
      produced := produced + n;
      offset := offset + MAX_BLOCK;
    }
  }
}
