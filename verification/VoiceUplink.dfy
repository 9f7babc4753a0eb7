/**
 The uplink of a voice turn as a whole: the microphone's signal, resampled block by block in the
 event loop and cut into frames, is the one-pass resampling of what the microphone gave while
 the turn listened (components/pogvoice/pogvoice.c, components/pogvoice/pogvoice_resample.c).
 */
module VoiceUplink {
  import opened Prelude
  import opened VoiceFir
  import opened VoiceResampler
  import VoiceCallers
  import Turn = VoiceTurn

  /** What the microphone gave in the listening iterations before `k`. */
  ghost function Given(script: seq<Turn.Iteration>, mic: seq<seq<int>>, k: nat): seq<int>
    requires k <= |script| == |mic|
  {
    if k == 0 then []
    else Given(script, mic, k - 1) + if Turn.ListensAt(script, k - 1) then mic[k - 1] else []
  }

  /** The resampler's output for `block` after the signal `s`. */
  function BlockOutput(c: Config, s: seq<int>, block: seq<int>): seq<int>
    requires ValidConfig(c)
  {
    ProducedBound(c, |s|, |block|);
    Samples(c, s + block, Produced(c, |s|), Produced(c, |s + block|))
  }

  /** Each listening iteration converts its block by a resampler started with the session. */
  ghost predicate Converts(script: seq<Turn.Iteration>, mic: seq<seq<int>>, c: Config)
    requires |script| == |mic| && ValidConfig(c)
  {
    forall k :: 0 <= k < |script| && Turn.ListensAt(script, k) ==>
      script[k].converted == Some(BlockOutput(c, Given(script, mic, k), mic[k]))
  }

  /** The listening iterations are those from `i` to before `j`. */
  ghost predicate IsRange(script: seq<Turn.Iteration>, i: nat, j: nat) {
    i <= j <= |script| && forall k :: 0 <= k < |script| ==> (Turn.ListensAt(script, k) <==> i <= k < j)
  }

  lemma {:induction false} NothingGiven(script: seq<Turn.Iteration>, mic: seq<seq<int>>, i: nat, j: nat, k: nat)
    requires |script| == |mic| && IsRange(script, i, j) && k <= i
    ensures Given(script, mic, k) == []
  {
    if k > 0 { NothingGiven(script, mic, i, j, k - 1); }
  }

  lemma VoiceStep(script: seq<Turn.Iteration>, mic: seq<seq<int>>, i: nat, k: nat)
    requires i <= k < |script| == |mic|
    ensures Turn.Voice(script[i..k + 1]) == Turn.Voice(script[i..k]) + Turn.VoiceOf(script[k])
    ensures Concat(mic[i..k + 1]) == Concat(mic[i..k]) + mic[k]
  {
    hide Turn.VoiceOf;
    assert script[i..k + 1][..k - i] == script[i..k] && script[i..k + 1][k - i] == script[k];
    assert mic[i..k + 1][..k - i] == mic[i..k] && mic[i..k + 1][k - i] == mic[k];
  }

  lemma VoiceNone(script: seq<Turn.Iteration>, mic: seq<seq<int>>, i: nat)
    requires i <= |script| == |mic|
    ensures Turn.Voice(script[i..i]) == [] && Concat(mic[i..i]) == []
  {
    assert script[i..i] == [] && mic[i..i] == [];
  }

  lemma GivenStep(script: seq<Turn.Iteration>, mic: seq<seq<int>>, c: Config, k: nat)
    requires |script| == |mic| && ValidConfig(c) && Converts(script, mic, c)
    requires k < |script| && Turn.ListensAt(script, k)
    ensures Given(script, mic, k + 1) == Given(script, mic, k) + mic[k]
    ensures Turn.VoiceOf(script[k]) == BlockOutput(c, Given(script, mic, k), mic[k])
  {
    hide Turn.ListensAt, BlockOutput;
  }

  /** Within the range, what was captured is the one-pass output of what was given. */
  lemma {:induction false} VoiceResampled(
    script: seq<Turn.Iteration>, mic: seq<seq<int>>, c: Config, i: nat, j: nat, k: nat)
    requires |script| == |mic| && ValidConfig(c) && Converts(script, mic, c)
    requires IsRange(script, i, j) && i <= k <= j
    ensures Turn.Voice(script[i..k]) == OnePass(c, Given(script, mic, k))
    ensures Given(script, mic, k) == Concat(mic[i..k])
  {
    hide Turn.ListensAt, Turn.Voice, Turn.VoiceOf, Given, Converts, OnePass, Samples, Produced, Concat;
    if k == i {
      NothingGiven(script, mic, i, j, i);
      VoiceNone(script, mic, i);
      OnePassEmpty(c);
    } else {
      VoiceResampled(script, mic, c, i, j, k - 1);
      GivenStep(script, mic, c, k - 1);
      VoiceStep(script, mic, i, k - 1);
      OnePassExtends(c, Given(script, mic, k - 1), mic[k - 1]);
    }
  }

  lemma OnePassEmpty(c: Config)
    requires ValidConfig(c)
    ensures OnePass(c, []) == []
  {
    CeilDivIs(0, c.inRate, 0);
  }

  /**
   The uplink of turn `t` is the one-pass resampling of what the microphone gave from block `i` to
   before block `j`: all of it, completed to a frame, once listening has been ended; all whole
   frames of it if the reply came first.
   */
  ghost predicate Resampled(t: Turn.Turn, mic: seq<seq<int>>, c: Config, i: nat, j: nat)
    requires ValidConfig(c) && i <= j <= |mic|
  {
    var signal := OnePass(c, Concat(mic[i..j]));
    && t.captured == signal
    && (Turn.ListenStop in t.log ==> Turn.Uplink(t.log) == signal + Turn.Padding(signal))
    && (Turn.ListenStop !in t.log && !t.failed ==> Turn.Uplink(t.log) == Turn.WholeFrames(signal))
  }

  /**
   For every script and every microphone signal, the uplink is the resampled signal from the
   accepted hello to the end of listening.
   */
  lemma UplinkIsResampled(script: seq<Turn.Iteration>, mic: seq<seq<int>>, c: Config) returns (i: nat, j: nat)
    requires |script| == |mic| && ValidConfig(c) && Converts(script, mic, c)
    ensures var t := Turn.TurnFrom(Turn.START, script);
            Turn.CapturedIn(t.captured, script, i, j) && i <= j <= |mic| && Resampled(t, mic, c, i, j)
  {
    hide Turn.TurnFrom, Turn.ListensAt, Turn.Voice, OnePass;
    i, j := Turn.CapturedRange(script);
    VoiceResampled(script, mic, c, i, j, j);
    Turn.StartInv();
    Turn.TurnInv(Turn.START, script);
    Turn.InvFacts(Turn.TurnFrom(Turn.START, script));
  }

  // ------------------------------------------------------- the loop with its resampler

  /** Later iterations do not change what was given before. */
  lemma {:induction false} GivenPrefix(done: seq<Turn.Iteration>, it: Turn.Iteration, mic: seq<seq<int>>, k: nat)
    requires |done| < |mic| && k <= |done|
    ensures Given(done + [it], mic[..|done| + 1], k) == Given(done, mic[..|done|], k)
  {
    hide Turn.ListensAt;
    if k > 0 {
      GivenPrefix(done, it, mic, k - 1);
      Turn.ListensPrefix(done, it, k - 1);
    }
  }

  /** The iterations so far have been converted by the resampler, which has heard what was given. */
  ghost predicate Tracks(done: seq<Turn.Iteration>, mic: seq<seq<int>>, c: Config, stream: seq<int>) {
    && |done| <= |mic| && ValidConfig(c)
    && Converts(done, mic[..|done|], c) && stream == Given(done, mic[..|done|], |done|)
  }

  lemma TracksMore(done: seq<Turn.Iteration>, it: Turn.Iteration, mic: seq<seq<int>>, c: Config,
                   stream: seq<int>, longer: seq<int>)
    requires Tracks(done, mic, c, stream) && |done| < |mic|
    requires if Turn.ListensAt(done + [it], |done|)
             then longer == stream + mic[|done|] && it.converted == Some(BlockOutput(c, stream, mic[|done|]))
             else longer == stream
    ensures Tracks(done + [it], mic, c, longer)
  {
    hide Turn.ListensAt, BlockOutput;
    var all, heard := done + [it], mic[..|done| + 1];
    GivenPrefix(done, it, mic, |done|);
    forall k | 0 <= k < |all| && Turn.ListensAt(all, k)
      ensures all[k].converted == Some(BlockOutput(c, Given(all, heard, k), heard[k]))
    {
      GivenPrefix(done, it, mic, k);
      if k < |done| {
        Turn.ListensPrefix(done, it, k);
        assert all[k] == done[k] && heard[k] == mic[..|done|][k];
      }
    }
    assert stream + [] == stream;
  }

  /** One block from the microphone; nothing is converted when nothing has come. */
  method ConvertMic(r: Resampler, block: seq<int>) returns (out: seq<int>)
    requires r.Valid() && r.Ready() && |block| <= MAX_BLOCK && AllInt16(block)
    modifies r`phase, r`head, r`stream, r`emitted, r.history
    ensures r.Valid() && r.Ready() && r.Cfg() == old(r.Cfg()) && ValidConfig(r.Cfg())
    ensures r.stream == old(r.stream) + block
    ensures out == BlockOutput(r.Cfg(), old(r.stream), block)
  {
    r.ValidFacts();
    hide Sample, Produced, Resampler.Holds, PhaseAfter;
    var chunk := new int[|block|](i requires 0 <= i < |block| => block[i]);
    assert chunk[..] == block;
    if |block| == 0 {
      assert r.stream + block == r.stream;
      return [];
    }
    var converted := new int[MAX_CAPACITY];
    var got := VoiceCallers.ConvertBlock(r, chunk, 0, |block|, converted);
    r.ValidFacts();
    out := converted[..got];
  }

  /** The iteration with other converted samples. */
  function WithVoice(it: Turn.Iteration, x: Option<seq<int>>): Turn.Iteration {
    it.(converted := x)
  }

  lemma VoiceSet(it: Turn.Iteration, x: Option<seq<int>>)
    ensures WithVoice(it, x).converted == x && WithVoice(it, it.converted) == it
    ensures WithVoice(it, x).cancelled == it.cancelled
  {
  }

  /** The iteration with what the block converts to. */
  method Hear(r: Resampler, it: Turn.Iteration, block: seq<int>) returns (heard: Turn.Iteration)
    requires r.Valid() && r.Ready() && |block| <= MAX_BLOCK && AllInt16(block)
    modifies r`phase, r`head, r`stream, r`emitted, r.history
    ensures r.Valid() && r.Ready() && r.Cfg() == old(r.Cfg()) && ValidConfig(r.Cfg())
    ensures r.stream == old(r.stream) + block
    ensures heard.converted == Some(BlockOutput(r.Cfg(), old(r.stream), block))
    ensures heard == WithVoice(it, heard.converted)
  {
    hide *;
    var out := ConvertMic(r, block);
    heard := WithVoice(it, Some(out));
    VoiceSet(it, Some(out));
  }

  /** Up to the microphone an iteration does not depend on the converted samples. */
  lemma AtMicSame(t: Turn.Turn, it: Turn.Iteration, x: Option<seq<int>>)
    ensures Turn.AtMic(t, WithVoice(it, x)) == Turn.AtMic(t, it)
  {
    hide Turn.Received;
  }

  /**
   Where the loop is: `ran` are the iterations so far, as the script has them but with what the
   resampler made of the microphone's blocks, and `stream` is what the resampler has heard.
   */
  ghost predicate At(t: Turn.Turn, ran: seq<Turn.Iteration>, script: seq<Turn.Iteration>, mic: seq<seq<int>>,
                     c: Config, stream: seq<int>)
  {
    && |ran| <= |script| == |mic|
    && t == Turn.TurnFrom(Turn.START, ran) && Turn.Inv(t) && Turn.NoneCancelled(ran)
    && (forall k :: 0 <= k < |ran| ==> ran[k] == WithVoice(script[k], ran[k].converted))
    && Tracks(ran, mic, c, stream)
  }

  lemma AtStart(script: seq<Turn.Iteration>, mic: seq<seq<int>>, c: Config)
    requires |script| == |mic| && ValidConfig(c)
    ensures At(Turn.START, [], script, mic, c, [])
  {
    Turn.StartInv();
  }

  /** One iteration of the loop. */
  lemma AtNext(t: Turn.Turn, ran: seq<Turn.Iteration>, script: seq<Turn.Iteration>, mic: seq<seq<int>>,
               c: Config, stream: seq<int>, it: Turn.Iteration, longer: seq<int>)
    requires At(t, ran, script, mic, c, stream) && ValidConfig(c)
    requires |ran| < |script| && !t.done && !t.failed && !script[|ran|].cancelled
    requires it == WithVoice(script[|ran|], it.converted)
    requires var v := Turn.AtMic(t, script[|ran|]);
             if !v.failed && v.listening
             then longer == stream + mic[|ran|] && it.converted == Some(BlockOutput(c, stream, mic[|ran|]))
             else longer == stream
    ensures At(Turn.Iterated(t, it), ran + [it], script, mic, c, longer)
  {
    hide Tracks, Turn.Iterated, Turn.AtMic, Turn.Inv, Turn.TurnFrom, BlockOutput;
    AtMicSame(t, script[|ran|], it.converted);
    VoiceSet(script[|ran|], it.converted);
    Listens(ran, it, t);
    TracksMore(ran, it, mic, c, stream, longer);
    Turn.TurnAppend(Turn.START, ran, it);
    Turn.IteratedKeeps(t, it);
  }

  lemma AtFacts(t: Turn.Turn, ran: seq<Turn.Iteration>, script: seq<Turn.Iteration>, mic: seq<seq<int>>,
                c: Config, stream: seq<int>)
    requires At(t, ran, script, mic, c, stream)
    ensures |ran| <= |script| == |mic| && ValidConfig(c) && Turn.Inv(t) && Turn.Lawful(t.log)
    ensures t == Turn.TurnFrom(Turn.START, ran) && Converts(ran, mic[..|ran|], c)
    ensures forall k :: 0 <= k < |ran| ==> ran[k] == WithVoice(script[k], ran[k].converted)
  {
    hide Turn.TurnFrom, Turn.Conserved, Turn.Buffered, Turn.AllFull, Given;
  }

  /**
   The event loop with the microphone's resampler: for every script, whatever it says of converted
   samples, and every microphone signal in blocks of at most 160, the uplink is the one-pass
   resampling of the signal from the accepted hello on.
   */
  method ConverseWithMic(script: seq<Turn.Iteration>, mic: seq<seq<int>>, r: Resampler)
    returns (t: Turn.Turn, ran: seq<Turn.Iteration>, ghost i: nat, ghost j: nat)
    requires |script| == |mic| && r.Valid() && r.Ready() && r.stream == []
    requires forall k :: 0 <= k < |mic| ==> |mic[k]| <= MAX_BLOCK && AllInt16(mic[k])
    modifies r`phase, r`head, r`stream, r`emitted, r.history
    ensures r.Valid() && ValidConfig(r.Cfg()) && |ran| <= |script| && t == Turn.TurnFrom(Turn.START, ran)
    ensures forall k :: 0 <= k < |ran| ==> ran[k] == WithVoice(script[k], ran[k].converted)
    ensures |ran| < |script| ==> t.done || t.failed || script[|ran|].cancelled
    ensures Turn.Lawful(t.log) && Turn.CapturedIn(t.captured, ran, i, j)
    ensures i <= j <= |mic| && Resampled(t, mic, r.Cfg(), i, j)
  {
    hide *;
    r.ValidFacts();
    ghost var c := r.Cfg();
    t, ran := Turn.START, [];
    AtStart(script, mic, c);
    while |ran| < |script| && !t.done && !t.failed && !script[|ran|].cancelled
      invariant r.Valid() && r.Ready() && r.Cfg() == c && ValidConfig(c)
      invariant |ran| <= |script| && At(t, ran, script, mic, c, r.stream)
      decreases |script| - |ran|
    {
      t, ran := Advance(script, mic, r, t, ran);
    }
    AtFacts(t, ran, script, mic, c, r.stream);
    i, j := UplinkIsResampled(ran, mic[..|ran|], c);
    ResampledWithin(t, ran, mic, c, i, j);
  }

  /** The body of the loop. */
  method Advance(script: seq<Turn.Iteration>, mic: seq<seq<int>>, r: Resampler, t: Turn.Turn, ran: seq<Turn.Iteration>)
    returns (u: Turn.Turn, longer: seq<Turn.Iteration>)
    requires r.Valid() && r.Ready() && ValidConfig(r.Cfg())
    requires |ran| < |script| == |mic| && !t.done && !t.failed && !script[|ran|].cancelled
    requires |mic[|ran|]| <= MAX_BLOCK && AllInt16(mic[|ran|])
    requires At(t, ran, script, mic, r.Cfg(), r.stream)
    modifies r`phase, r`head, r`stream, r`emitted, r.history
    ensures r.Valid() && r.Ready() && r.Cfg() == old(r.Cfg()) && |longer| == |ran| + 1
    ensures At(u, longer, script, mic, r.Cfg(), r.stream)
  {
    hide *;
    ghost var c, before := r.Cfg(), r.stream;
    AtFacts(t, ran, script, mic, c, before);
    var it := script[|ran|];
    var v := Turn.AtMic(t, it);
    if !v.failed && v.listening {
      it := Hear(r, it, mic[|ran|]);
    }
    VoiceSet(script[|ran|], it.converted);
    AtNext(t, ran, script, mic, c, before, it, r.stream);
    u := Turn.Iterate(t, it);
    longer := ran + [it];
  }

  lemma ResampledWithin(t: Turn.Turn, ran: seq<Turn.Iteration>, mic: seq<seq<int>>, c: Config, i: nat, j: nat)
    requires |ran| <= |mic| && ValidConfig(c) && Turn.CapturedIn(t.captured, ran, i, j)
    requires i <= j <= |ran| && Resampled(t, mic[..|ran|], c, i, j)
    ensures Resampled(t, mic, c, i, j)
  {
    hide Turn.CapturedIn, OnePass;
    assert mic[..|ran|][i..j] == mic[i..j];
  }

  lemma Listens(done: seq<Turn.Iteration>, it: Turn.Iteration, t: Turn.Turn)
    requires t == Turn.TurnFrom(Turn.START, done) && Turn.NoneCancelled(done) && !t.done && !t.failed && !it.cancelled
    ensures var v := Turn.AtMic(t, it);
            Turn.ListensAt(done + [it], |done|) <==> !v.failed && v.listening
  {
    hide Turn.AtMic, Turn.TurnFrom;
    assert (done + [it])[..|done|] == done;
  }
}
