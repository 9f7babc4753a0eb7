/**
 One voice turn (the event loop of `conversation` in components/pogvoice/pogvoice.c) against
 an automaton of lawful turns. What the network, the user and the microphone do in each
 iteration is a parameter.
 */
module VoiceTurn {
  import opened Prelude

  const UPLINK_SAMPLES := 960

  // ------------------------------------------------------------------ what is visible

  datatype Event =
    | HelloSent
    | ListenStart
    | CaptureStarted
    | MicFrame(pcm: seq<int>)
    | CaptureEnded
    | ListenStop
    | ReplyStart
    | ReplyAudio

  /** Stages of a lawful turn; `Dead` is the stage of a trace that broke the rules. */
  datatype Stage = Opening | Asking | Listening | Ended | Thinking | Speaking | Dead

  /** The client's own hello belongs to no stage: it follows the connection, not the server. */
  function Next(s: Stage, e: Event): Stage {
    match (s, e)
    case (_, HelloSent) => s
    case (Opening, ListenStart) => Asking
    case (Asking, CaptureStarted) => Listening
    case (Listening, MicFrame(_)) => Listening
    case (Listening, CaptureEnded) => Ended
    case (Ended, MicFrame(_)) => Ended
    case (Ended, ListenStop) => Thinking
    case (Ended, ReplyStart) => Speaking
    case (Thinking, ReplyStart) => Speaking
    case (Speaking, ReplyStart) => Speaking
    case (Speaking, ReplyAudio) => Speaking
    case _ => Dead
  }

  function StageOf(log: seq<Event>): Stage {
    if log == [] then Opening else Next(StageOf(log[..|log| - 1]), log[|log| - 1])
  }

  lemma StageAppend(log: seq<Event>, e: Event)
    ensures StageOf(log + [e]) == Next(StageOf(log), e)
  {
    assert (log + [e])[..|log|] == log;
  }

  ghost predicate Lawful(log: seq<Event>) {
    StageOf(log) != Dead
  }

  // ------------------------------------------------------ what lawfulness means

  lemma {:induction false} LawfulPrefix(log: seq<Event>, i: nat)
    requires Lawful(log) && i <= |log|
    ensures Lawful(log[..i])
  {
    if i < |log| {
      LawfulPrefix(log[..|log| - 1], i);
      assert log[..|log| - 1][..i] == log[..i];
    } else {
      assert log[..i] == log;
    }
  }

  /** How far a turn has got; it never goes back. */
  function Rank(s: Stage): nat {
    match s
    case Opening => 0
    case Asking => 1
    case Listening => 2
    case Ended => 3
    case Thinking => 4
    case Speaking => 5
    case Dead => 6
  }

  lemma {:induction false} RankGrows(log: seq<Event>, i: nat)
    requires Lawful(log) && i <= |log|
    ensures Rank(StageOf(log[..i])) <= Rank(StageOf(log))
  {
    if i < |log| {
      LawfulPrefix(log, |log| - 1);
      RankGrows(log[..|log| - 1], i);
      assert log[..|log| - 1][..i] == log[..i];
    } else {
      assert log[..i] == log;
    }
  }

  lemma StageAt(log: seq<Event>, i: nat)
    requires Lawful(log) && i < |log|
    ensures Next(StageOf(log[..i]), log[i]) == StageOf(log[..i + 1]) != Dead
  {
    assert log[..i + 1] == log[..i] + [log[i]];
    StageAppend(log[..i], log[i]);
    LawfulPrefix(log, i + 1);
  }

  /** Between two events the stage cannot fall back. */
  lemma StageOrder(log: seq<Event>, i: nat, j: nat)
    requires Lawful(log) && i < j < |log|
    ensures Rank(StageOf(log[..i + 1])) <= Rank(StageOf(log[..j]))
  {
    LawfulPrefix(log, j);
    RankGrows(log[..j], i + 1);
    assert log[..j][..i + 1] == log[..i + 1];
  }

  /** Half duplex, for any two events of a lawful turn. */
  lemma HalfDuplex(log: seq<Event>, i: nat, j: nat)
    requires Lawful(log) && i < j < |log|
    ensures log[i].ReplyStart? || log[i].ReplyAudio? ==>
      log[j].ReplyStart? || log[j].ReplyAudio? || log[j].HelloSent?
    ensures log[i].ListenStart? ==> !log[j].ListenStart?
    ensures log[i].CaptureStarted? ==> !log[j].CaptureStarted?
    ensures log[i].CaptureEnded? ==> !log[j].CaptureEnded?
    ensures log[i].ListenStop? ==> !log[j].ListenStop? && !log[j].MicFrame?
    ensures log[i].MicFrame? ==> !log[j].ListenStart? && !log[j].CaptureStarted?
  {
    StageAt(log, i);
    StageAt(log, j);
    StageOrder(log, i, j);
  }

  /** Some event of the trace moved it from a rank below `r` to at least `r`. */
  lemma {:induction false} Crossing(log: seq<Event>, r: nat) returns (k: nat)
    requires 0 < r <= Rank(StageOf(log)) && Lawful(log)
    ensures k < |log| && Rank(StageOf(log[..k])) < r <= Rank(StageOf(log[..k + 1]))
  {
    var n := |log| - 1;
    LawfulPrefix(log, n);
    if Rank(StageOf(log[..n])) >= r {
      k := Crossing(log[..n], r);
      assert log[..n][..k] == log[..k] && log[..n][..k + 1] == log[..k + 1];
    } else {
      k := n;
      assert log[..n + 1] == log;
    }
  }

  /** Reply audio is preceded by the end of capture and the start of the reply. */
  lemma ReplyAfterCapture(log: seq<Event>, j: nat) returns (ended: nat, started: nat)
    requires Lawful(log) && j < |log| && log[j].ReplyAudio?
    ensures ended < started < j && log[ended].CaptureEnded? && log[started].ReplyStart?
  {
    StageAt(log, j);
    LawfulPrefix(log, j);
    ended := Crossing(log[..j], 3);
    started := Crossing(log[..j], 5);
    CutAgain(log, j, ended);
    CutAgain(log, j, started);
    StageAt(log, ended);
    StageAt(log, started);
    if started < ended { StageOrder(log, started, ended); }
  }

  lemma CutAgain(log: seq<Event>, j: nat, k: nat)
    requires k < j <= |log|
    ensures log[..j][..k] == log[..k] && log[..j][..k + 1] == log[..k + 1]
  {
  }

  /** Microphone frames and the end of listening come after the one start of listening. */
  lemma MicAfterListenStart(log: seq<Event>, j: nat) returns (k: nat)
    requires Lawful(log) && j < |log| && (log[j].MicFrame? || log[j].ListenStop?)
    ensures k < j && log[k].ListenStart?
  {
    StageAt(log, j);
    LawfulPrefix(log, j);
    k := Crossing(log[..j], 1);
    CutAgain(log, j, k);
    StageAt(log, k);
  }

  // ------------------------------------------------------------- what may happen

  /** A server message with the outcomes of what handling it attempts. */
  datatype Message =
    | Invalid
    | Hello(supported: bool, codecsOk: bool, finish: bool, listenOk: bool, captureOk: bool)
    | TtsStart
    | TtsStop
    | TtsOther
    | Audio(lengthOk: bool, decodeOk: bool, outputOk: bool)
    | SystemAbort
    | Alert
    | Info

  /**
   What one iteration finds: faults, a message, and the microphone. `sends` is the number of
   frames the connection still takes in this iteration.
   */
  datatype Iteration = Iteration(
    cancelled: bool, broken: bool, late: bool, connected: bool, helloOk: bool,
    message: Option<Message>,
    converted: Option<seq<int>>, sends: nat, micDone: bool, drained: bool, micOk: bool,
    lastOk: bool, stopOk: bool)

  /** The local variables of the loop, the trace, and the samples captured for the uplink. */
  datatype Turn = Turn(
    session: bool, helloSent: bool, listening: bool, micStarted: bool, tts: bool, done: bool, failed: bool,
    frame: seq<int>, log: seq<Event>, captured: seq<int>)

  const START := Turn(false, false, false, false, false, false, false, [], [], [])

  // ------------------------------------------------------------- one iteration

  function Noted(t: Turn, e: Event): Turn {
    t.(log := t.log + [e])
  }

  /** A hello opens the session; listening starts at most once. */
  function Greeted(t: Turn, m: Message): Turn
    requires m.Hello?
  {
    if t.session || !m.supported then t.(failed := true)
    else
      var u := t.(session := true);
      if !m.codecsOk then u.(failed := true)
      else if m.finish then u.(done := true)
      else
        var v := Noted(u, ListenStart);
        if !m.listenOk || !m.captureOk then v.(failed := true)
        else Noted(v, CaptureStarted).(micStarted := true, listening := true)
  }

  /** Capture is stopped and waited for; what the frame holds is discarded. */
  function Interrupted(t: Turn): Turn {
    if t.listening then Noted(t, CaptureEnded).(frame := [], listening := false) else t
  }

  /** The start of a reply stops the microphone before any audio is admitted. */
  function Spoken(t: Turn, m: Message): (u: Turn)
    ensures u.captured == t.captured && u.micStarted == t.micStarted && (u.listening ==> t.listening)
  {
    if !t.session || !t.micStarted then t.(failed := true)
    else if m.TtsStart? then Noted(Interrupted(t), ReplyStart).(tts := true)
    else if t.listening then t.(failed := true)
    else if m.TtsStop? then t.(done := true)
    else t
  }

  function Received(t: Turn, m: Message): Turn {
    match m
    case Invalid => t.(failed := true)
    case Hello(_, _, _, _, _) => Greeted(t, m)
    case Audio(lengthOk, decodeOk, outputOk) =>
      if !t.session || !t.tts || t.listening || !lengthOk || !decodeOk then t.(failed := true)
      else if !outputOk then Noted(t, ReplyAudio).(failed := true)
      else Noted(t, ReplyAudio)
    case SystemAbort => t.(done := true)
    case Alert => t.(failed := true)
    case Info => t
    case _ => Spoken(t, m)
  }

  /** The first `k` frames of a sample stream. */
  function Packets(s: seq<int>, k: nat): (es: seq<Event>)
    requires k * UPLINK_SAMPLES <= |s|
    ensures |es| == k
  {
    seq(k, i requires 0 <= i < k => MicFrame(s[i * UPLINK_SAMPLES..(i + 1) * UPLINK_SAMPLES]))
  }

  /**
   Converted samples behind what the frame holds: whole frames are sent, the rest stays in the
   frame; the frame after the last one that the connection takes fails.
   */
  function Filled(t: Turn, samples: seq<int>, sends: nat): (u: Turn)
    ensures u.done == t.done && u.helloSent == t.helloSent
  {
    var all := t.frame + samples;
    var k := |all| / UPLINK_SAMPLES;
    var u := t.(captured := t.captured + samples);
    if k <= sends then u.(log := t.log + Packets(all, k), frame := all[k * UPLINK_SAMPLES..])
    else u.(log := t.log + Packets(all, sends + 1), failed := true,
            frame := all[sends * UPLINK_SAMPLES..(sends + 1) * UPLINK_SAMPLES])
  }

  function Zeros(n: nat): (z: seq<int>)
    ensures |z| == n && forall i :: 0 <= i < n ==> z[i] == 0
  {
    seq(n, _ => 0)
  }

  /** The last frame, padded if it is not empty. */
  function LastSent(t: Turn): (u: Turn)
    ensures u.done == t.done && u.helloSent == t.helloSent
  {
    var pad := if |t.frame| < UPLINK_SAMPLES then UPLINK_SAMPLES - |t.frame| else 0;
    var u := Noted(t, CaptureEnded);
    if t.frame == [] then u else Noted(u, MicFrame(t.frame + Zeros(pad)))
  }

  /** The end of capture: the last frame, padded, and then the end of listening. */
  function Finished(t: Turn, it: Iteration): (u: Turn)
    ensures u.done == t.done && u.helloSent == t.helloSent
    ensures u.log == t.log || u.log == LastSent(t).log || u.log == LastSent(t).log + [ListenStop]
  {
    if !it.micOk then t.(failed := true)
    else if t.frame != [] && !it.lastOk then LastSent(t).(failed := true)
    else if !it.stopOk then LastSent(t).(log := LastSent(t).log + [ListenStop], failed := true)
    else LastSent(t).(log := LastSent(t).log + [ListenStop], listening := false)
  }

  /** The microphone part of an iteration. */
  function Pumped(t: Turn, it: Iteration): Turn {
    if !t.listening then t
    else if it.converted.None? then t.(failed := true)
    else
      var u := Filled(t, it.converted.value, it.sends);
      if !u.failed && it.micDone && it.drained then Finished(u, it) else u
  }

  /** An iteration up to the point where it turns to the microphone. */
  function AtMic(t: Turn, it: Iteration): Turn {
    if it.broken || it.late then t.(failed := true)
    else if it.connected && !t.helloSent && !it.helloOk then t.(failed := true)
    else
      var u := if it.connected && !t.helloSent then Noted(t.(helloSent := true), HelloSent) else t;
      if it.message.Some? then Received(u, it.message.value) else u
  }

  function Iterated(t: Turn, it: Iteration): Turn {
    var v := AtMic(t, it);
    if v.failed then v else Pumped(v, it)
  }

  /** The turn that a script of iterations makes of `t`. */
  function TurnFrom(t: Turn, script: seq<Iteration>): Turn
    decreases |script|
  {
    if script == [] || t.done || t.failed || script[0].cancelled then t
    else TurnFrom(Iterated(t, script[0]), script[1..])
  }

  // ------------------------------------------------------------------ the loops

  lemma PacketsGrow(s: seq<int>, k: nat)
    requires (k + 1) * UPLINK_SAMPLES <= |s|
    ensures Packets(s, k + 1)
         == Packets(s, k) + [MicFrame(s[k * UPLINK_SAMPLES..(k + 1) * UPLINK_SAMPLES])]
  {
  }

  /** The first `n` samples of `all` have been put into frames; `sent` of them are full. */
  ghost predicate Filling(before: seq<Event>, all: seq<int>, n: nat, frame: seq<int>, log: seq<Event>, sent: nat) {
    && sent * UPLINK_SAMPLES + |frame| == n <= |all| && |frame| < UPLINK_SAMPLES
    && frame == all[sent * UPLINK_SAMPLES..n]
    && log == before + Packets(all, sent)
  }

  lemma FillAdvance(before: seq<Event>, all: seq<int>, n: nat, frame: seq<int>, log: seq<Event>, sent: nat)
    requires Filling(before, all, n, frame, log, sent) && n < |all|
    ensures |frame| < UPLINK_SAMPLES
    ensures var f := frame + [all[n]];
            if |f| < UPLINK_SAMPLES then Filling(before, all, n + 1, f, log, sent)
            else
              && (sent + 1) * UPLINK_SAMPLES <= |all|
              && f == all[sent * UPLINK_SAMPLES..(sent + 1) * UPLINK_SAMPLES]
              && Filling(before, all, n + 1, [], log + [MicFrame(f)], sent + 1)
  {
    hide Packets;
    var f := frame + [all[n]];
    assert f == all[sent * UPLINK_SAMPLES..n + 1];
    if |f| == UPLINK_SAMPLES {
      PacketsGrow(all, sent);
      assert log + [MicFrame(f)] == before + Packets(all, sent + 1);
    }
  }

  lemma FillDone(t: Turn, samples: seq<int>, sends: nat, frame: seq<int>, log: seq<Event>, sent: nat)
    requires Filling(t.log, t.frame + samples, |t.frame| + |samples|, frame, log, sent) && sent <= sends
    ensures t.(captured := t.captured + samples, log := log, frame := frame) == Filled(t, samples, sends)
  {
    assert |t.frame + samples| / UPLINK_SAMPLES == sent;
  }

  lemma FillFails(t: Turn, samples: seq<int>, sends: nat, frame: seq<int>, log: seq<Event>, n: nat)
    requires Filling(t.log, t.frame + samples, n, [], log, sends + 1)
    requires frame == (t.frame + samples)[sends * UPLINK_SAMPLES..(sends + 1) * UPLINK_SAMPLES]
    ensures t.(captured := t.captured + samples, log := log, failed := true, frame := frame)
         == Filled(t, samples, sends)
  {
    assert |t.frame + samples| / UPLINK_SAMPLES > sends;
  }

  /** The loop over converted samples, one by one. */
  method Fill(t: Turn, samples: seq<int>, sends: nat) returns (u: Turn)
    requires |t.frame| < UPLINK_SAMPLES && !t.failed
    ensures u == Filled(t, samples, sends)
  {
    ghost var all := t.frame + samples;
    assert Packets(all, 0) == [];
    assert Filling(t.log, all, |t.frame|, t.frame, t.log, 0);
    hide Packets, Filled, Filling;
    var frame, log, sent := t.frame, t.log, 0;
    var i := 0;
    while i < |samples|
      invariant i <= |samples| && sent <= sends
      invariant Filling(t.log, all, |t.frame| + i, frame, log, sent)
    {
      FillAdvance(t.log, all, |t.frame| + i, frame, log, sent);
      assert samples[i] == all[|t.frame| + i];
      frame := frame + [samples[i]];
      if |frame| == UPLINK_SAMPLES {
        log := log + [MicFrame(frame)];
        if sent == sends {
          FillFails(t, samples, sends, frame, log, |t.frame| + i + 1);
          return t.(captured := t.captured + samples, log := log, failed := true, frame := frame);
        }
        frame, sent := [], sent + 1;
      }
      i := i + 1;
    }
    FillDone(t, samples, sends, frame, log, sent);
    u := t.(captured := t.captured + samples, log := log, frame := frame);
  }

  method Pump(t: Turn, it: Iteration) returns (u: Turn)
    requires !t.failed && (t.listening ==> |t.frame| < UPLINK_SAMPLES)
    ensures u == Pumped(t, it)
  {
    u := t;
    if t.listening {
      if it.converted.None? {
        return t.(failed := true);
      }
      u := Fill(t, it.converted.value, it.sends);
      if !u.failed && it.micDone && it.drained {
        u := Finished(u, it);
      }
    }
  }

  method Iterate(t: Turn, it: Iteration) returns (u: Turn)
    requires Inv(t) && !t.done && !t.failed
    ensures u == Iterated(t, it)
  {
    hide Received, Pumped;
    u := t;
    if it.broken || it.late {
      return t.(failed := true);
    }
    if it.connected && !u.helloSent {
      if !it.helloOk {
        return t.(failed := true);
      }
      u := Noted(u.(helloSent := true), HelloSent);
      HelloKeeps(t);
    }
    if it.message.Some? {
      ReceivedKeeps(u, it.message.value);
      u := Received(u, it.message.value);
      if u.failed {
        return;
      }
    }
    u := Pump(u, it);
  }

  /**
   The loop, for every script of what its iterations find. The trace is lawful. What the
   microphone gave in an unbroken range of iterations is sent in order and in full frames: all
   of it and silence to the end of the frame once listening has been ended, all full frames if
   the reply came first, and a beginning of it if the turn failed.
   */
  method Conversation(script: seq<Iteration>) returns (t: Turn)
    ensures t == TurnFrom(START, script)
    ensures Lawful(t.log) && AllFull(t.log) && Conserved(t)
    ensures exists i, j :: CapturedIn(t.captured, script, i, j)
  {
    hide Inv, Iterated;
    t := START;
    var i := 0;
    StartInv();
    while i < |script| && !t.done && !t.failed && !script[i].cancelled
      invariant i <= |script| && Inv(t)
      invariant TurnFrom(START, script) == TurnFrom(t, script[i..])
    {
      IteratedKeeps(t, script[i]);
      assert script[i..][1..] == script[i + 1..];
      t := Iterate(t, script[i]);
      i := i + 1;
    }
    InvFacts(t);
    ghost var from, to := CapturedRange(script);
  }

  // --------------------------------------------------------------- conservation

  /** All microphone samples sent, in order. */
  function Uplink(log: seq<Event>): seq<int> {
    if log == [] then []
    else
      var e := log[|log| - 1];
      Uplink(log[..|log| - 1]) + if e.MicFrame? then e.pcm else []
  }

  function VoiceOf(it: Iteration): seq<int> {
    if it.converted.Some? then it.converted.value else []
  }

  /** What the microphone gave in these iterations. */
  function Voice(script: seq<Iteration>): seq<int> {
    if script == [] then [] else Voice(script[..|script| - 1]) + VoiceOf(script[|script| - 1])
  }

  ghost predicate AllFull(log: seq<Event>) {
    forall i :: 0 <= i < |log| && log[i].MicFrame? ==> |log[i].pcm| == UPLINK_SAMPLES
  }

  /** The silence that completes the last frame. */
  function Padding(s: seq<int>): (z: seq<int>)
    ensures |z| < UPLINK_SAMPLES && (|s| + |z|) % UPLINK_SAMPLES == 0 && forall i :: 0 <= i < |z| ==> z[i] == 0
  {
    Zeros((UPLINK_SAMPLES - |s| % UPLINK_SAMPLES) % UPLINK_SAMPLES)
  }

  function WholeFrames(s: seq<int>): (w: seq<int>)
    ensures w <= s && |w| % UPLINK_SAMPLES == 0 && |s| - |w| < UPLINK_SAMPLES
  {
    s[..|s| / UPLINK_SAMPLES * UPLINK_SAMPLES]
  }

  /** What has been sent of what was captured. */
  ghost predicate Conserved(t: Turn) {
    var sent := Uplink(t.log);
    && (ListenStop in t.log ==> sent == t.captured + Padding(t.captured))
    && (ListenStop !in t.log && !t.failed ==> sent == WholeFrames(t.captured))
    && (sent <= t.captured || sent == t.captured + Padding(t.captured))
  }

  /** The flags tell the stage. */
  ghost predicate Consistent(t: Turn) {
    var s := StageOf(t.log);
    && s != Dead
    && (!t.session ==> s == Opening && !t.micStarted)
    && (t.session && !t.micStarted ==> s == Opening || s == Asking)
    && (t.session && !t.micStarted && !t.failed ==> t.done)
    && (t.micStarted ==> t.session)
    && (t.listening ==> t.micStarted && !t.tts)
    && (t.listening && !t.failed ==> s == Listening)
    && (t.micStarted && !t.listening && !t.tts ==> s == Thinking)
    && (t.tts ==> t.micStarted && s == Speaking)
  }

  /** While listening, the frame holds what has not been sent; before, there is nothing. */
  ghost predicate Buffered(t: Turn) {
    && (!t.micStarted ==> t.captured == [] && t.frame == [] && Uplink(t.log) == [] && ListenStop !in t.log)
    && (t.listening && !t.failed ==>
          && |t.frame| < UPLINK_SAMPLES && ListenStop !in t.log
          && Uplink(t.log) + t.frame == t.captured)
  }

  ghost predicate Inv(t: Turn) {
    Consistent(t) && AllFull(t.log) && Buffered(t) && Conserved(t)
  }

  lemma InvFacts(t: Turn)
    requires Inv(t)
    ensures Lawful(t.log) && AllFull(t.log) && Conserved(t)
  {
  }

  lemma StartInv()
    ensures Inv(START)
  {
  }

  lemma NotedFacts(t: Turn, e: Event)
    ensures StageOf(Noted(t, e).log) == Next(StageOf(t.log), e)
    ensures Uplink(Noted(t, e).log) == Uplink(t.log) + if e.MicFrame? then e.pcm else []
    ensures ListenStop in Noted(t, e).log <==> ListenStop in t.log || e == ListenStop
    ensures AllFull(t.log) && (e.MicFrame? ==> |e.pcm| == UPLINK_SAMPLES) ==> AllFull(Noted(t, e).log)
  {
    StageAppend(t.log, e);
    assert (t.log + [e])[..|t.log|] == t.log;
  }

  /** Any event but a microphone frame and the end of listening leaves the accounts alone. */
  lemma NotedSame(t: Turn, e: Event)
    requires !e.MicFrame? && e != ListenStop
    ensures var u := Noted(t, e);
            && StageOf(u.log) == Next(StageOf(t.log), e) && Uplink(u.log) == Uplink(t.log)
            && (ListenStop in u.log <==> ListenStop in t.log)
            && (AllFull(t.log) ==> AllFull(u.log))
  {
    NotedFacts(t, e);
    assert Uplink(t.log) + [] == Uplink(t.log);
  }

  lemma HelloKeeps(t: Turn)
    requires Inv(t)
    ensures Inv(Noted(t.(helloSent := true), HelloSent))
  {
    hide StageOf, Uplink, AllFull;
    NotedSame(t.(helloSent := true), HelloSent);
  }

  /** Exactly when a hello fails the turn, ends it or starts listening. */
  lemma GreetedKeeps(t: Turn, m: Message)
    requires Inv(t) && !t.failed && !t.done && m.Hello?
    ensures var u := Greeted(t, m);
            && Inv(u)
            && (u.failed <==>
                  t.session || !m.supported || !m.codecsOk || (!m.finish && (!m.listenOk || !m.captureOk)))
            && (u.done <==> !u.failed && m.finish)
            && (!u.failed && !m.finish ==> u.listening && u.log == t.log + [ListenStart, CaptureStarted])
  {
    hide StageOf, Uplink, AllFull, Zeros;
    var u := t.(session := true);
    NotedSame(u, ListenStart);
    NotedSame(Noted(u, ListenStart), CaptureStarted);
    assert t.log + [ListenStart] + [CaptureStarted] == t.log + [ListenStart, CaptureStarted];
    assert [] + [] == t.captured || t.micStarted;
  }

  /** The start of a reply ends capture first; any other reply message while listening is an error. */
  lemma SpokenKeeps(t: Turn, m: Message)
    requires Inv(t) && !t.failed && !t.done && (m.TtsStart? || m.TtsStop? || m.TtsOther?)
    ensures var u := Spoken(t, m);
            && Inv(u) && u.captured == t.captured
            && (u.failed <==> !t.micStarted || (t.listening && !m.TtsStart?))
            && (m.TtsStart? && !u.failed ==>
                  u.tts && u.log == t.log + (if t.listening then [CaptureEnded, ReplyStart] else [ReplyStart]))
            && (u.done <==> m.TtsStop? && !u.failed)
            && (m.TtsStop? && !u.failed ==> u == t.(done := true))
            && (m.TtsOther? && !u.failed ==> u == t)
            && (u.failed ==> u == t.(failed := true))
  {
    hide StageOf, Uplink, AllFull, Zeros;
    NotedSame(t, CaptureEnded);
    NotedSame(Interrupted(t), ReplyStart);
    assert t.log + [CaptureEnded] + [ReplyStart] == t.log + [CaptureEnded, ReplyStart];
  }

  /** Reply audio is admitted exactly when a reply has started and decoding succeeds. */
  lemma ReceivedKeeps(t: Turn, m: Message)
    requires Inv(t) && !t.failed && !t.done
    ensures var u := Received(t, m);
            && Inv(u) && u.captured == t.captured
            && (t.micStarted ==> u.micStarted)
            && (u.listening && !u.failed ==> t.listening || (m.Hello? && !t.micStarted))
            && (m.Audio? ==> (u.log == t.log + [ReplyAudio] <==> t.tts && m.lengthOk && m.decodeOk))
            && (m.Audio? ==> (u.failed <==> !(t.tts && m.lengthOk && m.decodeOk && m.outputOk)) && !u.done)
            && (m.SystemAbort? ==> u == t.(done := true))
            && (m.Alert? || m.Invalid? ==> u == t.(failed := true))
            && (m.Info? ==> u == t)
  {
    hide Inv, Greeted, Spoken, Noted;
    FailedKeeps(t);
    DoneKeeps(t);
    match m
    case Hello(_, _, _, _, _) =>
      GreetedKeeps(t, m);
      GreetedCaptures(t, m);
    case Audio(_, _, _) => AudioKeeps(t, m);
    case Invalid =>
    case SystemAbort =>
    case Alert =>
    case Info =>
    case _ =>
      SpokenKeeps(t, m);
  }

  lemma DoneKeeps(t: Turn)
    requires Inv(t)
    ensures Inv(t.(done := true))
  {
  }

  lemma GreetedCaptures(t: Turn, m: Message)
    requires m.Hello? && Inv(t)
    ensures var u := Greeted(t, m);
            && u.captured == t.captured && (t.micStarted ==> u.micStarted)
            && (u.listening && !u.failed ==> t.listening || !t.micStarted)
  {
  }

  lemma AudioKeeps(t: Turn, m: Message)
    requires Inv(t) && !t.failed && !t.done && m.Audio?
    ensures var u := Received(t, m);
            && Inv(u) && u.captured == t.captured && u.micStarted == t.micStarted && u.listening == t.listening
            && (u.log == t.log + [ReplyAudio] <==> t.tts && m.lengthOk && m.decodeOk)
            && (u.failed <==> !(t.tts && m.lengthOk && m.decodeOk && m.outputOk)) && !u.done
  {
    hide StageOf, Uplink, AllFull, Zeros;
    NotedSame(t, ReplyAudio);
  }

  // ----------------------------------------------------------- the microphone's part

  /** One more frame in the trace, at the level of whole traces. */
  lemma PacketSent(log: seq<Event>, pcm: seq<int>)
    requires |pcm| == UPLINK_SAMPLES
    ensures Sends(log, log + [MicFrame(pcm)], pcm)
  {
    NotedFacts(START.(log := log), MicFrame(pcm));
  }

  lemma PacketsNone(log: seq<Event>, s: seq<int>)
    ensures log + Packets(s, 0) == log && Uplink(log) == Uplink(log) + s[..0 * UPLINK_SAMPLES]
  {
  }

  /** `longer` continues the trace `log` by frames that carry `pcm`. */
  ghost predicate Sends(log: seq<Event>, longer: seq<Event>, pcm: seq<int>) {
    && Uplink(longer) == Uplink(log) + pcm
    && (StageOf(log) == Listening ==> StageOf(longer) == Listening)
    && (ListenStop in longer <==> ListenStop in log)
    && (AllFull(log) ==> AllFull(longer))
  }

  lemma SendsBoth(a: seq<Event>, b: seq<Event>, c: seq<Event>, p: seq<int>, q: seq<int>)
    requires Sends(a, b, p) && Sends(b, c, q)
    ensures Sends(a, c, p + q)
  {
    hide StageOf, Uplink, AllFull;
    assert Uplink(a) + p + q == Uplink(a) + (p + q);
  }

  lemma {:induction false} PacketsSent(log: seq<Event>, s: seq<int>, k: nat)
    requires k * UPLINK_SAMPLES <= |s|
    ensures Sends(log, log + Packets(s, k), s[..k * UPLINK_SAMPLES])
  {
    if k == 0 {
      PacketsNone(log, s);
    } else {
      hide Sends, Packets;
      PacketsSent(log, s, k - 1);
      var prev, pcm := log + Packets(s, k - 1), s[(k - 1) * UPLINK_SAMPLES..k * UPLINK_SAMPLES];
      PacketsGrow(s, k - 1);
      assert prev + [MicFrame(pcm)] == log + Packets(s, k);
      PacketSent(prev, pcm);
      SendsBoth(log, prev, prev + [MicFrame(pcm)], s[..(k - 1) * UPLINK_SAMPLES], pcm);
      PrefixGrows(s, (k - 1) * UPLINK_SAMPLES, k * UPLINK_SAMPLES);
    }
  }

  lemma PrefixGrows(s: seq<int>, a: nat, b: nat)
    requires a <= b <= |s|
    ensures s[..a] + s[a..b] == s[..b]
  {
  }

  lemma {:induction false} UplinkWhole(log: seq<Event>)
    requires AllFull(log)
    ensures |Uplink(log)| % UPLINK_SAMPLES == 0
  {
    if log != [] { UplinkWhole(log[..|log| - 1]); }
  }

  /** Sent frames and less than a frame besides: what was sent is the captured whole frames. */
  lemma WholeSplit(sent: seq<int>, frame: seq<int>)
    requires |sent| % UPLINK_SAMPLES == 0 && |frame| < UPLINK_SAMPLES
    ensures WholeFrames(sent + frame) == sent && |sent + frame| % UPLINK_SAMPLES == |frame|
  {
    var k := |sent| / UPLINK_SAMPLES;
    assert |sent| == k * UPLINK_SAMPLES;
    assert |sent + frame| / UPLINK_SAMPLES == k;
  }

  /** The number of frames that the filling loop sends, the failing one included. */
  function FramesSent(t: Turn, samples: seq<int>, sends: nat): (n: nat)
    ensures n * UPLINK_SAMPLES <= |t.frame + samples|
  {
    var k := |t.frame + samples| / UPLINK_SAMPLES;
    if k <= sends then k else sends + 1
  }

  lemma FilledSends(t: Turn, samples: seq<int>, sends: nat)
    ensures Sends(t.log, Filled(t, samples, sends).log,
                  (t.frame + samples)[..FramesSent(t, samples, sends) * UPLINK_SAMPLES])
  {
    hide Sends, Packets;
    PacketsSent(t.log, t.frame + samples, FramesSent(t, samples, sends));
  }

  /** What the filling loop has sent and kept is what was there and came in. */
  lemma FilledBalance(t: Turn, samples: seq<int>, sends: nat)
    requires Uplink(t.log) + t.frame == t.captured && !t.failed
    ensures var u := Filled(t, samples, sends);
            && (!u.failed ==> |u.frame| < UPLINK_SAMPLES && Uplink(u.log) + u.frame == u.captured)
            && Uplink(u.log) <= u.captured
  {
    hide StageOf, Uplink, AllFull, Packets;
    FilledSends(t, samples, sends);
    Regroup(Uplink(t.log), t.frame, samples, FramesSent(t, samples, sends) * UPLINK_SAMPLES);
  }

  lemma Regroup(sent: seq<int>, frame: seq<int>, samples: seq<int>, cut: nat)
    requires cut <= |frame + samples|
    ensures sent + frame + samples == sent + (frame + samples)[..cut] + (frame + samples)[cut..]
  {
  }

  lemma FilledKeeps(t: Turn, samples: seq<int>, sends: nat)
    requires Inv(t) && t.listening && !t.failed
    ensures Inv(Filled(t, samples, sends))
  {
    hide StageOf, Uplink, AllFull, Packets, Zeros, WholeFrames;
    FilledBalance(t, samples, sends);
    FilledSends(t, samples, sends);
    var u := Filled(t, samples, sends);
    if !u.failed {
      UplinkWhole(u.log);
      WholeSplit(Uplink(u.log), u.frame);
    }
  }

  lemma LastSentFacts(t: Turn)
    requires Inv(t) && t.listening && !t.failed
    ensures var v := LastSent(t);
            && Uplink(v.log) == t.captured + Padding(t.captured)
            && StageOf(v.log) == Ended && ListenStop !in v.log && AllFull(v.log)
  {
    hide StageOf, Uplink, AllFull, Conserved;
    UplinkWhole(t.log);
    WholeSplit(Uplink(t.log), t.frame);
    var u, pad := Noted(t, CaptureEnded), UPLINK_SAMPLES - |t.frame|;
    NotedSame(t, CaptureEnded);
    if t.frame == [] {
      assert Uplink(t.log) == t.captured && t.captured + Zeros(0) == t.captured;
    } else {
      NotedFacts(u, MicFrame(t.frame + Zeros(pad)));
      assert Uplink(t.log) + (t.frame + Zeros(pad)) == t.captured + Zeros(pad);
    }
  }

  /** Exactly when the end of capture succeeds. */
  lemma FinishedKeeps(t: Turn, it: Iteration)
    requires Inv(t) && t.listening && !t.failed
    ensures var u := Finished(t, it);
            && Inv(u) && u.captured == t.captured
            && (u.failed <==> !it.micOk || (t.frame != [] && !it.lastOk) || !it.stopOk)
            && (!u.failed ==> !u.listening && StageOf(u.log) == Thinking && ListenStop in u.log)
  {
    hide StageOf, Uplink, AllFull, Padding, Zeros;
    LastSentFacts(t);
    var v := LastSent(t);
    NotedFacts(v, ListenStop);
    assert Uplink(v.log) + [] == Uplink(v.log);
  }

  lemma PumpedKeeps(t: Turn, it: Iteration)
    requires Inv(t) && !t.failed
    ensures var u := Pumped(t, it);
            && Inv(u)
            && u.captured == t.captured + (if t.listening then VoiceOf(it) else [])
            && (u.listening ==> t.listening) && u.micStarted == t.micStarted
  {
    hide StageOf, Uplink, AllFull, Packets, Zeros, Conserved, Buffered;
    if t.listening && it.converted.Some? {
      FilledKeeps(t, it.converted.value, it.sends);
      var u := Filled(t, it.converted.value, it.sends);
      if !u.failed { FinishedKeeps(u, it); }
    } else {
      FailedKeeps(t);
      assert t.captured + [] == t.captured;
    }
  }

  lemma FailedKeeps(t: Turn)
    requires Inv(t)
    ensures Inv(t.(failed := true))
  {
  }

  lemma IteratedKeeps(t: Turn, it: Iteration)
    requires Inv(t) && !t.failed && !t.done
    ensures Inv(Iterated(t, it))
  {
    hide StageOf, Uplink, AllFull, Received, Pumped, Conserved, Buffered, Consistent;
    FailedKeeps(t);
    HelloKeeps(t);
    var u := if it.connected && !t.helloSent then Noted(t.(helloSent := true), HelloSent) else t;
    if it.message.Some? { ReceivedKeeps(u, it.message.value); }
    var v := if it.message.Some? then Received(u, it.message.value) else u;
    if !v.failed { PumpedKeeps(v, it); }
  }

  // ------------------------------------------------------- which samples are captured

  predicate NoneCancelled(script: seq<Iteration>) {
    forall k :: 0 <= k < |script| ==> !script[k].cancelled
  }

  /** The loop is still going after the iterations `done`. */
  predicate Running(done: seq<Iteration>) {
    var t := TurnFrom(START, done);
    NoneCancelled(done) && !t.done && !t.failed
  }

  /** Iteration `k` runs and finds the turn listening when it comes to the microphone. */
  predicate ListensAt(script: seq<Iteration>, k: nat)
    requires k < |script|
  {
    var v := AtMic(TurnFrom(START, script[..k]), script[k]);
    Running(script[..k]) && !script[k].cancelled && !v.failed && v.listening
  }

  /**
   The iterations that listen are exactly those from `i`, which brings the accepted hello, to
   before `j`, and `samples` is what they gave.
   */
  ghost predicate CapturedIn(samples: seq<int>, script: seq<Iteration>, i: nat, j: nat) {
    && i <= j <= |script| && samples == Voice(script[i..j])
    && (forall k :: 0 <= k < |script| ==> (ListensAt(script, k) <==> i <= k < j))
    && (i < j ==> script[i].message.Some? && script[i].message.value.Hello?)
  }

  lemma {:induction false} TurnAppend(s: Turn, done: seq<Iteration>, it: Iteration)
    ensures var t := TurnFrom(s, done);
            TurnFrom(s, done + [it]) ==
            if NoneCancelled(done) && !t.done && !t.failed && !it.cancelled then Iterated(t, it) else t
    decreases |done|
  {
    hide Iterated;
    var all := done + [it];
    if done == [] {
      assert all[0] == it && all[1..] == [];
    } else {
      assert all[0] == done[0] && all[1..] == done[1..] + [it];
      if !s.done && !s.failed && !done[0].cancelled { TurnAppend(Iterated(s, done[0]), done[1..], it); }
    }
  }

  lemma {:induction false} TurnInv(s: Turn, script: seq<Iteration>)
    requires Inv(s)
    ensures Inv(TurnFrom(s, script))
    decreases |script|
  {
    hide Inv, Iterated;
    if !(script == [] || s.done || s.failed || script[0].cancelled) {
      IteratedKeeps(s, script[0]);
      TurnInv(Iterated(s, script[0]), script[1..]);
    }
  }

  lemma ListensPrefix(done: seq<Iteration>, it: Iteration, k: nat)
    requires k < |done|
    ensures ListensAt(done + [it], k) == ListensAt(done, k)
  {
    assert (done + [it])[..k] == done[..k];
  }

  /** One iteration: exactly when it listens are its samples captured. */
  lemma IterationCaptures(t: Turn, it: Iteration)
    requires Inv(t) && !t.failed && !t.done
    ensures var v, u := AtMic(t, it), Iterated(t, it);
            && (t.micStarted ==> u.micStarted)
            && (!v.failed && v.listening ==>
                  && u.captured == t.captured + VoiceOf(it) && u.micStarted
                  && (t.listening || (!t.micStarted && it.message.Some? && it.message.value.Hello?)))
            && (v.failed || !v.listening ==> u.captured == t.captured && (u.failed || !u.listening))
  {
    hide Inv, Pumped, Received, VoiceOf, StageOf, Uplink;
    HelloKeeps(t);
    InvListens(t);
    var u := if it.connected && !t.helloSent then Noted(t.(helloSent := true), HelloSent) else t;
    InvListens(u);
    if it.message.Some? { ReceivedKeeps(u, it.message.value); }
    var v := AtMic(t, it);
    if !v.failed {
      PumpedKeeps(v, it);
      InvListens(v);
      assert v.captured + [] == v.captured;
    }
  }

  lemma InvListens(t: Turn)
    requires Inv(t)
    ensures t.listening ==> t.micStarted
    ensures !t.micStarted ==> t.captured == []
  {
  }

  /** What the range so far says about the turn that goes on. */
  ghost predicate RangeFits(done: seq<Iteration>, i: nat, j: nat) {
    var t := TurnFrom(START, done);
    && CapturedIn(t.captured, done, i, j)
    && (!t.micStarted ==> i == j)
    && (Running(done) && t.listening ==> i < j == |done|)
  }

  lemma VoiceGrows(done: seq<Iteration>, it: Iteration, i: nat)
    requires i <= |done|
    ensures Voice((done + [it])[i..]) == Voice(done[i..]) + VoiceOf(it)
  {
    var longer := (done + [it])[i..];
    assert longer == done[i..] + [it] && longer[..|longer| - 1] == done[i..];
  }

  /** The range after one more iteration. */
  lemma RangeStep(done: seq<Iteration>, it: Iteration, i: nat, j: nat) returns (i': nat, j': nat)
    requires RangeFits(done, i, j)
    ensures RangeFits(done + [it], i', j')
  {
    hide Inv, Iterated, AtMic, Voice, VoiceOf;
    var t, all := TurnFrom(START, done), done + [it];
    StartInv();
    TurnInv(START, done);
    TurnAppend(START, done, it);
    assert all[..|done|] == done && all[|done|] == it;
    assert NoneCancelled(all) ==> NoneCancelled(done) by { assert forall k :: 0 <= k < |done| ==> all[k] == done[k]; }
    if Running(done) && !it.cancelled { IterationCaptures(t, it); }
    forall k | 0 <= k < |done| ensures ListensAt(all, k) == ListensAt(done, k) {
      ListensPrefix(done, it, k);
    }
    if ListensAt(all, |done|) {
      i', j' := if t.listening then i else |done|, |all|;
      RangeGrows(done, it, i, j, i');
    } else {
      i', j' := i, j;
      assert all[i..j] == done[i..j];
    }
  }

  lemma RangeGrows(done: seq<Iteration>, it: Iteration, i: nat, j: nat, first: nat)
    requires i <= j <= |done| && first == if i == j then |done| else i
    requires i < j ==> j == |done|
    ensures Voice((done + [it])[first..|done| + 1]) == Voice(done[i..j]) + VoiceOf(it)
    ensures first < |done| + 1
  {
    VoiceGrows(done, it, first);
    assert (done + [it])[first..|done| + 1] == (done + [it])[first..];
    assert done[|done|..] == [] && done[i..|done|] == done[i..];
    if i == j { assert done[i..j] == []; }
  }

  /** For every script the captured samples are those of exactly one unbroken range of iterations. */
  lemma {:induction false} CapturedRange(script: seq<Iteration>) returns (i: nat, j: nat)
    ensures CapturedIn(TurnFrom(START, script).captured, script, i, j)
    ensures RangeFits(script, i, j)
  {
    if script == [] {
      i, j := 0, 0;
    } else {
      var done := script[..|script| - 1];
      var a, b := CapturedRange(done);
      i, j := RangeStep(done, script[|script| - 1], a, b);
      assert script == done + [script[|script| - 1]];
    }
  }

  // ---------------------------------------------- what ends a turn, and what does not

  /** A turn that is over stays as it is. */
  lemma OverStays(t: Turn, script: seq<Iteration>)
    requires t.done || t.failed
    ensures TurnFrom(t, script) == t
  {
  }

  /** A script in two parts. */
  lemma {:induction false} TurnOn(s: Turn, before: seq<Iteration>, after: seq<Iteration>)
    requires NoneCancelled(before)
    ensures TurnFrom(s, before + after) == TurnFrom(TurnFrom(s, before), after)
    decreases |before|
  {
    hide Iterated;
    var all := before + after;
    if before == [] {
      assert all == after;
    } else if s.done || s.failed {
      OverStays(s, after);
    } else {
      assert all[0] == before[0] && all[1..] == before[1..] + after;
      TurnOn(Iterated(s, before[0]), before[1..], after);
    }
  }

  /** The loop goes on with iteration `it` after `before`. */
  lemma OneMore(before: seq<Iteration>, it: Iteration, after: seq<Iteration>)
    requires Running(before) && !it.cancelled
    ensures TurnFrom(START, before + [it] + after) == TurnFrom(Iterated(TurnFrom(START, before), it), after)
  {
    hide Iterated, TurnFrom;
    TurnAppend(START, before, it);
    assert NoneCancelled(before + [it]);
    TurnOn(START, before + [it], after);
  }

  /** The connection is up, in time, and the client's hello is or has been sent. */
  predicate Reaches(t: Turn, it: Iteration) {
    !it.broken && !it.late && (it.connected && !t.helloSent ==> it.helloOk)
  }

  /** What of the trace an iteration adds before it looks at a message. */
  function Greeting(t: Turn, it: Iteration): seq<Event> {
    if it.connected && !t.helloSent then [HelloSent] else []
  }

  /** Cancelling ends the turn before the iteration; nothing of it happens, nor of any later one. */
  lemma CancelledStops(before: seq<Iteration>, it: Iteration, after: seq<Iteration>)
    requires Running(before) && it.cancelled
    ensures TurnFrom(START, before + [it] + after) == TurnFrom(START, before)
  {
    hide Iterated;
    assert before + [it] + after == before + ([it] + after);
    TurnOn(START, before, [it] + after);
    assert ([it] + after)[0] == it;
  }

  /** A broken connection, a passed deadline or a hello that cannot be sent fails the turn there and then. */
  lemma FaultFails(before: seq<Iteration>, it: Iteration, after: seq<Iteration>)
    requires Running(before) && !it.cancelled && !Reaches(TurnFrom(START, before), it)
    ensures TurnFrom(START, before + [it] + after) == TurnFrom(START, before).(failed := true)
  {
    hide TurnFrom;
    var t := TurnFrom(START, before);
    OneMore(before, it, after);
    assert Iterated(t, it) == t.(failed := true);
    OverStays(t.(failed := true), after);
  }

  /** An alert or a message that makes no sense fails the turn; nothing more is captured or sent. */
  lemma AlertFails(before: seq<Iteration>, it: Iteration, after: seq<Iteration>)
    requires Running(before) && !it.cancelled && Reaches(TurnFrom(START, before), it)
    requires it.message == Some(Alert) || it.message == Some(Invalid)
    ensures var t, u := TurnFrom(START, before), TurnFrom(START, before + [it] + after);
            u.failed && u.captured == t.captured && u.log == t.log + Greeting(t, it)
  {
    hide TurnFrom, Pumped;
    var t := TurnFrom(START, before);
    OneMore(before, it, after);
    assert t.log + [] == t.log;
    OverStays(Iterated(t, it), after);
  }

  /** A system abort ends the turn with this iteration: the rest of the script changes nothing. */
  lemma AbortEnds(before: seq<Iteration>, it: Iteration, after: seq<Iteration>)
    requires Running(before) && !it.cancelled && Reaches(TurnFrom(START, before), it)
    requires it.message == Some(SystemAbort)
    ensures var t, u := TurnFrom(START, before), TurnFrom(START, before + [it] + after);
            && u.done && u == TurnFrom(START, before + [it])
            && (!t.listening ==> !u.failed && u.captured == t.captured && u.log == t.log + Greeting(t, it))
  {
    hide TurnFrom, Filled, Finished;
    var t := TurnFrom(START, before);
    OneMore(before, it, after);
    OneMore(before, it, []);
    assert before + [it] + [] == before + [it];
    assert t.log + [] == t.log;
    DoneStays(AtMic(t, it), it);
    OverStays(Iterated(t, it), after);
    OverStays(Iterated(t, it), []);
  }

  lemma DoneStays(t: Turn, it: Iteration)
    ensures Pumped(t, it).done == t.done
  {
    hide Filled, Finished;
  }

  /** Speech and text from the server leave the turn as if nothing had come. */
  lemma InfoIgnored(before: seq<Iteration>, it: Iteration, after: seq<Iteration>)
    requires NoneCancelled(before) && it.message == Some(Info)
    ensures TurnFrom(START, before + [it] + after) == TurnFrom(START, before + [it.(message := None)] + after)
  {
    hide Filled, Finished;
    var quiet, t := it.(message := None), TurnFrom(START, before);
    assert before + [it] + after == before + ([it] + after) && before + [quiet] + after == before + ([quiet] + after);
    TurnOn(START, before, [it] + after);
    TurnOn(START, before, [quiet] + after);
    assert ([it] + after)[1..] == after && ([quiet] + after)[1..] == after;
    assert AtMic(t, it) == AtMic(t, quiet);
    assert Iterated(t, it) == Iterated(t, quiet) by { PumpedSame(AtMic(t, it), it); }
  }

  lemma PumpedSame(t: Turn, it: Iteration)
    ensures Pumped(t, it) == Pumped(t, it.(message := None))
  {
    hide Filled;
  }

  /** The microphone's part: when it fails the turn and when it leaves it alone. */
  lemma PumpedExactly(t: Turn, it: Iteration)
    requires Inv(t) && !t.failed
    ensures var u := Pumped(t, it);
            && (!t.listening ==> u == t)
            && (t.listening && it.converted.None? ==> u == t.(failed := true))
            && (t.listening && it.converted.Some? ==>
                  var total := |t.frame| + |it.converted.value|;
                  && (total >= (it.sends + 1) * UPLINK_SAMPLES ==> u.failed && u.listening)
                  && (total < (it.sends + 1) * UPLINK_SAMPLES && !(it.micDone && it.drained) ==>
                        !u.failed && u.listening && |u.frame| == total % UPLINK_SAMPLES))
  {
    hide Packets, Finished;
    if t.listening && it.converted.Some? {
      var total := |t.frame| + |it.converted.value|;
      assert total == total / UPLINK_SAMPLES * UPLINK_SAMPLES + total % UPLINK_SAMPLES;
    }
  }

  // ----------------------------------------------------------- the client's own hello

  function Hellos(log: seq<Event>): nat {
    if log == [] then 0 else Hellos(log[..|log| - 1]) + if log[|log| - 1] == HelloSent then 1 else 0
  }

  lemma HellosAppend(log: seq<Event>, e: Event)
    ensures Hellos(log + [e]) == Hellos(log) + if e == HelloSent then 1 else 0
  {
    assert (log + [e])[..|log|] == log;
  }

  lemma {:induction false} HellosPackets(log: seq<Event>, s: seq<int>, k: nat)
    requires k * UPLINK_SAMPLES <= |s|
    ensures Hellos(log + Packets(s, k)) == Hellos(log)
  {
    if k == 0 {
      PacketsNone(log, s);
    } else {
      hide Packets, Hellos;
      HellosPackets(log, s, k - 1);
      PacketsGrow(s, k - 1);
      var prev, e := log + Packets(s, k - 1), MicFrame(s[(k - 1) * UPLINK_SAMPLES..k * UPLINK_SAMPLES]);
      assert prev + [e] == log + Packets(s, k);
      HellosAppend(prev, e);
    }
  }

  /** `u` follows `t` without another hello of the client. */
  ghost predicate NoHello(t: Turn, u: Turn) {
    u.helloSent == t.helloSent && Hellos(u.log) == Hellos(t.log)
  }

  lemma NotedHello(t: Turn, e: Event)
    requires e != HelloSent
    ensures NoHello(t, Noted(t, e))
  {
    hide Hellos;
    HellosAppend(t.log, e);
  }

  lemma GreetedNoHello(t: Turn, m: Message)
    requires m.Hello?
    ensures NoHello(t, Greeted(t, m))
  {
    hide Hellos, Noted;
    var u := t.(session := true);
    NotedHello(u, ListenStart);
    NotedHello(Noted(u, ListenStart), CaptureStarted);
  }

  lemma SpokenNoHello(t: Turn, m: Message)
    ensures NoHello(t, Spoken(t, m))
  {
    hide Hellos, Noted;
    NotedHello(t, CaptureEnded);
    NotedHello(Interrupted(t), ReplyStart);
  }

  lemma ReceivedNoHello(t: Turn, m: Message)
    ensures NoHello(t, Received(t, m))
  {
    hide Hellos, Noted, Greeted, Spoken;
    if m.Hello? { GreetedNoHello(t, m); }
    SpokenNoHello(t, m);
    NotedHello(t, ReplyAudio);
  }

  lemma FilledNoHello(t: Turn, samples: seq<int>, sends: nat)
    ensures NoHello(t, Filled(t, samples, sends))
  {
    hide Hellos, Packets;
    HellosPackets(t.log, t.frame + samples, FramesSent(t, samples, sends));
  }

  lemma LastSentHellos(t: Turn)
    ensures Hellos(LastSent(t).log) == Hellos(t.log)
  {
    hide Hellos, Zeros;
    HellosAppend(t.log, CaptureEnded);
    var pad := if |t.frame| < UPLINK_SAMPLES then UPLINK_SAMPLES - |t.frame| else 0;
    HellosAppend(t.log + [CaptureEnded], MicFrame(t.frame + Zeros(pad)));
  }

  lemma FinishedNoHello(t: Turn, it: Iteration)
    ensures NoHello(t, Finished(t, it))
  {
    hide Hellos, LastSent, Finished;
    LastSentHellos(t);
    HellosAppend(LastSent(t).log, ListenStop);
  }

  lemma PumpedNoHello(t: Turn, it: Iteration)
    ensures NoHello(t, Pumped(t, it))
  {
    hide Hellos, Filled, Finished;
    if t.listening && it.converted.Some? {
      FilledNoHello(t, it.converted.value, it.sends);
      FinishedNoHello(Filled(t, it.converted.value, it.sends), it);
    }
  }

  lemma IteratedHello(t: Turn, it: Iteration)
    requires Hellos(t.log) == if t.helloSent then 1 else 0
    ensures var u := Iterated(t, it);
            && Hellos(u.log) == (if u.helloSent then 1 else 0)
            && (u.helloSent <==> t.helloSent || (it.connected && Reaches(t, it)))
  {
    hide Hellos, Received, Pumped;
    HellosAppend(t.log, HelloSent);
    var u := if it.connected && !t.helloSent then Noted(t.(helloSent := true), HelloSent) else t;
    if it.message.Some? { ReceivedNoHello(u, it.message.value); }
    PumpedNoHello(AtMic(t, it), it);
  }

  /** The client says hello at most once in a turn, and exactly when it has got through. */
  lemma {:induction false} HelloAtMostOnce(t: Turn, script: seq<Iteration>)
    requires Hellos(t.log) == if t.helloSent then 1 else 0
    ensures var u := TurnFrom(t, script);
            Hellos(u.log) == (if u.helloSent then 1 else 0) && (t.helloSent ==> u.helloSent)
    decreases |script|
  {
    hide Iterated, Hellos;
    if !(script == [] || t.done || t.failed || script[0].cancelled) {
      IteratedHello(t, script[0]);
      HelloAtMostOnce(Iterated(t, script[0]), script[1..]);
    }
  }
}
