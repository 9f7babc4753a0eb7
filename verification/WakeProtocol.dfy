/**
 The wake-word protocol (components/pogwake/pogwake.c): a timer that starts monitor jobs and
 turns, a worker that runs the jobs, and users that pause, suspend or reconfigure. Every
 critical section is one step, and the control mutex is held across the steps of a call; the
 steps of different tasks interleave freely.
 */
module WakeProtocol {
  /** The generation counter is 32 bits wide. */
  const WRAP := 0x1_0000_0000

  datatype Op = Pause | Suspend(on: bool) | Configure(on: bool)

  /** Who holds the control mutex and where its holder stands. */
  datatype Control =
    | Free
    | Checking
    | Decided(hit: bool)
    | Failed
    | Entered(op: Op)
    | Paused(op: Op)
    | Muted(on: bool)

  /** A monitor job from its submission to its last critical section. */
  datatype Job = Waiting | Hearing(generation: nat, hit: bool)

  datatype Event = Detect | Invalidate | Turn

  /** The shared variables, with generations unwrapped, and the history of what happened. */
  datatype State = State(
    enabled: bool, suspended: bool, active: bool, pending: bool,
    generation: nat, workerGeneration: nat, detections: nat,
    control: Control, jobs: seq<Job>, log: seq<Event>)

  datatype Step =
    | TickTake
    | TickLoss
    | TickDecide(clear: bool)
    | TickTrigger(ok: bool)
    | TickSubmit(ok: bool)
    | TickFail
    | JobStart(i: nat)
    | JobHear(i: nat)
    | JobFinish(i: nat)
    | UserTake(op: Op)
    | UserReject
    | UserPause
    | UserSecond
    | UserStore(ok: bool)

  predicate Enabled(s: State, step: Step) {
    match step
    case TickTake => s.control == Free
    case TickLoss => s.control == Checking
    case TickDecide(_) => s.control == Checking
    case TickTrigger(_) => s.control == Decided(true)
    case TickSubmit(_) => s.control == Decided(false)
    case TickFail => s.control == Failed
    case JobStart(i) => i < |s.jobs| && s.jobs[i].Waiting?
    case JobHear(i) => i < |s.jobs| && s.jobs[i].Hearing? && !s.jobs[i].hit
    case JobFinish(i) => i < |s.jobs| && s.jobs[i].Hearing?
    case UserTake(_) => s.control == Free
    case UserReject => s.control.Entered? && s.control.op.Configure? && s.control.op.on
    case UserPause => s.control.Entered?
    case UserSecond => s.control.Paused?
    case UserStore(_) => s.control.Muted?
  }

  /** The comparison `generation == s_generation` on the wrapped counters. */
  predicate SameGeneration(g: nat, h: nat) {
    g % WRAP == h % WRAP
  }

  function Without(jobs: seq<Job>, i: nat): seq<Job>
    requires i < |jobs|
  {
    jobs[..i] + jobs[i + 1..]
  }

  function Apply(s: State, step: Step): State
    requires Enabled(s, step)
  {
    match step
    case TickTake => s.(control := Checking)
    case TickLoss =>
      s.(generation := if s.active then s.generation + 1 else s.generation,
         pending := false, control := Free, log := s.log + [Invalidate])
    case TickDecide(clear) =>
      if s.enabled && !s.suspended && !s.active && clear then
        if s.pending then s.(pending := false, control := Decided(true))
        else s.(pending := false, active := true, workerGeneration := s.generation, control := Decided(false))
      else s.(control := Free)
    case TickTrigger(ok) =>
      s.(log := s.log + [Turn], control := if ok then Free else Failed)
    case TickSubmit(ok) =>
      if ok then s.(jobs := s.jobs + [Waiting], control := Free) else s.(control := Failed)
    case TickFail => s.(active := false, control := Free)
    case JobStart(i) => s.(jobs := s.jobs[i := Hearing(s.workerGeneration, false)])
    case JobHear(i) => s.(jobs := s.jobs[i := s.jobs[i].(hit := true)], log := s.log + [Detect])
    case JobFinish(i) =>
      var job, rest := s.jobs[i], Without(s.jobs, i);
      if s.enabled && SameGeneration(job.generation, s.generation) then
        s.(active := false, pending := job.hit, jobs := rest,
           detections := if job.hit then s.detections + 1 else s.detections)
      else s.(active := false, jobs := rest)
    case UserTake(op) => s.(control := Entered(op))
    case UserReject => s.(control := Free)
    case UserPause =>
      s.(generation := s.generation + 1, pending := false, log := s.log + [Invalidate],
         control := if s.control.op.Pause? then Free else Paused(s.control.op))
    case UserSecond =>
      (match s.control.op
       case Suspend(on) => s.(suspended := on, control := Free)
       case Configure(on) => s.(enabled := false, control := Muted(on))
       case Pause => s.(control := Free))
    case UserStore(ok) =>
      s.(enabled := if ok then s.control.on else s.enabled, control := Free)
  }

  function Start(enabled: bool): State {
    State(enabled, false, false, false, 0, 0, 0, Free, [], [])
  }

  // ---------------------------------------------------------------- the invariant

  /** A detection that no invalidation and no turn has followed yet. */
  ghost predicate Live(log: seq<Event>) {
    exists i :: 0 <= i < |log| && log[i] == Detect && forall k :: i < k < |log| ==> log[k] == Detect
  }

  /** The detection behind the turn at `j`: nothing has come between them. */
  ghost predicate Backed(log: seq<Event>, j: nat)
    requires j < |log|
  {
    exists i :: 0 <= i < j && log[i] == Detect && forall k :: i < k < j ==> log[k] == Detect
  }

  function Count(log: seq<Event>, e: Event): nat {
    if log == [] then 0 else Count(log[..|log| - 1], e) + if log[|log| - 1] == e then 1 else 0
  }

  /** A wake on its way to a turn, outside any job. */
  predicate Armed(s: State) {
    s.pending || s.control == Decided(true)
  }

  predicate Heard(s: State) {
    |s.jobs| == 1 && s.jobs[0].Hearing? && s.jobs[0].hit
  }

  /** The job, the flag and the tick in progress exclude each other. */
  ghost predicate Exclusive(s: State) {
    && |s.jobs| <= 1
    && (s.active ==> s.jobs != [] || s.control == Decided(false) || s.control == Failed)
    && (s.control == Decided(false) ==> s.active)
    && (Armed(s) ==> s.jobs == [])
    && (s.control.Decided? || s.control == Failed ==> !s.pending && s.jobs == [])
    && (s.jobs != [] ==> s.workerGeneration <= s.generation && s.active)
    && (s.jobs != [] && s.jobs[0].Hearing? ==> s.jobs[0].generation == s.workerGeneration)
    && (s.control == Decided(false) ==> s.workerGeneration <= s.generation)
  }

  ghost predicate Inv(s: State) {
    && Exclusive(s)
    && (Armed(s) ==> Live(s.log))
    && (Heard(s) && s.jobs[0].generation == s.generation ==> Live(s.log))
    && (forall j :: 0 <= j < |s.log| && s.log[j] == Turn ==> Backed(s.log, j))
    && Count(s.log, Turn) + (if Armed(s) then 1 else 0) <= s.detections
    && s.detections + (if Heard(s) then 1 else 0) <= Count(s.log, Detect)
  }

  /** The generation has not gone round while a job has been running. */
  predicate NoWrap(s: State) {
    forall i :: 0 <= i < |s.jobs| && s.jobs[i].Hearing? ==> s.generation - s.jobs[i].generation < WRAP
  }

  lemma SameGenerationExact(g: nat, h: nat)
    requires g <= h < g + WRAP
    ensures SameGeneration(g, h) <==> g == h
  {
    assert g == g / WRAP * WRAP + g % WRAP && h == h / WRAP * WRAP + h % WRAP;
  }

  lemma CountAppend(log: seq<Event>, x: Event, e: Event)
    ensures Count(log + [x], e) == Count(log, e) + if x == e then 1 else 0
  {
    assert (log + [x])[..|log|] == log;
  }

  lemma LiveDetect(log: seq<Event>)
    ensures Live(log + [Detect])
  {
    assert (log + [Detect])[|log|] == Detect;
  }

  lemma BackedAppend(log: seq<Event>, x: Event)
    requires forall j :: 0 <= j < |log| && log[j] == Turn ==> Backed(log, j)
    requires x == Turn ==> Live(log)
    ensures forall j :: 0 <= j <= |log| && (log + [x])[j] == Turn ==> Backed(log + [x], j)
  {
    var longer := log + [x];
    forall j | 0 <= j <= |log| && longer[j] == Turn ensures Backed(longer, j) {
      if j < |log| {
        assert Backed(log, j);
        var i :| 0 <= i < j && log[i] == Detect && forall k :: i < k < j ==> log[k] == Detect;
        assert longer[i] == Detect && forall k :: i < k < j ==> longer[k] == Detect;
      } else {
        var i :| 0 <= i < |log| && log[i] == Detect && forall k :: i < k < |log| ==> log[k] == Detect;
        assert longer[i] == Detect && forall k :: i < k < j ==> longer[k] == Detect;
      }
    }
  }

  lemma LogStep(s: State, x: Event)
    requires Inv(s) && (x == Turn ==> Live(s.log))
    ensures forall j :: 0 <= j <= |s.log| && (s.log + [x])[j] == Turn ==> Backed(s.log + [x], j)
    ensures forall e :: Count(s.log + [x], e) == Count(s.log, e) + if x == e then 1 else 0
  {
    BackedAppend(s.log, x);
    forall e ensures Count(s.log + [x], e) == Count(s.log, e) + if x == e then 1 else 0 {
      CountAppend(s.log, x, e);
    }
  }

  lemma JobStep(s: State, step: Step)
    requires Inv(s) && NoWrap(s) && Enabled(s, step)
    requires step.JobStart? || step.JobHear? || step.JobFinish?
    ensures Inv(Apply(s, step))
  {
    assert step.i == 0;
    if step.JobHear? {
      LogStep(s, Detect);
      LiveDetect(s.log);
    }
    if step.JobFinish? { SameGenerationExact(s.jobs[0].generation, s.generation); }
  }

  lemma TickStep(s: State, step: Step)
    requires Inv(s) && Enabled(s, step)
    requires step.TickTake? || step.TickLoss? || step.TickDecide? || step.TickTrigger? || step.TickSubmit? || step.TickFail?
    ensures Inv(Apply(s, step))
  {
    hide Count, Live, Backed;
    if step.TickLoss? { LogStep(s, Invalidate); }
    if step.TickTrigger? { LogStep(s, Turn); }
  }

  lemma UserStep(s: State, step: Step)
    requires Inv(s) && Enabled(s, step)
    requires step.UserTake? || step.UserReject? || step.UserPause? || step.UserSecond? || step.UserStore?
    ensures Inv(Apply(s, step))
  {
    hide Count, Live, Backed;
    if step.UserPause? {
      LogStep(s, Invalidate);
    } else {
      assert Apply(s, step).log == s.log && Apply(s, step).jobs == s.jobs;
    }
  }

  /** A finished job arms a turn exactly when its generation still counts as the current one. */
  lemma FinishArms(s: State, i: nat)
    requires Enabled(s, JobFinish(i)) && !s.pending && s.jobs[i].generation <= s.generation
    ensures Apply(s, JobFinish(i)).pending <==>
      s.enabled && s.jobs[i].hit && (s.generation - s.jobs[i].generation) % WRAP == 0
    ensures var t := Apply(s, JobFinish(i));
            !t.active && t.detections == s.detections + if t.pending then 1 else 0
  {
    var g, h := s.jobs[i].generation, s.generation;
    assert g == g / WRAP * WRAP + g % WRAP && h == h / WRAP * WRAP + h % WRAP;
    var d := h % WRAP - g % WRAP;
    assert h - g == (h / WRAP - g / WRAP) * WRAP + d;
    if d >= 0 {
      assert (h - g) % WRAP == d;
    } else {
      assert h - g == (h / WRAP - g / WRAP - 1) * WRAP + (d + WRAP);
      assert (h - g) % WRAP == d + WRAP;
    }
  }

  lemma StepInv(s: State, step: Step)
    requires Inv(s) && NoWrap(s) && Enabled(s, step)
    ensures Inv(Apply(s, step))
  {
    if step.JobStart? || step.JobHear? || step.JobFinish? {
      JobStep(s, step);
    } else if step.UserTake? || step.UserReject? || step.UserPause? || step.UserSecond? || step.UserStore? {
      UserStep(s, step);
    } else {
      TickStep(s, step);
    }
  }

  // ------------------------------------------------------------------- whole runs

  ghost predicate CanRun(s: State, steps: seq<Step>)
    decreases |steps|
  {
    steps == [] || (Enabled(s, steps[0]) && CanRun(Apply(s, steps[0]), steps[1..]))
  }

  function After(s: State, steps: seq<Step>): State
    requires CanRun(s, steps)
    decreases |steps|
  {
    if steps == [] then s else After(Apply(s, steps[0]), steps[1..])
  }

  ghost predicate NeverWraps(s: State, steps: seq<Step>)
    requires CanRun(s, steps)
    decreases |steps|
  {
    NoWrap(s) && (steps != [] ==> NeverWraps(Apply(s, steps[0]), steps[1..]))
  }

  lemma {:induction false} RunInv(s: State, steps: seq<Step>)
    requires Inv(s) && CanRun(s, steps) && NeverWraps(s, steps)
    ensures Inv(After(s, steps))
    decreases |steps|
  {
    if steps != [] {
      StepInv(s, steps[0]);
      RunInv(Apply(s, steps[0]), steps[1..]);
    }
  }

  /**
   In every interleaving: each turn answers its own detection with no pause, suspension,
   reconfiguration, loss of availability or other turn in between; at most one monitor job
   exists; and turns never outnumber detections.
   */
  lemma WakeSafety(enabled: bool, steps: seq<Step>)
    requires CanRun(Start(enabled), steps) && NeverWraps(Start(enabled), steps)
    ensures var s := After(Start(enabled), steps);
            && (forall j :: 0 <= j < |s.log| && s.log[j] == Turn ==> Backed(s.log, j))
            && |s.jobs| <= 1
            && Count(s.log, Turn) <= s.detections <= Count(s.log, Detect)
  {
    RunInv(Start(enabled), steps);
  }

  // ------------------------------------------------- when the device does not listen

  /** The step that completes a call to resume. */
  predicate Resumes(s: State, step: Step) {
    step.UserSecond? && s.control == Paused(Suspend(false))
  }

  /** The step that completes a call to enable. */
  predicate Enables(s: State, step: Step) {
    step == UserStore(true) && s.control == Muted(true)
  }

  /** Suspended or disabled, with no decision of a tick outstanding. */
  predicate Resting(s: State) {
    (s.suspended || !s.enabled) && !s.control.Decided?
  }

  /** Steps neither resume nor enable. */
  ghost predicate StaysOff(s: State, steps: seq<Step>)
    requires CanRun(s, steps)
    decreases |steps|
  {
    steps != [] ==>
      && (s.suspended ==> !Resumes(s, steps[0])) && (!s.enabled ==> !Enables(s, steps[0]))
      && StaysOff(Apply(s, steps[0]), steps[1..])
  }

  /** What a step writes into the history. */
  function Written(s: State, step: Step): seq<Event> {
    match step
    case TickLoss => [Invalidate]
    case TickTrigger(_) => [Turn]
    case JobHear(_) => [Detect]
    case UserPause => [Invalidate]
    case _ => []
  }

  lemma RestingStep(s: State, step: Step)
    requires Resting(s) && Enabled(s, step)
    requires (s.suspended ==> !Resumes(s, step)) && (!s.enabled ==> !Enables(s, step))
    ensures var t := Apply(s, step);
            && Resting(t) && |t.jobs| <= |s.jobs| && (s.suspended ==> t.suspended) && (!s.enabled ==> !t.enabled)
            && t.log == s.log + Written(s, step) && Turn !in Written(s, step)
  {
    hide SameGeneration;
    assert s.log + [] == s.log;
    if step.JobFinish? { assert |Without(s.jobs, step.i)| == |s.jobs| - 1; }
  }

  lemma NoTurnWritten(s: State, step: Step)
    requires Turn !in Written(s, step)
    ensures Count(s.log + Written(s, step), Turn) == Count(s.log, Turn)
  {
    var w := Written(s, step);
    if w == [] { assert s.log + w == s.log; } else { CountAppend(s.log, w[0], Turn); }
  }

  /**
   A device that is suspended or disabled rests: whatever the timer, the worker and the users do,
   no turn starts and no monitor job is submitted until it is resumed or enabled.
   */
  lemma {:induction false} RestsUntilResumed(s: State, steps: seq<Step>)
    requires Resting(s) && CanRun(s, steps) && StaysOff(s, steps)
    ensures var t := After(s, steps);
            && Resting(t) && Count(t.log, Turn) == Count(s.log, Turn) && |t.jobs| <= |s.jobs|
            && (s.suspended ==> t.suspended) && (!s.enabled ==> !t.enabled)
    decreases |steps|
  {
    hide Apply, Enabled, Count, Resting, Written;
    if steps != [] {
      RestingStep(s, steps[0]);
      NoTurnWritten(s, steps[0]);
      RestsUntilResumed(Apply(s, steps[0]), steps[1..]);
    }
  }

  /** A user's whole call, with nothing in between: what it leaves behind. */
  function Call(op: Op, stored: bool): seq<Step> {
    match op
    case Pause => [UserTake(op), UserPause]
    case Suspend(_) => [UserTake(op), UserPause, UserSecond]
    case Configure(_) => [UserTake(op), UserPause, UserSecond, UserStore(stored)]
  }

  /**
   Every call discards a pending wake and every wake still being listened for; suspending and
   resuming set the flag; configuring turns detection off, and on again only if asked to and stored.
   */
  lemma CallTakesEffect(s: State, op: Op, stored: bool)
    requires s.control == Free
    ensures CanRun(s, Call(op, stored))
    ensures var t := After(s, Call(op, stored));
            && t.control == Free && !t.pending && t.generation == s.generation + 1
            && t.active == s.active && t.jobs == s.jobs && t.log == s.log + [Invalidate]
            && t.suspended == (if op.Suspend? then op.on else s.suspended)
            && t.enabled == (if op.Configure? then stored && op.on else s.enabled)
  {
    var steps := Call(op, stored);
    var a := Apply(s, UserTake(op));
    var b := Apply(a, UserPause);
    match op
    case Pause => RunLast(a, [UserPause]);
    case Suspend(_) =>
      RunLast(b, [UserSecond]);
      assert steps[1..] == [UserPause, UserSecond] && steps[1..][1..] == [UserSecond];
      assert CanRun(a, steps[1..]) && After(a, steps[1..]) == Apply(b, UserSecond);
    case Configure(_) =>
      var c := Apply(b, UserSecond);
      RunLast(c, [UserStore(stored)]);
      assert steps[1..] == [UserPause, UserSecond, UserStore(stored)];
      assert steps[1..][1..] == [UserSecond, UserStore(stored)] && steps[1..][1..][1..] == [UserStore(stored)];
      assert CanRun(b, steps[1..][1..]) && After(b, steps[1..][1..]) == Apply(c, UserStore(stored));
      assert CanRun(a, steps[1..]) && After(a, steps[1..]) == Apply(c, UserStore(stored));
  }

  /** A tick that finds the voice service busy discards a pending wake and the wake of a running job. */
  lemma LossTakesEffect(s: State)
    requires s.control == Free
    ensures CanRun(s, [TickTake, TickLoss])
    ensures After(s, [TickTake, TickLoss])
         == s.(pending := false, generation := s.generation + (if s.active then 1 else 0), log := s.log + [Invalidate])
  {
    var steps := [TickTake, TickLoss];
    assert steps[1..] == [TickLoss];
    RunLast(Apply(s, TickTake), [TickLoss]);
  }

  lemma RunLast(s: State, steps: seq<Step>)
    requires |steps| == 1 && Enabled(s, steps[0])
    ensures CanRun(s, steps) && After(s, steps) == Apply(s, steps[0])
  {
    assert steps[1..] == [];
    assert CanRun(Apply(s, steps[0]), []);
  }

  /**
   A tick with the microphone clear, in an idle device that is enabled and not suspended, starts a
   turn if a wake is pending and a monitor job of the current generation otherwise; any other
   tick changes nothing.
   */
  lemma TickStarts(s: State, clear: bool)
    requires s.control == Free
    ensures var go := s.enabled && !s.suspended && !s.active && clear;
            var last := if !go then [] else if s.pending then [TickTrigger(true)] else [TickSubmit(true)];
            var steps := [TickTake, TickDecide(clear)] + last;
            && CanRun(s, steps)
            && After(s, steps) ==
               if !go then s
               else if s.pending then s.(pending := false, log := s.log + [Turn])
               else s.(active := true, workerGeneration := s.generation, jobs := s.jobs + [Waiting])
  {
    var go := s.enabled && !s.suspended && !s.active && clear;
    var last := if !go then [] else if s.pending then [TickTrigger(true)] else [TickSubmit(true)];
    var steps := [TickTake, TickDecide(clear)] + last;
    var a := Apply(s, TickTake);
    var b := Apply(a, TickDecide(clear));
    assert steps[0] == TickTake && steps[1..] == [TickDecide(clear)] + last && steps[1..][1..] == last;
    if go { RunLast(b, last); } else { assert CanRun(b, []) && After(b, []) == b; }
    assert CanRun(a, steps[1..]) && After(a, steps[1..]) == After(b, last);
  }

  // ----------------------------------------------- why the counter must not go round

  function Pauses(n: nat): seq<Step> {
    if n == 0 then [] else [UserTake(Pause), UserPause] + Pauses(n - 1)
  }

  function Invalidations(n: nat): seq<Event> {
    seq(n, _ => Invalidate)
  }

  lemma {:induction false} PausesAddUp(s: State, n: nat, rest: seq<Step>)
    requires s.control == Free && !s.pending
    ensures var t := s.(generation := s.generation + n, log := s.log + Invalidations(n));
            && (CanRun(t, rest) ==> CanRun(s, Pauses(n) + rest) && After(s, Pauses(n) + rest) == After(t, rest))
    decreases n
  {
    if n == 0 {
      assert Pauses(0) + rest == rest && s.log + Invalidations(0) == s.log;
    } else {
      var steps := Pauses(n) + rest;
      var a := Apply(s, UserTake(Pause));
      var b := Apply(a, UserPause);
      assert b == s.(generation := s.generation + 1, log := s.log + [Invalidate]);
      PausesAddUp(b, n - 1, rest);
      assert steps[0] == UserTake(Pause) && steps[1..][0] == UserPause;
      assert steps[1..][1..] == Pauses(n - 1) + rest;
      assert b.log + Invalidations(n - 1) == s.log + Invalidations(n);
    }
  }

  /** A job has just heard the wake word; nothing else is going on. */
  predicate JustHeard(s: State) {
    && s.enabled && !s.suspended && s.active && !s.pending && s.control == Free
    && s.jobs == [Hearing(s.generation, true)]
  }

  /** From a job whose wake has been paused away to the turn that a full round of pauses restores. */
  lemma StaleTurn(s: State)
    requires s.enabled && !s.suspended && s.active && !s.pending && s.control == Free
    requires |s.jobs| == 1 && s.jobs[0].Hearing? && s.jobs[0].hit && s.generation == s.jobs[0].generation + WRAP
    ensures var tail := [JobFinish(0), TickTake, TickDecide(true), TickTrigger(true)];
            CanRun(s, tail) && After(s, tail).log == s.log + [Turn]
  {
    hide Count, Live, Backed;
    var tail := [JobFinish(0), TickTake, TickDecide(true), TickTrigger(true)];
    FinishArms(s, 0);
    var t1 := Apply(s, tail[0]);
    assert t1.pending && !t1.active && t1.log == s.log;
    var t2 := Apply(t1, tail[1]);
    var t3 := Apply(t2, tail[2]);
    assert t3.control == Decided(true);
    RunFour(s, tail);
  }

  /** 2^32 pauses during one job make its stale wake start a turn: the bound on wrapping is needed. */
  lemma WrapDefeatsPause(s: State) returns (steps: seq<Step>)
    requires JustHeard(s)
    ensures CanRun(s, steps)
    ensures var log, n := After(s, steps).log, |s.log|;
            && |log| == n + WRAP + 1 && log[n] == Invalidate && log[n + WRAP] == Turn
            && !Backed(log, n + WRAP)
  {
    hide Apply;
    var tail := [JobFinish(0), TickTake, TickDecide(true), TickTrigger(true)];
    var t := s.(generation := s.generation + WRAP, log := s.log + Invalidations(WRAP));
    StaleTurn(t);
    PausesAddUp(s, WRAP, tail);
    steps := Pauses(WRAP) + tail;
    StaleLog(s.log, WRAP, After(s, steps).log);
  }

  /** A turn right behind invalidations answers no live detection. */
  lemma StaleLog(before: seq<Event>, n: nat, log: seq<Event>)
    requires n > 0 && log == before + Invalidations(n) + [Turn]
    ensures |log| == |before| + n + 1 && log[|before|] == Invalidate && log[|before| + n] == Turn
    ensures !Backed(log, |before| + n)
  {
    assert log[|before| + n - 1] == Invalidate;
  }

  const HEAR := [TickTake, TickDecide(true), TickSubmit(true), JobStart(0), JobHear(0)]

  function WakeHeard(): State {
    Apply(Apply(Apply(Apply(Apply(Start(true), HEAR[0]), HEAR[1]), HEAR[2]), HEAR[3]), HEAR[4])
  }

  /** From the start to a job that has just heard the wake word, and on. */
  lemma HeardFromStart(rest: seq<Step>)
    ensures JustHeard(WakeHeard())
    ensures CanRun(WakeHeard(), rest) ==>
      CanRun(Start(true), HEAR + rest) && After(Start(true), HEAR + rest) == After(WakeHeard(), rest)
  {
    var steps := HEAR + rest;
    assert forall i :: 0 <= i < 5 ==> steps[i] == HEAR[i];
    assert steps[5..] == rest;
    if CanRun(WakeHeard(), rest) { RunFive(Start(true), steps, rest); }
  }

  /** The same from the start: one run whose last event is a turn that no live detection backs. */
  lemma StaleTurnFromStart() returns (steps: seq<Step>)
    ensures CanRun(Start(true), steps)
    ensures var log := After(Start(true), steps).log;
            log != [] && log[|log| - 1] == Turn && !Backed(log, |log| - 1)
  {
    hide Apply, JustHeard, Enabled, Backed, WakeHeard, CanRun, After;
    HeardFromStart([]);
    var more := WrapDefeatsPause(WakeHeard());
    HeardFromStart(more);
    steps := HEAR + more;
  }

  lemma RunFour(s: State, steps: seq<Step>)
    requires |steps| == 4
    requires Enabled(s, steps[0]) && Enabled(Apply(s, steps[0]), steps[1])
    requires Enabled(Apply(Apply(s, steps[0]), steps[1]), steps[2])
    requires Enabled(Apply(Apply(Apply(s, steps[0]), steps[1]), steps[2]), steps[3])
    ensures CanRun(s, steps)
    ensures After(s, steps) == Apply(Apply(Apply(Apply(s, steps[0]), steps[1]), steps[2]), steps[3])
  {
    var s1 := Apply(s, steps[0]);
    var s2 := Apply(s1, steps[1]);
    var s3 := Apply(s2, steps[2]);
    var s4 := Apply(s3, steps[3]);
    var r1, r2, r3 := steps[1..], steps[2..], steps[3..];
    assert r1[1..] == r2 && r2[1..] == r3 && r3[1..] == [];
    assert CanRun(s4, []) && CanRun(s3, r3) && After(s3, r3) == s4;
    assert CanRun(s2, r2) && After(s2, r2) == s4;
    assert CanRun(s1, r1) && After(s1, r1) == s4;
  }

  lemma RunFive(s: State, steps: seq<Step>, rest: seq<Step>)
    requires |steps| == 5 + |rest| && steps[5..] == rest
    requires Enabled(s, steps[0]) && Enabled(Apply(s, steps[0]), steps[1])
    requires Enabled(Apply(Apply(s, steps[0]), steps[1]), steps[2])
    requires Enabled(Apply(Apply(Apply(s, steps[0]), steps[1]), steps[2]), steps[3])
    requires Enabled(Apply(Apply(Apply(Apply(s, steps[0]), steps[1]), steps[2]), steps[3]), steps[4])
    requires CanRun(Apply(Apply(Apply(Apply(Apply(s, steps[0]), steps[1]), steps[2]), steps[3]), steps[4]), rest)
    ensures CanRun(s, steps)
    ensures After(s, steps)
         == After(Apply(Apply(Apply(Apply(Apply(s, steps[0]), steps[1]), steps[2]), steps[3]), steps[4]), rest)
  {
    var s1 := Apply(s, steps[0]);
    var s2 := Apply(s1, steps[1]);
    var s3 := Apply(s2, steps[2]);
    var s4 := Apply(s3, steps[3]);
    var s5 := Apply(s4, steps[4]);
    var r1, r2, r3, r4 := steps[1..], steps[2..], steps[3..], steps[4..];
    assert r1[1..] == r2 && r2[1..] == r3 && r3[1..] == r4 && r4[1..] == rest;
    assert CanRun(s4, r4) && After(s4, r4) == After(s5, rest);
    assert CanRun(s3, r3) && After(s3, r3) == After(s5, rest);
    assert CanRun(s2, r2) && After(s2, r2) == After(s5, rest);
    assert CanRun(s1, r1) && After(s1, r1) == After(s5, rest);
  }
}
