/**
 Producers, consumers and flushes of the jitter buffer in every interleaving. A producer
 is split between its critical section and the semaphore give that follows it, a consumer
 between the semaphore take and its critical section (main/audio/audio_buffer.c).
 */
module JitterProtocol {
  import opened Serial32
  import opened JitterQueue

  /** The buffer, the gives still to be made and the takes whose frame is still to be removed. */
  datatype System = System(b: Buffer, gives: nat, takes: nat)

  datatype Step =
    | Produce(f: Frame)
    | Signal
    | Wait
    | Take
    | Return(slot: nat)
    | Clear

  predicate Enabled(s: System, step: Step) {
    match step
    case Produce(_) => true
    case Signal => s.gives > 0
    case Wait => s.b.tokens > 0
    case Take => s.takes > 0
    case Return(slot) => slot in s.b.held
    case Clear => true
  }

  /** One atomic step; that it is defined on its own results makes `Inv` hold at every reachable state. */
  ghost function Apply(s: System, step: Step): (r: System)
    requires Inv(s.b) && Enabled(s, step)
    ensures Inv(r.b) && |r.b.pool| == |s.b.pool|
  {
    match step
    case Produce(f) =>
      EnqueueInv(s.b, f);
      if Refuses(s.b) then s else System(Enqueue(s.b, f), s.gives + 1, s.takes)
    case Signal => System(Give(s.b), s.gives - 1, s.takes)
    case Wait => System(Acquire(s.b), s.gives, s.takes + 1)
    case Take =>
      RemoveInv(s.b);
      System(Remove(s.b), s.gives, s.takes - 1)
    case Return(slot) =>
      GiveBackInv(s.b, slot);
      s.(b := GiveBack(s.b, slot))
    case Clear =>
      FlushInv(s.b);
      s.(b := Flush(s.b))
  }

  ghost predicate CanRun(s: System, steps: seq<Step>)
    requires Inv(s.b)
    decreases |steps|
  {
    steps == [] || (Enabled(s, steps[0]) && CanRun(Apply(s, steps[0]), steps[1..]))
  }

  /** The state that a run ends in. */
  ghost function After(s: System, steps: seq<Step>): (r: System)
    requires Inv(s.b) && CanRun(s, steps)
    ensures Inv(r.b) && |r.b.pool| == |s.b.pool|
    decreases |steps|
  {
    if steps == [] then s else After(Apply(s, steps[0]), steps[1..])
  }

  ghost function Start(pool: seq<Frame>): (s: System)
    ensures Inv(s.b) && |s.b.pool| == |pool|
  {
    FreshInv(pool);
    System(Fresh(pool), 0, 0)
  }

  /** In every reachable state each slot is queued, free or held, and only one of these. */
  lemma ReachablePartition(pool: seq<Frame>, steps: seq<Step>, x: nat)
    requires CanRun(Start(pool), steps) && x < |pool|
    ensures var b := After(Start(pool), steps).b;
            && (x in b.sorted || x in b.free || x in b.held)
            && !(x in b.sorted && x in b.free) && !(x in b.sorted && x in b.held) && !(x in b.free && x in b.held)
            && |b.free| <= |pool| && b.sampleCount == TotalSamples(Content(b))
  {
    EverySlotOwned(After(Start(pool), steps).b, x);
  }

  // -------------------------------------------------------------- no wake-up is lost

  ghost predicate Covered(s: System) {
    s.b.tokens + s.gives + s.takes >= |s.b.sorted|
  }

  lemma StoreSizes(b: Buffer, f: Frame)
    requires Partitioned(b)
    ensures |Enqueue(b, f).sorted| == |b.sorted| + if Refuses(b) || Evict(b) != b then 0 else 1
    ensures Enqueue(b, f).tokens == if Refuses(b) then b.tokens else Evict(b).tokens
    ensures Evict(b) != b ==> |b.sorted| == |b.pool|
  {
    EvictPartitioned(b);
    if !Refuses(b) { StoreContent(Evict(b), f); }
  }

  lemma StepCovered(s: System, step: Step)
    requires Inv(s.b) && Enabled(s, step) && Covered(s)
    ensures Covered(Apply(s, step))
  {
    if step.Produce? { StoreSizes(s.b, step.f); }
  }

  lemma {:induction false} RunCovered(s: System, steps: seq<Step>)
    requires Inv(s.b) && CanRun(s, steps) && Covered(s)
    ensures Covered(After(s, steps))
    decreases |steps|
  {
    if steps != [] {
      StepCovered(s, steps[0]);
      RunCovered(Apply(s, steps[0]), steps[1..]);
    }
  }

  /** Whenever nobody is between two steps, a queued frame has a token to wake its consumer. */
  lemma NoLostWakeup(pool: seq<Frame>, steps: seq<Step>)
    requires CanRun(Start(pool), steps)
    ensures var s := After(Start(pool), steps);
            && s.b.tokens + s.gives + s.takes >= |s.b.sorted|
            && (s.gives == 0 && s.takes == 0 && s.b.sorted != [] ==> s.b.tokens > 0)
  {
    RunCovered(Start(pool), steps);
  }

  /** One producer and one consumer, each finishing an operation before its next, and no flush. */
  predicate Solo(s: System, step: Step) {
    && (step.Produce? ==> s.gives == 0)
    && (step.Wait? ==> s.takes == 0)
    && !step.Clear?
  }

  ghost predicate SoloRun(s: System, steps: seq<Step>)
    requires Inv(s.b)
    decreases |steps|
  {
    steps == [] || (Enabled(s, steps[0]) && Solo(s, steps[0]) && SoloRun(Apply(s, steps[0]), steps[1..]))
  }

  ghost predicate Balanced(s: System) {
    s.b.tokens + s.gives + s.takes == |s.b.sorted| && s.gives <= 1 && s.takes <= 1
  }

  lemma SoloStep(s: System, step: Step)
    requires Inv(s.b) && 2 <= |s.b.pool| && Enabled(s, step) && Solo(s, step) && Balanced(s)
    ensures Balanced(Apply(s, step))
  {
    hide Enqueue, Partitioned, TotalSamples, Frames;
    SizeBound(s.b);
    if step.Produce? { StoreSizes(s.b, step.f); }
  }

  /** Tokens then match the queue exactly, so the consumer never finds it empty. */
  lemma {:induction false} SoloBalanced(s: System, steps: seq<Step>)
    requires Inv(s.b) && 2 <= |s.b.pool| && SoloRun(s, steps) && Balanced(s)
    ensures CanRun(s, steps) && Balanced(After(s, steps))
    ensures After(s, steps).takes > 0 ==> After(s, steps).b.sorted != []
    decreases |steps|
  {
    if steps != [] {
      SoloStep(s, steps[0]);
      SoloBalanced(Apply(s, steps[0]), steps[1..]);
    }
  }

  /** A flush between the consumer's two halves is what the empty-queue guard is for. */
  lemma FlushReachesGuard(pool: seq<Frame>, f: Frame)
    requires 2 <= |pool|
    ensures var steps := [Produce(f), Signal, Wait, Clear];
            && CanRun(Start(pool), steps)
            && After(Start(pool), steps).takes > 0 && After(Start(pool), steps).b.sorted == []
  {
    var s0 := Start(pool);
    StoreSizes(s0.b, f);
    RefusedExactly(s0.b);
    var s1 := Apply(s0, Produce(f));
    var s2 := Apply(s1, Signal);
    var s3 := Apply(s2, Wait);
    var steps := [Produce(f), Signal, Wait, Clear];
    assert steps[1..] == [Signal, Wait, Clear] && steps[1..][1..] == [Wait, Clear];
    assert steps[1..][1..][1..] == [Clear];
    assert CanRun(s3, [Clear]) && After(s3, [Clear]) == Apply(s3, Clear);
    assert CanRun(s2, [Wait, Clear]);
    assert CanRun(s1, [Signal, Wait, Clear]);
  }

  // ----------------------------------------------------------- what the consumer holds

  lemma StepFreezesHeld(s: System, step: Step, slot: nat)
    requires Inv(s.b) && Enabled(s, step) && slot in s.b.held && step != Return(slot)
    ensures slot in Apply(s, step).b.held
    ensures Apply(s, step).b.pool[slot] == s.b.pool[slot]
  {
    EvictPartitioned(s.b);
    if step.Produce? && !Refuses(s.b) {
      var e := Evict(s.b);
      assert e.free[|e.free| - 1] !in e.held;
    }
  }

  /** Header and payload of a taken frame stay as they are until it is returned. */
  lemma {:induction false} HeldFrozen(s: System, steps: seq<Step>, slot: nat)
    requires Inv(s.b) && CanRun(s, steps) && slot in s.b.held && Return(slot) !in steps
    ensures slot in After(s, steps).b.held
    ensures After(s, steps).b.pool[slot] == s.b.pool[slot]
    decreases |steps|
  {
    if steps != [] {
      StepFreezesHeld(s, steps[0], slot);
      HeldFrozen(Apply(s, steps[0]), steps[1..], slot);
    }
  }

  // ------------------------------------------------------------- order over whole runs

  /** Every frame produced lies within half the timestamp range of the frames queued then. */
  ghost predicate Windowed(s: System, steps: seq<Step>)
    requires Inv(s.b) && CanRun(s, steps)
    decreases |steps|
  {
    steps != [] ==>
      && (steps[0].Produce? ==> AllNear(Content(s.b), steps[0].f.time))
      && Windowed(Apply(s, steps[0]), steps[1..])
  }

  lemma StepAscending(s: System, step: Step)
    requires Inv(s.b) && Enabled(s, step) && Ascending(Content(s.b))
    requires step.Produce? ==> AllNear(Content(s.b), step.f.time)
    ensures Ascending(Content(Apply(s, step).b))
  {
    match step
    case Produce(f) => if !Refuses(s.b) { EnqueueRefines(s.b, f); }
    case Take => RemoveInv(s.b);
    case Return(slot) => GiveBackInv(s.b, slot);
    case _ =>
  }

  lemma {:induction false} RunAscending(s: System, steps: seq<Step>)
    requires Inv(s.b) && CanRun(s, steps) && Windowed(s, steps) && Ascending(Content(s.b))
    ensures Ascending(Content(After(s, steps).b))
    decreases |steps|
  {
    if steps != [] {
      StepAscending(s, steps[0]);
      RunAscending(Apply(s, steps[0]), steps[1..]);
    }
  }

  /** Over any windowed run the frame handed to the consumer is the oldest one queued. */
  lemma TakesInOrder(pool: seq<Frame>, steps: seq<Step>, x: nat)
    requires CanRun(Start(pool), steps) && Windowed(Start(pool), steps)
    requires x < |After(Start(pool), steps).b.sorted|
    ensures var b := After(Start(pool), steps).b;
            b.pool[b.sorted[0]].time <= b.pool[b.sorted[x]].time
  {
    RunAscending(Start(pool), steps);
    TakenIsOldest(After(Start(pool), steps).b, x);
  }
}
