/**
 The critical sections of the wake-word component on its shared variables, with the
 generation counter at its 32-bit width (components/pogwake/pogwake.c). Each one is proved to
 take exactly one step of `WakeProtocol`, so the safety of all runs carries over.
 */
module WakeControl {
  import opened Prelude
  import opened WakeProtocol

  class Shared {
    var enabled: bool
    var suspended: bool
    var active: bool
    var pending: bool
    var generation: nat
    var workerGeneration: nat
    var detections: nat
    /** The protocol state that these variables represent. */
    ghost var model: State

    ghost predicate Valid()
      reads this
    {
      && enabled == model.enabled && suspended == model.suspended
      && active == model.active && pending == model.pending
      && generation == model.generation % WRAP
      && workerGeneration == model.workerGeneration % WRAP
      && detections == model.detections
    }

    constructor (on: bool)
      ensures Valid() && model == Start(on)
    {
      enabled, suspended, active, pending := on, false, false, false;
      generation, workerGeneration, detections := 0, 0, 0;
      model := Start(on);
    }

    /** The increment of a 32-bit counter. */
    static function Next(g: nat): nat {
      (g + 1) % WRAP
    }

    static lemma NextExact(g: nat)
      ensures Next(g % WRAP) == (g + 1) % WRAP
    {
      var q, r := g / WRAP, g % WRAP;
      if r + 1 < WRAP { ModUnique(q, r + 1, WRAP); } else { ModUnique(q + 1, 0, WRAP); }
    }

    /** tick: the voice service is not available. */
    method TickUnavailable()
      requires Valid() && model.control == Checking
      modifies this
      ensures Valid() && model == Apply(old(model), TickLoss)
    {
      NextExact(model.generation);
      if active {
        generation := Next(generation);
      }
      pending := false;
      model := Apply(model, TickLoss);
    }

    /** tick: decide whether to start a turn, a monitor job or nothing. */
    method TickChoose(clear: bool) returns (go: bool, hit: bool)
      requires Valid() && model.control == Checking
      modifies this
      ensures Valid() && model == Apply(old(model), TickDecide(clear))
      ensures if go then model.control == Decided(hit) else model.control == Free
    {
      go := enabled && !suspended && !active && clear;
      hit := pending;
      if go {
        pending := false;
        if !hit {
          active := true;
          workerGeneration := generation;
        }
      }
      model := Apply(model, TickDecide(clear));
    }

    /** tick: starting the turn or submitting the job failed. */
    method TickFailed()
      requires Valid() && model.control == Failed
      modifies this
      ensures Valid() && model == Apply(old(model), TickFail)
    {
      active := false;
      model := Apply(model, TickFail);
    }

    /** monitor: the generation that the job will compare with. */
    method MonitorStart(ghost i: nat) returns (own: nat)
      requires Valid() && Enabled(model, JobStart(i))
      modifies this
      ensures Valid() && model == Apply(old(model), JobStart(i))
      ensures own == model.jobs[i].generation % WRAP
    {
      own := workerGeneration;
      model := Apply(model, JobStart(i));
    }

    /** monitor: the result of a job, discarded unless its generation is the current one. */
    method MonitorFinish(own: nat, hit: bool, ghost i: nat)
      requires Valid() && Enabled(model, JobFinish(i))
      requires own == model.jobs[i].generation % WRAP && hit == model.jobs[i].hit
      modifies this
      ensures Valid() && model == Apply(old(model), JobFinish(i))
    {
      active := false;
      if enabled && own == generation {
        pending := hit;
        if hit {
          detections := detections + 1;
        }
      }
      model := Apply(model, JobFinish(i));
    }

    /** pause_locked, as the first section of every user call. */
    method PauseLocked()
      requires Valid() && model.control.Entered?
      modifies this
      ensures Valid() && model == Apply(old(model), UserPause)
    {
      NextExact(model.generation);
      generation := Next(generation);
      pending := false;
      model := Apply(model, UserPause);
    }

    /** pogwake_suspend, with the mutex already taken. */
    method FinishSuspend(on: bool)
      requires Valid() && model.control == Entered(Suspend(on))
      modifies this
      ensures Valid() && model == Apply(Apply(old(model), UserPause), UserSecond)
      ensures suspended == on && !pending && model.control == Free
    {
      PauseLocked();
      suspended := on;
      model := Apply(model, UserSecond);
    }

    /** pogwake_configure past its checks: muted first, so that a failed store cannot leave it on. */
    method FinishConfigure(on: bool, stored: bool)
      requires Valid() && model.control == Entered(Configure(on))
      modifies this
      ensures Valid() && model == Apply(Apply(Apply(old(model), UserPause), UserSecond), UserStore(stored))
      ensures enabled == (on && stored) && !pending && model.control == Free
    {
      PauseLocked();
      enabled := false;
      model := Apply(model, UserSecond);
      if stored {
        enabled := on;
      }
      model := Apply(model, UserStore(stored));
    }
  }
}
