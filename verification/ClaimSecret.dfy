/**
 When the claim secret in memory is also in storage (components/pogdev/pogdev_enrol.c). The
 secret should be stored before it is announced; whether it is can be told from the outcomes of
 the storage calls alone, over every run.
 */
module ClaimSecret {
  import opened EnrolProtocol

  /** Storage opens and the call on the claim key succeeds. */
  predicate Reaches(io: Io) {
    io.open.Ready? && Claim !in io.fails
  }

  /** A failing forget that leaves the claim key alone. */
  predicate Keeps(io: Io) {
    !io.open.Ready? || (!io.wipe && Claim in io.left)
  }

  predicate Stores(nvs: Storage, secret: string) {
    HasText(nvs, Claim) && nvs[Claim].s == secret
  }

  // --------------------------------------------------------------------- one step

  /** Drawing a secret leaves memory and storage in agreement exactly when it is written. */
  lemma DrawExact(d: Device, secret: string, io: Io)
    requires InSync(d) && !d.forgetting && d.claim == "" && secret != ""
    ensures InSync(Apply(d, EnsureClaim(secret, io))) <==> Reaches(io) || Stores(d.nvs, secret)
  {
    hide Stored, AllOk;
    ClaimStored(d.nvs, secret, io);
  }

  /** Steps other than these do not touch the secret, in memory or in storage. */
  predicate Touches(step: Step) {
    step.EnsureClaim? || step.Load? || step.Forget? || step.Reboot? || (step.Answer? && step.reply.Gone?)
  }

  /** The same secret, in memory and in storage, and the same latch. */
  ghost predicate SameSecret(d: Device, e: Device) {
    && e.claim == d.claim && e.forgetting == d.forgetting
    && (HasText(e.nvs, Claim) <==> HasText(d.nvs, Claim))
    && (HasText(d.nvs, Claim) ==> e.nvs[Claim] == d.nvs[Claim])
  }

  lemma StoredElsewhere(nvs: Storage, writes: seq<(Key, Value)>, io: Io)
    requires forall i :: 0 <= i < |writes| ==> writes[i].0 != Claim
    ensures var after := Stored(nvs, writes, io);
            (Claim in after <==> Claim in nvs) && (Claim in nvs ==> after[Claim] == nvs[Claim])
  {
    hide Written;
    WrittenElsewhere(nvs, writes, io.fails, Claim);
  }

  lemma UntouchedSecret(d: Device, step: Step)
    requires !Touches(step)
    ensures SameSecret(d, Apply(d, step))
  {
    hide Stored, AllOk;
    match step
    case StoreProof(challenge, assertion, io) =>
      StoredElsewhere(d.nvs, [(Challenge, Text(challenge)), (Assertion, Text(assertion))], io);
    case Answer(reply, io) =>
      if reply.Adopted? { StoredElsewhere(d.nvs, CredWrites(reply.c), io); }
    case UpdateHost(host, port, io) =>
      StoredElsewhere(d.nvs, HostWrites(host, if port == 0 then DEFAULT_PORT else port), io);
    case _ =>
  }

  // ------------------------------------------------- from the first draw to any later time

  /** No step that discards the secret on purpose. */
  predicate Ordinary(steps: seq<Step>) {
    forall i :: 0 <= i < |steps| ==>
      && !steps[i].Reboot? && !(steps[i].Answer? && steps[i].reply.Gone?)
      && (steps[i].Forget? ==> !Erases(steps[i].io))
  }

  predicate NoDraw(steps: seq<Step>) {
    forall i :: 0 <= i < |steps| ==> !steps[i].EnsureClaim?
  }

  predicate AllKeep(steps: seq<Step>) {
    forall i :: 0 <= i < |steps| && steps[i].Forget? ==> Keeps(steps[i].io)
  }

  lemma {:induction false} NothingDrawn(nvs: Storage, steps: seq<Step>)
    requires Claim !in nvs && Ordinary(steps) && NoDraw(steps)
    ensures var d := After(Boot(nvs), steps);
            d.claim == "" && !HasText(d.nvs, Claim) && !d.forgetting
  {
    if steps != [] {
      var rest, step := steps[..|steps| - 1], steps[|steps| - 1];
      NothingDrawn(nvs, rest);
      var d := After(Boot(nvs), rest);
      if !Touches(step) {
        UntouchedSecret(d, step);
      } else if step.Load? {
        ReadableSame(d.nvs, step.io);
      }
    }
  }

  /** The secret is in memory, no other is in storage, and the latch is not set. */
  predicate InUse(d: Device, secret: string) {
    d.claim == secret != "" && !d.forgetting && (HasText(d.nvs, Claim) ==> SavedClaim(d))
  }

  /** A step that discards nothing, once a secret is in use. */
  lemma OrdinaryStep(d: Device, secret: string, step: Step)
    requires InUse(d, secret) && Ordinary([step])
    ensures var e := Apply(d, step);
            InUse(e, secret) && (SavedClaim(e) <==> SavedClaim(d) && AllKeep([step]))
  {
    assert [step][0] == step;
    if !Touches(step) {
      UntouchedSecret(d, step);
    } else if step.Load? {
      ReadableSame(d.nvs, step.io);
    }
  }

  /**
   The secret that the first call draws is in storage at any later time if and only if that call
   wrote it and no failing forget has since erased it; no other call makes up for it.
   */
  lemma {:induction false} SavedSinceDraw(nvs: Storage, before: seq<Step>, secret: string, io: Io, after: seq<Step>)
    requires Claim !in nvs && secret != "" && Ordinary(before) && NoDraw(before) && Ordinary(after)
    ensures var d := After(Boot(nvs), before + [EnsureClaim(secret, io)] + after);
            && InUse(d, secret)
            && (SavedClaim(d) <==> Reaches(io) && AllKeep(after))
    decreases |after|
  {
    hide Apply, Touches, InUse, SavedClaim, AllKeep, Reaches, Ordinary, NoDraw;
    var draw := before + [EnsureClaim(secret, io)];
    if after == [] {
      assert draw + after == draw;
      AfterLast(Boot(nvs), before, EnsureClaim(secret, io));
      NothingDrawn(nvs, before);
      FirstDraw(After(Boot(nvs), before), secret, io);
      KeepNone();
    } else {
      var rest, step := after[..|after| - 1], after[|after| - 1];
      OrdinaryLast(after);
      SavedSinceDraw(nvs, before, secret, io, rest);
      assert draw + after == draw + rest + [step] && after == rest + [step];
      AfterLast(Boot(nvs), draw + rest, step);
      OrdinaryStep(After(Boot(nvs), draw + rest), secret, step);
      KeepLast(rest, step);
    }
  }

  lemma AfterLast(d: Device, steps: seq<Step>, step: Step)
    ensures After(d, steps + [step]) == Apply(After(d, steps), step)
  {
    hide Apply;
    assert (steps + [step])[..|steps|] == steps;
  }

  lemma OrdinaryLast(steps: seq<Step>)
    requires steps != [] && Ordinary(steps)
    ensures Ordinary(steps[..|steps| - 1]) && Ordinary([steps[|steps| - 1]])
  {
  }

  lemma KeepNone()
    ensures AllKeep([])
  {
  }

  lemma KeepLast(rest: seq<Step>, step: Step)
    ensures AllKeep(rest + [step]) <==> AllKeep(rest) && AllKeep([step])
  {
    var all := rest + [step];
    assert all[|rest|] == step && [step][0] == step;
    assert forall i :: 0 <= i < |rest| ==> all[i] == rest[i];
  }

  lemma FirstDraw(d: Device, secret: string, io: Io)
    requires d.claim == "" && !d.forgetting && !HasText(d.nvs, Claim) && secret != ""
    ensures var e := Apply(d, EnsureClaim(secret, io));
            InUse(e, secret) && (SavedClaim(e) <==> Reaches(io))
  {
    hide Stored;
    ClaimStored(d.nvs, secret, io);
  }

  // --------------------------------------------------------------------- every run

  datatype Memory = Nothing | Unsaved | Saved

  /** What the outcomes tell: the secret in memory, whether storage holds one, and the latch. */
  datatype Account = Account(memory: Memory, stored: bool, latched: bool)

  function Accounted(a: Account, step: Step): Account {
    match step
    case EnsureClaim(_, io) =>
      if a.latched || a.memory != Nothing then a
      else a.(memory := if Reaches(io) then Saved else Unsaved, stored := a.stored || Reaches(io))
    case Load(io) =>
      if a.latched || !Reaches(io) || !a.stored then a else a.(memory := Saved)
    case Answer(Gone, io) =>
      if a.latched then a else a.(memory := Nothing, stored := a.stored && !Reaches(io))
    case Forget(io) =>
      if Erases(io) then Account(Nothing, false, true)
      else
        var left := a.stored && Keeps(io);
        Account(if a.memory == Saved && !left then Unsaved else a.memory, left, false)
    case Reboot => Account(Nothing, a.stored, false)
    case _ => a
  }

  function AccountOf(stored: bool, steps: seq<Step>): Account {
    if steps == [] then Account(Nothing, stored, false)
    else Accounted(AccountOf(stored, steps[..|steps| - 1]), steps[|steps| - 1])
  }

  /** The secret that storage held at boot, and every secret offered since. */
  function Offered(nvs: Storage, steps: seq<Step>): set<string> {
    if steps == [] then if HasText(nvs, Claim) then {nvs[Claim].s} else {}
    else
      var step := steps[|steps| - 1];
      Offered(nvs, steps[..|steps| - 1]) + if step.EnsureClaim? then {step.secret} else {}
  }

  /** Random secrets: none is empty and none has been seen before. */
  predicate AllFresh(nvs: Storage, steps: seq<Step>) {
    if steps == [] then !Stores(nvs, "")
    else
      var rest, step := steps[..|steps| - 1], steps[|steps| - 1];
      AllFresh(nvs, rest) && (step.EnsureClaim? ==> step.secret != "" && step.secret !in Offered(nvs, rest))
  }

  /** The account is right about the device, whose secrets are all among those offered. */
  ghost predicate Agrees(d: Device, a: Account, offered: set<string>) {
    && (a.memory == Nothing <==> d.claim == "") && (a.stored <==> HasText(d.nvs, Claim))
    && (a.latched <==> d.forgetting) && (a.memory == Saved <==> d.claim != "" && SavedClaim(d))
    && (d.claim != "" ==> d.claim in offered)
    && (HasText(d.nvs, Claim) ==> d.nvs[Claim].s in offered && d.nvs[Claim].s != "")
  }

  lemma AgreesStep(d: Device, a: Account, offered: set<string>, step: Step)
    requires Agrees(d, a, offered)
    requires step.EnsureClaim? ==> step.secret != "" && step.secret !in offered
    ensures Agrees(Apply(d, step), Accounted(a, step), offered + if step.EnsureClaim? then {step.secret} else {})
  {
    hide Stored, AllOk;
    if !Touches(step) {
      UntouchedSecret(d, step);
    } else if step.Load? {
      ReadableSame(d.nvs, step.io);
    } else if step.EnsureClaim? {
      ClaimStored(d.nvs, step.secret, step.io);
    }
  }

  /**
   Over every run from boot, with whatever outcomes, forgets and reboots: the secret in memory is
   in storage exactly when the outcomes account for it.
   */
  lemma {:induction false} SecretSavedExactly(nvs: Storage, steps: seq<Step>)
    requires AllFresh(nvs, steps)
    ensures var d, a := After(Boot(nvs), steps), AccountOf(HasText(nvs, Claim), steps);
            && Agrees(d, a, Offered(nvs, steps))
            && (d.claim != "" ==> (SavedClaim(d) <==> a.memory == Saved))
  {
    hide Apply, Accounted;
    if steps != [] {
      var rest, step := steps[..|steps| - 1], steps[|steps| - 1];
      SecretSavedExactly(nvs, rest);
      AgreesStep(After(Boot(nvs), rest), AccountOf(HasText(nvs, Claim), rest), Offered(nvs, rest), step);
    }
  }
}
