/**
 The functions of the enrolment component on their static variables and the storage calls
 they make (components/pogdev/pogdev_enrol.c). Each section, call by call, is proved to
 perform one step of `EnrolProtocol`; how each storage call turns out is given by an `Io`.
 */
module Enrolment {
  import opened EnrolProtocol

  datatype Status = Ok | InvalidArg | InvalidState | NotFound | Fault

  class Enrol {
    var creds: Creds
    var haveCreds: bool
    var forgetting: bool
    var claimSecret: string
    var nvs: Storage
    /** Requests sent whose answer has not been processed. */
    ghost var waiting: nat

    ghost function Now(): Device
      reads this
    {
      Device(haveCreds, creds, forgetting, claimSecret, nvs, waiting)
    }

    /** A device that has booted with the given storage. */
    constructor (storage: Storage)
      ensures Now() == Boot(storage)
    {
      creds, haveCreds, forgetting, claimSecret, nvs, waiting := NO_CREDS, false, false, "", storage, 0;
    }

    // ---------------------------------------------------------------- storage calls

    method Open(io: Io) returns (r: Status)
      ensures r == (match io.open case Ready => Ok case Absent => NotFound case Refused => Fault)
    {
      r := match io.open case Ready => Ok case Absent => NotFound case Refused => Fault;
    }

    method SetValue(k: Key, v: Value, io: Io) returns (r: Status)
      modifies this`nvs
      ensures r == (if k in io.fails then Fault else Ok)
      ensures nvs == if r == Ok then old(nvs)[k := v] else old(nvs)
    {
      if k in io.fails {
        return Fault;
      }
      nvs := nvs[k := v];
      r := Ok;
    }

    method GetText(k: Key, io: Io) returns (r: Status, s: string)
      ensures r == Ok <==> HasText(Readable(nvs, io), k)
      ensures r == Ok ==> s == nvs[k].s
    {
      if k in io.fails {
        return Fault, "";
      }
      if k !in nvs || !nvs[k].Text? {
        return NotFound, "";
      }
      r, s := Ok, nvs[k].s;
    }

    method EraseKey(k: Key, io: Io) returns (r: Status)
      modifies this`nvs
      ensures r == (if k in io.fails then Fault else if k in old(nvs) then Ok else NotFound)
      ensures nvs == old(nvs) - ({k} - io.fails)
    {
      if k in io.fails {
        assert {k} - io.fails == {};
        return Fault;
      }
      assert {k} - io.fails == {k};
      if k !in nvs {
        assert nvs - {k} == nvs;
        return NotFound;
      }
      nvs := nvs - {k};
      r := Ok;
    }

    method EraseAll(io: Io) returns (r: Status)
      modifies this`nvs
      ensures r == (if io.wipe then Ok else Fault) && nvs == Wiped(old(nvs), io)
    {
      nvs := Wiped(nvs, io);
      r := if io.wipe then Ok else Fault;
    }

    method Commit(io: Io) returns (r: Status)
      ensures r == if io.commit then Ok else Fault
    {
      r := if io.commit then Ok else Fault;
    }

    /** Open, write in order until a call fails, and commit if none did. */
    method Persist(writes: seq<(Key, Value)>, io: Io) returns (r: Status)
      modifies this`nvs
      ensures nvs == Stored(old(nvs), writes, io)
      ensures r == Ok <==> AllOk(writes, io)
      ensures r != InvalidArg && r != InvalidState
    {
      r := Open(io);
      if r != Ok {
        return;
      }
      var i := 0;
      while i < |writes|
        invariant i <= |writes| && r == Ok && forall j :: 0 <= j < i ==> writes[j].0 !in io.fails
        invariant Written(nvs, writes[i..], io.fails) == Written(old(nvs), writes, io.fails)
      {
        r := SetValue(writes[i].0, writes[i].1, io);
        if r != Ok {
          return;
        }
        assert writes[i..][1..] == writes[i + 1..];
        i := i + 1;
      }
      r := Commit(io);
    }

    // ------------------------------------------------------------------ the sections

    /** Device id, password and host must all be read; a port that cannot be read is 1883. */
    method LoadState(io: Io) returns (enrolled: bool)
      modifies this
      ensures Now() == Apply(old(Now()), Load(io))
      ensures enrolled <==> !forgetting && io.open.Ready? && Enrolled(Readable(nvs, io))
      ensures enrolled ==> Get(Now()) && (Port !in io.fails ==> Enrolled(nvs) && creds == CredsIn(nvs))
      ensures enrolled && (Port in io.fails || Port !in nvs) ==> creds.port == 1883
    {
      if forgetting {
        return false;
      }
      var r := Open(io);
      if r != Ok {
        return false;
      }
      ReadableSame(nvs, io);
      var found, secret := GetText(Claim, io);
      if found == Ok {
        claimSecret := secret;
      }
      var id, password, host;
      r, id := GetText(DeviceId, io);
      if r == Ok {
        r, password := GetText(Password, io);
        if r == Ok {
          r, host := GetText(Host, io);
        }
      }
      enrolled := r == Ok;
      if enrolled {
        var port := if Port in nvs && nvs[Port].Number? && Port !in io.fails then nvs[Port].n else DEFAULT_PORT;
        creds := Creds(id, password, host, port);
        haveCreds := true;
      }
    }

    /**
     The secret is drawn once: a secret in memory is taken for stored without a look at storage.
     A secret drawn here is stored exactly when its write succeeds; the commit only decides what
     is returned.
     */
    method EnsureClaimSecret(random: string, io: Io) returns (r: Status)
      modifies this
      ensures Now() == Apply(old(Now()), EnsureClaim(random, io))
      ensures old(forgetting) <==> r == InvalidState
      ensures r == Ok <==>
        !old(forgetting) && (old(claimSecret) != "" || (io.open.Ready? && io.commit && Claim !in io.fails))
      ensures !old(forgetting) && old(claimSecret) == "" ==>
        (SavedClaim(Now()) <==>
           (io.open.Ready? && Claim !in io.fails) || (HasText(old(nvs), Claim) && old(nvs)[Claim].s == random))
      ensures r == Ok ==> (SavedClaim(Now()) <==> old(claimSecret) == "" || old(SavedClaim(Now())))
    {
      if forgetting {
        return InvalidState;
      }
      if claimSecret != "" {
        return Ok;
      }
      claimSecret := random;
      ClaimStored(nvs, random, io);
      r := Persist([(Claim, Text(claimSecret))], io);
    }

    /** A proof is accepted if its parts are not empty and not too long. */
    method ProvisioningStore(challenge: string, assertion: string, io: Io) returns (r: Status)
      modifies this
      ensures Now() == Apply(old(Now()), StoreProof(challenge, assertion, io))
      ensures r == InvalidArg <==> !ProofOk(challenge, assertion)
      ensures r == InvalidState <==> ProofOk(challenge, assertion) && forgetting
      ensures r == Ok <==>
        && ProofOk(challenge, assertion) && !forgetting
        && io.open.Ready? && io.commit && Challenge !in io.fails && Assertion !in io.fails
      ensures r == Ok ==> nvs == old(nvs)[Challenge := Text(challenge)][Assertion := Text(assertion)]
    {
      if challenge == "" || assertion == "" || |challenge| > PROV_CHAL_MAX || |assertion| > PROV_JWS_MAX {
        return InvalidArg;
      }
      if forgetting {
        return InvalidState;
      }
      var w := [(Challenge, Text(challenge)), (Assertion, Text(assertion))];
      assert w[0].0 == Challenge && w[1].0 == Assertion;
      r := Persist(w, io);
      if r == Ok {
        WrittenTwo(old(nvs), w[0], w[1], io.fails);
      }
    }

    /**
     Works with or without the latch. Success means that no proof is left, whether there was
     one or not; both keys are tried even if the first cannot be erased.
     */
    method ProvisioningClear(io: Io) returns (r: Status)
      requires Honest(nvs, io)
      modifies this`nvs
      ensures Now() == Apply(old(Now()), ClearProof(io))
      ensures r == Ok <==>
        io.open.Absent? || (io.open.Ready? && io.commit && Challenge !in io.fails && Assertion !in io.fails)
      ensures r == Ok ==> nvs == old(nvs) - {Challenge, Assertion}
    {
      r := Open(io);
      if r == NotFound {
        NothingLeft(nvs, {Challenge, Assertion});
        r := Ok;
      } else if r == Ok {
        ErasedBoth(nvs, io.fails);
        var e1 := EraseKey(Challenge, io);
        var e2 := EraseKey(Assertion, io);
        if e1 == NotFound {
          e1 := Ok;
        }
        if e2 == NotFound {
          e2 := Ok;
        }
        r := if e1 != Ok then e1 else e2;
        if r == Ok {
          r := Commit(io);
        }
      }
    }

    /** Memory follows storage: credentials are adopted only when all of them are stored. */
    method StoreCreds(c: Creds, io: Io) returns (r: Status)
      modifies this
      ensures Now() == DoStoreCreds(old(Now()), c, io)
      ensures r == Ok ==> Get(Now()) && creds == c && Enrolled(nvs) && CredsIn(nvs) == c
      ensures r != Ok ==> creds == old(creds) && haveCreds == old(haveCreds)
      ensures r == Ok <==> !forgetting && AllOk(CredWrites(c), io)
    {
      if forgetting {
        return InvalidState;
      }
      r := Persist(CredWrites(c), io);
      if r == Ok {
        CredsRoundTrip(old(nvs), c, io);
        creds := c;
        haveCreds := true;
      }
    }

    /** collect, first half: the request leaves with the current secret. */
    method BeginCollect()
      modifies this`waiting
      ensures Now() == Apply(old(Now()), Request)
    {
      waiting := waiting + 1;
    }

    /** collect, second half: the answer has arrived, whatever has happened meanwhile. */
    method EndCollect(reply: Reply, io: Io) returns (adopted: bool)
      requires waiting > 0
      modifies this
      ensures Now() == Apply(old(Now()), Answer(reply, io))
      ensures adopted <==> reply.Adopted? && !forgetting && AllOk(CredWrites(reply.c), io)
      ensures adopted ==> Get(Now()) && creds == reply.c && Enrolled(nvs) && CredsIn(nvs) == reply.c
      ensures forgetting ==> Now() == old(Now()).(waiting := waiting)
    {
      waiting := waiting - 1;
      match reply
      case Gone =>
        if !forgetting {
          claimSecret := "";
        }
        if !forgetting {
          var r := Open(io);
          if r == Ok {
            // Whether the key was there, and whether the commit succeeds, is not looked at.
            r := EraseKey(Claim, io);
          }
        }
        adopted := false;
      case Other =>
        adopted := false;
      case Adopted(c) =>
        var r := StoreCreds(c, io);
        adopted := r == Ok;
    }

    /** A known host is not written again; a change reaches memory only once it is stored. */
    method UpdateServerHost(host: string, port: nat, io: Io) returns (changed: bool)
      modifies this
      ensures Now() == Apply(old(Now()), UpdateHost(host, port, io))
      ensures var p := if port == 0 then DEFAULT_PORT else port;
              && (changed <==>
                    && old(Get(Now())) && (old(creds).host != host || old(creds).port != p)
                    && io.open.Ready? && io.commit && Host !in io.fails && Port !in io.fails)
              && creds == if changed then old(creds).(host := host, port := p) else old(creds)
      ensures old(InSync(Now())) && changed ==> InSync(Now())
    {
      hide Stored, AllOk, InSync;
      var p := if port == 0 then DEFAULT_PORT else port;
      if !haveCreds || forgetting || (creds.host == host && creds.port == p) {
        return false;
      }
      HostStored(nvs, host, p, io);
      HostStored(nvs, host, DEFAULT_PORT, io);
      if InSync(Now()) && AllOk(HostWrites(host, p), io) { HostInSync(Now(), host, port, io); }
      var r := Persist(HostWrites(host, p), io);
      if r == Ok {
        creds := creds.(host := host, port := p);
      }
      changed := r == Ok;
    }

    method EnrolGet() returns (have: bool, out: Creds)
      ensures have == Get(Now()) && (have ==> out == creds)
    {
      have := haveCreds && !forgetting;
      out := if have then creds else NO_CREDS;
    }

    /** The latch goes up first; if anything cannot be erased it comes down again. */
    method ForgetAll(io: Io) returns (r: Status)
      requires Honest(nvs, io)
      modifies this
      ensures Now() == Apply(old(Now()), Forget(io))
      ensures r == Ok <==> Forgotten(Now())
      ensures r != Ok ==> !forgetting && creds == old(creds) && haveCreds == old(haveCreds)
    {
      forgetting := true;
      r := Open(io);
      if r == NotFound {
        r := Ok;
      } else if r == Ok {
        r := EraseAll(io);
        if r == Ok {
          r := Commit(io);
        }
      }
      if r == Ok {
        creds := NO_CREDS;
        haveCreds := false;
        claimSecret := "";
      } else {
        forgetting := false;
      }
    }

    /** Power is cycled: only storage survives. */
    method Restart()
      modifies this
      ensures Now() == Apply(old(Now()), Reboot)
    {
      creds, haveCreds, forgetting, claimSecret, waiting := NO_CREDS, false, false, "", 0;
    }
  }

  lemma ErasedBoth(nvs: Storage, fails: set<Key>)
    ensures nvs - ({Challenge} - fails) - ({Assertion} - fails) == nvs - ({Challenge, Assertion} - fails)
    ensures Challenge !in fails && Assertion !in fails ==> {Challenge, Assertion} - fails == {Challenge, Assertion}
  {
  }

  // ------------------------------------------------------------------ whole runs

  /** One call of the component. */
  method Perform(e: Enrol, step: Step)
    requires Enabled(e.Now(), step)
    modifies e
    ensures e.Now() == Apply(old(e.Now()), step)
  {
    match step
    case Load(io) => var _ := e.LoadState(io);
    case EnsureClaim(secret, io) => var _ := e.EnsureClaimSecret(secret, io);
    case StoreProof(challenge, assertion, io) => var _ := e.ProvisioningStore(challenge, assertion, io);
    case ClearProof(io) => var _ := e.ProvisioningClear(io);
    case Request => e.BeginCollect();
    case Answer(reply, io) => var _ := e.EndCollect(reply, io);
    case UpdateHost(host, port, io) => var _ := e.UpdateServerHost(host, port, io);
    case Forget(io) => var _ := e.ForgetAll(io);
    case Reboot => e.Restart();
  }

  /**
   Any sequence of calls on a device that has been forgotten: until it is rebooted it hands out
   no credentials and its storage is empty, exactly as long as its latest forget succeeded.
   */
  method RunForgotten(e: Enrol, steps: seq<Step>) returns (have: bool)
    requires Forgotten(e.Now()) && CanRun(e.Now(), steps) && NoReboot(steps)
    modifies e
    ensures e.Now() == After(old(e.Now()), steps)
    ensures Forgotten(e.Now()) <==> LatestForgetHolds(steps)
    ensures Sealed(e.Now()) <==> LatestForgetHolds(steps)
    ensures LatestForgetHolds(steps) ==> !have && e.nvs == map[]
  {
    hide Apply, Enabled, Forgotten, LatestForgetHolds;
    ghost var start := e.Now();
    for i := 0 to |steps|
      invariant e.Now() == After(start, steps[..i])
    {
      CanRunPrefix(start, steps, i + 1);
      assert steps[..i + 1][..i] == steps[..i];
      Perform(e, steps[i]);
    }
    assert steps[..|steps|] == steps;
    ForgottenExactly(start, steps);
    SealedExactly(start, steps);
    var out;
    have, out := e.EnrolGet();
    if LatestForgetHolds(steps) { ForgottenIsClean(e.Now()); }
  }

  lemma ForgottenIsClean(d: Device)
    requires Forgotten(d)
    ensures !Get(d) && d.nvs == map[]
  {
  }

  lemma CanRunPrefix(d: Device, steps: seq<Step>, i: nat)
    requires CanRun(d, steps) && i <= |steps|
    ensures CanRun(d, steps[..i])
  {
    RunOn(d, steps[..i], steps[i..]);
    assert steps == steps[..i] + steps[i..];
  }
}
