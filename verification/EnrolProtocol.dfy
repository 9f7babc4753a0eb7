/**
 Enrolment and forgetting (components/pogdev/pogdev_enrol.c): credentials in memory and in
 non-volatile storage, a latch that forgetting sets, and a credential request that may be
 waiting on the network while the enrolment is erased. Each mutex section is one step.
 */
module EnrolProtocol {
  datatype Key = Claim | DeviceId | Password | Host | Port | Challenge | Assertion

  datatype Value = Text(s: string) | Number(n: nat)

  type Storage = map<Key, Value>

  datatype Creds = Creds(deviceId: string, password: string, host: string, port: nat)

  const NO_CREDS := Creds("", "", "", 0)
  const DEFAULT_PORT := 1883
  const PROV_CHAL_MAX := 64
  const PROV_JWS_MAX := 3072

  /** Memory, storage and the requests that are waiting for the server's answer. */
  datatype Device = Device(
    have: bool, creds: Creds, forgetting: bool, claim: string, nvs: Storage, waiting: nat)

  datatype Reply = Gone | Other | Adopted(c: Creds)

  /** How the storage namespace opens: ready, never created, or with an error. */
  datatype Opening = Ready | Absent | Refused

  /**
   How storage behaves during one section: how it opens, the keys whose reading, writing or
   erasing fails, whether a commit and the erasure of everything succeed, and what a failing
   erasure leaves behind. No section touches a key twice.
   */
  datatype Io = Io(open: Opening, fails: set<Key>, commit: bool, wipe: bool, left: set<Key>)

  const FINE := Io(Ready, {}, true, true, {})

  datatype Step =
    | Load(io: Io)
    | EnsureClaim(secret: string, io: Io)
    | StoreProof(challenge: string, assertion: string, io: Io)
    | ClearProof(io: Io)
    | Request
    | Answer(reply: Reply, io: Io)
    | UpdateHost(host: string, port: nat, io: Io)
    | Forget(io: Io)
    | Reboot

  // --------------------------------------------------------------------- storage

  /** What writing in order leaves: everything before the first write that fails. */
  function Written(nvs: Storage, writes: seq<(Key, Value)>, fails: set<Key>): Storage
    decreases |writes|
  {
    if writes == [] || writes[0].0 in fails then nvs
    else Written(nvs[writes[0].0 := writes[0].1], writes[1..], fails)
  }

  /** Open, write each value, commit: what is in storage afterwards. */
  function Stored(nvs: Storage, writes: seq<(Key, Value)>, io: Io): Storage {
    if io.open.Ready? then Written(nvs, writes, io.fails) else nvs
  }

  predicate AllOk(writes: seq<(Key, Value)>, io: Io) {
    io.open.Ready? && io.commit && forall i :: 0 <= i < |writes| ==> writes[i].0 !in io.fails
  }

  function CredWrites(c: Creds): seq<(Key, Value)> {
    [(DeviceId, Text(c.deviceId)), (Password, Text(c.password)), (Host, Text(c.host)), (Port, Number(c.port))]
  }

  function HostWrites(host: string, port: nat): seq<(Key, Value)> {
    [(Host, Text(host)), (Port, Number(port))]
  }

  function PortOf(nvs: Storage): nat {
    if Port in nvs && nvs[Port].Number? then nvs[Port].n else DEFAULT_PORT
  }

  predicate HasText(nvs: Storage, k: Key) {
    k in nvs && nvs[k].Text?
  }

  predicate Enrolled(nvs: Storage) {
    HasText(nvs, DeviceId) && HasText(nvs, Password) && HasText(nvs, Host)
  }

  function CredsIn(nvs: Storage): Creds
    requires Enrolled(nvs)
  {
    Creds(nvs[DeviceId].s, nvs[Password].s, nvs[Host].s, PortOf(nvs))
  }

  // ------------------------------------------------------------------- the sections

  /** What a section is able to read. */
  function Readable(nvs: Storage, io: Io): Storage {
    nvs - io.fails
  }

  function DoLoad(d: Device, io: Io): Device {
    var seen := Readable(d.nvs, io);
    if d.forgetting || !io.open.Ready? then d
    else
      var e := if HasText(seen, Claim) then d.(claim := seen[Claim].s) else d;
      if Enrolled(seen) then e.(creds := CredsIn(seen), have := true) else e
  }

  function DoEnsureClaim(d: Device, secret: string, io: Io): Device {
    if d.forgetting || d.claim != "" then d
    else d.(claim := secret, nvs := Stored(d.nvs, [(Claim, Text(secret))], io))
  }

  predicate ProofOk(challenge: string, assertion: string) {
    challenge != "" && assertion != "" && |challenge| <= PROV_CHAL_MAX && |assertion| <= PROV_JWS_MAX
  }

  function DoStoreProof(d: Device, challenge: string, assertion: string, io: Io): Device {
    if d.forgetting || !ProofOk(challenge, assertion) then d
    else d.(nvs := Stored(d.nvs, [(Challenge, Text(challenge)), (Assertion, Text(assertion))], io))
  }

  /** Erasing the proof needs no latch: it only removes keys. */
  function DoClearProof(d: Device, io: Io): Device {
    if io.open.Ready? then d.(nvs := d.nvs - ({Challenge, Assertion} - io.fails)) else d
  }

  function DoStoreCreds(d: Device, c: Creds, io: Io): Device {
    if d.forgetting then d
    else
      var e := d.(nvs := Stored(d.nvs, CredWrites(c), io));
      if AllOk(CredWrites(c), io) then e.(creds := c, have := true) else e
  }

  function DoGone(d: Device, io: Io): Device {
    if d.forgetting then d
    else d.(claim := "", nvs := if io.open.Ready? then d.nvs - ({Claim} - io.fails) else d.nvs)
  }

  function DoAnswer(d: Device, reply: Reply, io: Io): Device {
    var e := d.(waiting := if d.waiting > 0 then d.waiting - 1 else 0);
    match reply
    case Gone => DoGone(e, io)
    case Other => e
    case Adopted(c) => DoStoreCreds(e, c, io)
  }

  function DoUpdateHost(d: Device, host: string, port: nat, io: Io): Device {
    var p := if port == 0 then DEFAULT_PORT else port;
    if !d.have || d.forgetting || (d.creds.host == host && d.creds.port == p) then d
    else
      var e := d.(nvs := Stored(d.nvs, HostWrites(host, p), io));
      if AllOk(HostWrites(host, p), io) then e.(creds := e.creds.(host := host, port := p)) else e
  }

  /** Storage after the erasure of everything. */
  function Wiped(nvs: Storage, io: Io): Storage {
    if io.wipe then map[] else map k | k in nvs && k in io.left :: nvs[k]
  }

  /** A namespace that never existed counts as erased. */
  predicate Erases(io: Io) {
    io.open.Absent? || (io.open.Ready? && io.wipe && io.commit)
  }

  /** Forgetting latches first; only success keeps the latch. */
  function DoForget(d: Device, io: Io): Device {
    if Erases(io) then Device(false, NO_CREDS, true, "", map[], d.waiting)
    else d.(forgetting := false, nvs := if io.open.Ready? then Wiped(d.nvs, io) else d.nvs)
  }

  /** An absent namespace holds nothing. */
  predicate Honest(nvs: Storage, io: Io) {
    io.open.Absent? ==> nvs == map[]
  }

  predicate Enabled(d: Device, step: Step) {
    && (step.Answer? ==> d.waiting > 0)
    && (!step.Request? && !step.Reboot? ==> Honest(d.nvs, step.io))
  }

  function Boot(nvs: Storage): Device {
    Device(false, NO_CREDS, false, "", nvs, 0)
  }

  function Apply(d: Device, step: Step): Device {
    match step
    case Load(io) => DoLoad(d, io)
    case EnsureClaim(secret, io) => DoEnsureClaim(d, secret, io)
    case StoreProof(challenge, assertion, io) => DoStoreProof(d, challenge, assertion, io)
    case ClearProof(io) => DoClearProof(d, io)
    case Request => d.(waiting := d.waiting + 1)
    case Answer(reply, io) => DoAnswer(d, reply, io)
    case UpdateHost(host, port, io) => DoUpdateHost(d, host, port, io)
    case Forget(io) => DoForget(d, io)
    case Reboot => Boot(d.nvs)
  }

  /** pogdev_enrol_get. */
  predicate Get(d: Device) {
    d.have && !d.forgetting
  }

  // ------------------------------------------------------------------------- runs

  predicate CanRun(d: Device, steps: seq<Step>) {
    steps == []
    || (CanRun(d, steps[..|steps| - 1]) && Enabled(After(d, steps[..|steps| - 1]), steps[|steps| - 1]))
  }

  function After(d: Device, steps: seq<Step>): Device {
    if steps == [] then d else Apply(After(d, steps[..|steps| - 1]), steps[|steps| - 1])
  }

  /** Two runs, one after the other. */
  lemma {:induction false} RunOn(d: Device, steps: seq<Step>, more: seq<Step>)
    ensures After(d, steps + more) == After(After(d, steps), more)
    ensures CanRun(d, steps + more) <==> CanRun(d, steps) && CanRun(After(d, steps), more)
  {
    if more == [] {
      assert steps + more == steps;
    } else {
      RunOn(d, steps, more[..|more| - 1]);
      assert (steps + more)[..|steps + more| - 1] == steps + more[..|more| - 1];
    }
  }

  lemma RunOne(d: Device, step: Step)
    ensures After(d, [step]) == Apply(d, step)
    ensures CanRun(d, [step]) <==> Enabled(d, step)
  {
    assert [step][..0] == [];
    assert After(d, []) == d && CanRun(d, []);
  }

  lemma RunTwo(d: Device, a: Step, b: Step)
    ensures After(d, [a, b]) == Apply(Apply(d, a), b)
    ensures CanRun(d, [a, b]) <==> Enabled(d, a) && Enabled(Apply(d, a), b)
  {
    RunOne(d, a);
    assert [a, b][..1] == [a];
  }

  predicate NoReboot(steps: seq<Step>) {
    forall i :: 0 <= i < |steps| ==> !steps[i].Reboot?
  }

  // --------------------------------------------------------------------- the latch

  /** Nothing in storage or memory, and the latch set. */
  predicate Forgotten(d: Device) {
    d.forgetting && !d.have && d.creds == NO_CREDS && d.claim == "" && d.nvs == map[]
  }

  lemma NothingLeft(nvs: Storage, keys: set<Key>)
    requires nvs == map[]
    ensures nvs - keys == map[]
  {
    assert (nvs - keys).Keys == {};
  }

  /** No step but a reboot or a failing forget touches a forgotten device. */
  lemma StepStaysForgotten(d: Device, step: Step)
    requires Forgotten(d) && !step.Reboot? && (step.Forget? ==> Erases(step.io))
    ensures Forgotten(Apply(d, step))
  {
    if step.ClearProof? { NothingLeft(d.nvs, {Challenge, Assertion} - step.io.fails); }
  }

  /** Whether the latest forget of a run, if any, succeeded. */
  predicate LatestForgetHolds(steps: seq<Step>) {
    steps == []
    || (if steps[|steps| - 1].Forget? then Erases(steps[|steps| - 1].io)
        else LatestForgetHolds(steps[..|steps| - 1]))
  }

  /**
   After a successful forget, in every interleaving with requests already waiting, host
   updates, provisioning and further forgets, and until a reboot, the device is forgotten
   exactly when the latest forget of the run succeeded.
   */
  lemma {:induction false} ForgottenExactly(d: Device, steps: seq<Step>)
    requires Forgotten(d) && NoReboot(steps)
    ensures Forgotten(After(d, steps)) <==> LatestForgetHolds(steps)
    ensures After(d, steps).forgetting <==> LatestForgetHolds(steps)
  {
    if steps != [] {
      var rest, step := steps[..|steps| - 1], steps[|steps| - 1];
      ForgottenExactly(d, rest);
      if LatestForgetHolds(rest) && (step.Forget? ==> Erases(step.io)) {
        StepStaysForgotten(After(d, rest), step);
      }
    }
  }

  /** What a user may observe of a forgotten device: an empty storage, and no credentials. */
  predicate Clean(d: Device) {
    d.nvs == map[] && !Get(d)
  }

  predicate Quiet(steps: seq<Step>) {
    forall i :: 0 <= i < |steps| ==> !steps[i].Reboot? && !steps[i].Forget?
  }

  /** Whatever the network, the user and the tasks do next, nothing comes back. */
  ghost predicate Sealed(d: Device) {
    forall more: seq<Step> :: CanRun(d, more) && Quiet(more) ==> Clean(After(d, more))
  }

  /** The promise of forgetting is kept exactly as long as the latest forget succeeded. */
  lemma SealedExactly(d: Device, steps: seq<Step>)
    requires Forgotten(d) && NoReboot(steps)
    ensures Sealed(After(d, steps)) <==> LatestForgetHolds(steps)
  {
    var e := After(d, steps);
    ForgottenExactly(d, steps);
    if LatestForgetHolds(steps) {
      forall more: seq<Step> | CanRun(e, more) && Quiet(more) ensures Clean(After(e, more)) {
        QuietHolds(more);
        ForgottenExactly(e, more);
      }
    } else {
      var more := [Request, Answer(Adopted(NO_CREDS), FINE)];
      RunTwo(e, more[0], more[1]);
      LatchNeeded(Apply(e, Request), NO_CREDS);
      assert CanRun(e, more) && Quiet(more) && !Clean(After(e, more));
    }
  }

  lemma {:induction false} QuietHolds(steps: seq<Step>)
    requires Quiet(steps)
    ensures LatestForgetHolds(steps)
  {
    if steps != [] { QuietHolds(steps[..|steps| - 1]); }
  }

  /** Without the latch, a waiting answer is all it takes: the latch is what the promise rests on. */
  lemma LatchNeeded(d: Device, c: Creds)
    requires d.waiting > 0
    ensures Get(Apply(d, Answer(Adopted(c), FINE))) <==> !d.forgetting
    ensures !d.forgetting ==>
      Enrolled(Apply(d, Answer(Adopted(c), FINE)).nvs) && Apply(d, Answer(Adopted(c), FINE)).creds == c
  {
    CredsRoundTrip(d.nvs, c, FINE);
  }

  /** The failing forget: storage opens, and erasing it fails. */
  const BROKEN := Io(Ready, {}, true, false, {})

  /**
   The exception, from boot on: while an answer is awaited a first forget succeeds and a second
   one fails. The answer to the request made before either of them then stores credentials.
   */
  lemma FailedForgetReopens(nvs: Storage, secret: string, c: Creds)
    ensures var before := [EnsureClaim(secret, FINE), Request, Forget(FINE)];
            var after := [Forget(BROKEN), Answer(Adopted(c), FINE)];
            && CanRun(Boot(nvs), before + after)
            && Forgotten(After(Boot(nvs), before))
            && Get(After(Boot(nvs), before + after)) && After(Boot(nvs), before + after).creds == c
            && Enrolled(After(Boot(nvs), before + after).nvs)
  {
    var d := Boot(nvs);
    var before := [EnsureClaim(secret, FINE), Request, Forget(FINE)];
    var after := [Forget(BROKEN), Answer(Adopted(c), FINE)];
    RunTwo(d, before[0], before[1]);
    assert before[..2] == [before[0], before[1]];
    var e := After(d, before);
    assert Forgotten(e) && e.waiting == 1;
    RunTwo(e, after[0], after[1]);
    RunOn(d, before, after);
    LatchNeeded(Apply(e, after[0]), c);
  }

  // ------------------------------------------------------- memory and storage agree

  /** Storage after writes that all succeed. */
  lemma WrittenTwo(nvs: Storage, a: (Key, Value), b: (Key, Value), fails: set<Key>)
    requires a.0 !in fails && b.0 !in fails
    ensures Written(nvs, [a, b], fails) == nvs[a.0 := a.1][b.0 := b.1]
  {
    assert [a, b][1..] == [b] && [b][1..] == [];
    assert Written(nvs[a.0 := a.1], [b], fails) == Written(nvs[a.0 := a.1][b.0 := b.1], [], fails);
  }

  lemma CredsRoundTrip(nvs: Storage, c: Creds, io: Io)
    requires AllOk(CredWrites(c), io)
    ensures var stored := Stored(nvs, CredWrites(c), io);
            && Enrolled(stored) && CredsIn(stored) == c
            && stored[DeviceId] == Text(c.deviceId) && stored[Password] == Text(c.password)
            && stored[Host] == Text(c.host) && Port in stored && stored[Port] == Number(c.port)
            && (Claim in stored <==> Claim in nvs) && (Claim in nvs ==> stored[Claim] == nvs[Claim])
  {
    var w := CredWrites(c);
    assert w[0].0 !in io.fails && w[1].0 !in io.fails && w[2].0 !in io.fails && w[3].0 !in io.fails;
    assert w[1..][1..] == [w[2], w[3]];
    var n := nvs[DeviceId := Text(c.deviceId)][Password := Text(c.password)];
    assert Written(nvs, w, io.fails) == Written(nvs[DeviceId := Text(c.deviceId)], w[1..], io.fails);
    WrittenTwo(n, w[2], w[3], io.fails);
  }

  predicate SavedClaim(d: Device) {
    HasText(d.nvs, Claim) && d.nvs[Claim].s == d.claim
  }

  /** What is in memory is what a reboot would bring back. */
  predicate InSync(d: Device) {
    && (d.have ==> Enrolled(d.nvs) && CredsIn(d.nvs) == d.creds)
    && (d.claim != "" ==> SavedClaim(d))
  }

  /** The section's writes take place all together or not at all. */
  predicate Untorn(step: Step) {
    match step
    case Load(io) => Port !in io.fails
    case EnsureClaim(secret, io) => AllOk([(Claim, Text(secret))], io)
    case Answer(Adopted(c), io) => !io.open.Ready? || AllOk(CredWrites(c), io)
    case UpdateHost(host, _, io) => !io.open.Ready? || AllOk(HostWrites(host, DEFAULT_PORT), io)
    case Forget(io) => !io.open.Ready? || Erases(io)
    case _ => true
  }

  lemma ReadableSame(nvs: Storage, io: Io)
    ensures forall k :: k in Readable(nvs, io) <==> k in nvs && k !in io.fails
    ensures forall k :: k in Readable(nvs, io) ==> Readable(nvs, io)[k] == nvs[k]
  {
  }

  lemma ClaimStored(nvs: Storage, secret: string, io: Io)
    ensures var w := [(Claim, Text(secret))];
            && (AllOk(w, io) <==> io.open.Ready? && io.commit && Claim !in io.fails)
            && Stored(nvs, w, io) == if io.open.Ready? && Claim !in io.fails then nvs[Claim := Text(secret)] else nvs
  {
    var w := [(Claim, Text(secret))];
    assert w[0].0 == Claim && w[1..] == [];
    assert Written(nvs[Claim := Text(secret)], [], io.fails) == nvs[Claim := Text(secret)];
  }

  lemma HostStored(nvs: Storage, host: string, port: nat, io: Io)
    ensures var w := HostWrites(host, port);
            && (AllOk(w, io) <==> io.open.Ready? && io.commit && Host !in io.fails && Port !in io.fails)
            && Stored(nvs, w, io) ==
               if !io.open.Ready? || Host in io.fails then nvs
               else if Port in io.fails then nvs[Host := Text(host)]
               else nvs[Host := Text(host)][Port := Number(port)]
  {
    var w := HostWrites(host, port);
    assert w[0].0 == Host && w[1].0 == Port && w[1..] == [w[1]] && [w[1]][1..] == [];
    if Host !in io.fails && Port !in io.fails {
      WrittenTwo(nvs, w[0], w[1], io.fails);
    } else {
      assert Written(nvs[Host := Text(host)], w[1..], io.fails) == nvs[Host := Text(host)] || Port !in io.fails;
    }
  }

  lemma ProofStored(d: Device, challenge: string, assertion: string, io: Io)
    requires InSync(d)
    ensures InSync(Apply(d, StoreProof(challenge, assertion, io)))
  {
    var w := [(Challenge, Text(challenge)), (Assertion, Text(assertion))];
    WrittenElsewhere(d.nvs, w, io.fails, DeviceId);
    WrittenElsewhere(d.nvs, w, io.fails, Password);
    WrittenElsewhere(d.nvs, w, io.fails, Host);
    WrittenElsewhere(d.nvs, w, io.fails, Port);
    WrittenElsewhere(d.nvs, w, io.fails, Claim);
  }

  lemma LoadInSync(d: Device, io: Io)
    requires InSync(d) && Untorn(Load(io))
    ensures InSync(Apply(d, Load(io)))
  {
    ReadableSame(d.nvs, io);
  }

  lemma ClaimInSync(d: Device, secret: string, io: Io)
    requires InSync(d) && Untorn(EnsureClaim(secret, io))
    ensures InSync(Apply(d, EnsureClaim(secret, io)))
  {
    hide Stored, AllOk;
    ClaimStored(d.nvs, secret, io);
  }

  lemma HostInSync(d: Device, host: string, port: nat, io: Io)
    requires InSync(d) && Untorn(UpdateHost(host, port, io))
    ensures InSync(Apply(d, UpdateHost(host, port, io)))
  {
    hide Stored, AllOk;
    HostStored(d.nvs, host, DEFAULT_PORT, io);
    HostStored(d.nvs, host, port, io);
  }

  lemma StepInSync(d: Device, step: Step)
    requires InSync(d) && Untorn(step)
    ensures InSync(Apply(d, step))
  {
    hide Stored, AllOk, DoLoad, DoEnsureClaim, DoStoreProof, DoAnswer, DoUpdateHost;
    match step
    case Load(io) => LoadInSync(d, io);
    case EnsureClaim(secret, io) => ClaimInSync(d, secret, io);
    case StoreProof(challenge, assertion, io) => ProofStored(d, challenge, assertion, io);
    case Answer(reply, io) => AnswerInSync(d, reply, io);
    case UpdateHost(host, port, io) => HostInSync(d, host, port, io);
    case _ =>
  }

  lemma AnswerInSync(d: Device, reply: Reply, io: Io)
    requires InSync(d) && Untorn(Answer(reply, io))
    ensures InSync(Apply(d, Answer(reply, io)))
  {
    hide Written;
    if reply.Adopted? && AllOk(CredWrites(reply.c), io) { CredsRoundTrip(d.nvs, reply.c, io); }
  }

  /** Keys that are not written keep their value. */
  lemma {:induction false} WrittenElsewhere(nvs: Storage, writes: seq<(Key, Value)>, fails: set<Key>, k: Key)
    requires forall i :: 0 <= i < |writes| ==> writes[i].0 != k
    ensures var after := Written(nvs, writes, fails);
            (k in after <==> k in nvs) && (k in nvs ==> after[k] == nvs[k])
    decreases |writes|
  {
    if writes != [] && writes[0].0 !in fails {
      WrittenElsewhere(nvs[writes[0].0 := writes[0].1], writes[1..], fails, k);
    }
  }

  /**
   Over every run in which no section stops halfway, memory and storage agree: credentials and
   secret in memory are exactly those that come back after a reboot.
   */
  lemma {:induction false} MemoryMatchesStorage(nvs: Storage, steps: seq<Step>)
    requires forall i :: 0 <= i < |steps| ==> Untorn(steps[i])
    ensures InSync(After(Boot(nvs), steps))
  {
    hide InSync, Untorn, Apply;
    if steps != [] {
      MemoryMatchesStorage(nvs, steps[..|steps| - 1]);
      StepInSync(After(Boot(nvs), steps[..|steps| - 1]), steps[|steps| - 1]);
    } else {
      BootInSync(nvs);
    }
  }

  lemma BootInSync(nvs: Storage)
    ensures InSync(Boot(nvs))
  {
  }

  /** From such a state a reboot and a load bring back what was there. */
  lemma RebootRestores(d: Device)
    requires InSync(d)
    ensures var e := Apply(Apply(d, Reboot), Load(FINE));
            && (d.have ==> Get(e) && e.creds == d.creds)
            && (d.claim != "" ==> e.claim == d.claim)
  {
    ReadableSame(d.nvs, FINE);
  }

  /** Exactly when a host update leaves memory and storage in agreement. */
  lemma HostUpdateExact(d: Device, host: string, port: nat, io: Io)
    requires InSync(d)
    ensures InSync(Apply(d, UpdateHost(host, port, io))) <==>
      || !d.have || d.forgetting || !io.open.Ready? || Host in io.fails
      || (d.creds.host == host && d.creds.port == if port == 0 then DEFAULT_PORT else port)
      || if Port in io.fails then host == d.creds.host else io.commit
  {
    hide Stored, AllOk;
    HostStored(d.nvs, host, if port == 0 then DEFAULT_PORT else port, io);
  }

  /** The failing case at work: after a reboot the device has the new host with the old port. */
  lemma TornUpdate(d: Device, host: string, port: nat)
    requires InSync(d) && d.have && !d.forgetting && host != d.creds.host
    ensures var e := Apply(Apply(Apply(d, UpdateHost(host, port, FINE.(fails := {Port}))), Reboot), Load(FINE));
            Get(e) && e.creds == d.creds.(host := host)
  {
    hide Stored, AllOk;
    var p, io := if port == 0 then DEFAULT_PORT else port, FINE.(fails := {Port});
    HostStored(d.nvs, host, p, io);
    ReadableSame(d.nvs[Host := Text(host)], FINE);
  }

  /** A secret that could not be written is in use from the next call on, and a reboot loses it. */
  lemma UnsavedSecret(nvs: Storage, secret: string, other: string)
    requires secret != "" && Claim !in nvs
    ensures var steps := [EnsureClaim(secret, FINE.(fails := {Claim})), EnsureClaim(other, FINE)];
            var d := After(Boot(nvs), steps);
            && CanRun(Boot(nvs), steps) && d.claim == secret && d.nvs == nvs && !SavedClaim(d)
            && Apply(Apply(d, Reboot), Load(FINE)).claim == ""
  {
    RunTwo(Boot(nvs), EnsureClaim(secret, FINE.(fails := {Claim})), EnsureClaim(other, FINE));
    ClaimStored(nvs, secret, FINE.(fails := {Claim}));
    ReadableSame(nvs, FINE);
  }
}
