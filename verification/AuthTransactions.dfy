/**
 Transactions on the credential store. One process at a time holds the lock; it first finishes an
 interrupted logout, then compares the epoch it expects, bumps the epoch, and only then runs its
 operation. A process may fail or die at every step, in the middle of a slot write included.
 */
module AuthTransactions {
  import opened Bytes
  import opened EpochSlots
  import opened EpochFile
  import opened EpochPlacement

  type Pid = nat
  type Profile = string
  type Credentials = string

  /** An epoch as callers keep it: the value and the device part of the lock's identity. */
  datatype AuthEpoch = AuthEpoch(value: u64, device: nat)

  datatype Intent = Intent(device: nat, profile: Profile)

  datatype Operation =
    | Mutate                           // any change of credentials and legacy files
    | Logout(selection: Option<Profile>)

  datatype Phase =
    | Entered
    | Loading(cleaned: bool)
    | RecoverLegacy(profile: Profile)
    | RecoverProfile(profile: Profile)
    | RecoverIntent(profile: Profile)
    | RecoveryBump
    | Checking
    | Bumping
    | Operating
    | LogoutLegacy(profile: Profile)
    | LogoutProfile(profile: Profile)
    | LogoutClear(profile: Profile)

  datatype Holder = Holder(pid: Pid, expected: Option<AuthEpoch>, operation: Operation, phase: Phase)

  /** `bumps` is history: who advanced the epoch, in order. */
  datatype State = State(
    lock: File,
    device: nat,
    profiles: map<Profile, Credentials>,
    defaultProfile: Profile,
    legacy: set<nat>,
    intent: Option<Intent>,
    holder: Option<Holder>,
    bumps: seq<Pid>)

  datatype Action =
    | Begin(pid: Pid, expected: Option<AuthEpoch>, operation: Operation)
    | Reconcile(cleaned: bool)
    | Load
    | RemoveLegacy(file: nat)
    | LegacyDone
    | RemoveProfile
    | RemoveIntent
    | Bump(cut: Cut)
    | Check
    | Write(profiles: map<Profile, Credentials>, legacy: set<nat>)
    | PersistIntent
    | Leave                            // success, failure or death of the holder
    | SwitchDefault(profile: Profile)
    | Remount(device: nat)

  function At(s: State, phase: Phase): State
    requires s.holder.Some?
  {
    s.(holder := Some(s.holder.value.(phase := phase)))
  }

  predicate InPhase(s: State, phase: Phase) { s.holder.Some? && s.holder.value.phase == phase }

  function PhaseOf(s: State): Phase
    requires s.holder.Some?
  {
    s.holder.value.phase
  }

  predicate Enabled(s: State, a: Action) {
    match a
    case Begin(_, _, _) => s.holder.None?
    case Reconcile(_) => InPhase(s, Entered)
    case Load => s.holder.Some? && PhaseOf(s).Loading?
    case RemoveLegacy(file) =>
      s.holder.Some? && (PhaseOf(s).RecoverLegacy? || PhaseOf(s).LogoutLegacy?) && file in s.legacy
    case LegacyDone =>
      s.holder.Some? && (PhaseOf(s).RecoverLegacy? || PhaseOf(s).LogoutLegacy?) && s.legacy == {}
    case RemoveProfile => s.holder.Some? && (PhaseOf(s).RecoverProfile? || PhaseOf(s).LogoutProfile?)
    case RemoveIntent => s.holder.Some? && (PhaseOf(s).RecoverIntent? || PhaseOf(s).LogoutClear?)
    case Bump(_) => InPhase(s, RecoveryBump) || InPhase(s, Bumping)
    case Check => InPhase(s, Checking)
    case Write(_, _) => InPhase(s, Operating) && s.holder.value.operation.Mutate?
    case PersistIntent => InPhase(s, Operating) && s.holder.value.operation.Logout? && s.intent.None?
    case Leave => s.holder.Some?
    case SwitchDefault(_) => true
    case Remount(_) => s.holder.None?
  }

  /** The slot write of a bump: torn, the process dies; complete, it goes on; refused, it fails. */
  function BumpStep(s: State, cut: Cut): State
    requires s.holder.Some?
  {
    var holder := s.holder.value;
    var lock := BumpAttempt(s.lock, cut);
    var landed := ReadEpoch(lock) != ReadEpoch(s.lock);
    var bumps := if landed then s.bumps + [holder.pid] else s.bumps;
    if cut < SLOT_SIZE || !landed then s.(lock := lock, bumps := bumps, holder := None)
    else if holder.phase == RecoveryBump then At(s, Checking).(lock := lock, bumps := bumps)
    else At(s, Operating).(lock := lock, bumps := bumps)
  }

  predicate ExpectationMet(s: State)
    requires s.holder.Some?
  {
    match s.holder.value.expected
    case None => true
    case Some(expected) => ReadEpoch(s.lock) == Ok(expected.value) && expected.device == s.device
  }

  function LoadStep(s: State, cleaned: bool): State
    requires s.holder.Some?
  {
    match s.intent
    case None => At(s, if cleaned then RecoveryBump else Checking)
    case Some(intent) =>
      if intent.device != s.device then s.(holder := None) else At(s, RecoverLegacy(intent.profile))
  }

  function Apply(s: State, a: Action): State
    requires Enabled(s, a)
  {
    match a
    case Begin(pid, expected, operation) => s.(holder := Some(Holder(pid, expected, operation, Entered)))
    case Reconcile(cleaned) => At(s, Loading(cleaned))
    case Load => LoadStep(s, PhaseOf(s).cleaned)
    case RemoveLegacy(file) => s.(legacy := s.legacy - {file})
    case LegacyDone =>
      At(s, if PhaseOf(s).RecoverLegacy? then RecoverProfile(PhaseOf(s).profile)
            else LogoutProfile(PhaseOf(s).profile))
    case RemoveProfile =>
      At(s.(profiles := s.profiles - {PhaseOf(s).profile}),
         if PhaseOf(s).RecoverProfile? then RecoverIntent(PhaseOf(s).profile)
         else LogoutClear(PhaseOf(s).profile))
    case RemoveIntent =>
      if PhaseOf(s).RecoverIntent? then At(s, RecoveryBump).(intent := None)
      else s.(intent := None, holder := None)
    case Bump(cut) => BumpStep(s, cut)
    case Check =>
      if ExpectationMet(s) then At(s, Bumping) else s.(holder := None)
    case Write(profiles, legacy) => s.(profiles := profiles, legacy := legacy)
    case PersistIntent =>
      var profile := SelectedProfile(s);
      At(s, LogoutLegacy(profile)).(intent := Some(Intent(s.device, profile)))
    case Leave => s.(holder := None)
    case SwitchDefault(profile) => s.(defaultProfile := profile)
    case Remount(device) => s.(device := device)
  }

  /** The profile a logout records: the selected one, or the default at that moment. */
  function SelectedProfile(s: State): Profile
    requires s.holder.Some? && s.holder.value.operation.Logout?
  {
    if s.holder.value.operation.selection.Some? then s.holder.value.operation.selection.value
    else s.defaultProfile
  }

  ghost predicate Next(s: State, t: State) { exists a :: Enabled(s, a) && t == Apply(s, a) }

  /** No process is inside, nothing has run, and the lock file is one that survives crashes. */
  predicate Init(s: State, start: u64) {
    && s.holder.None? && s.bumps == []
    && Placed(s.lock) && ReadEpoch(s.lock) == Ok(start)
  }

  ghost predicate Run(states: seq<State>, start: u64) {
    && |states| > 0 && Init(states[0], start)
    && forall k :: 0 <= k < |states| - 1 ==> Next(states[k], states[k + 1])
  }

  // ---- invariant ----

  function Epoch(s: State, start: u64): nat { start + |s.bumps| }

  /** The lock file records exactly the bumps in the history. */
  predicate LockInv(s: State, start: u64) {
    Epoch(s, start) <= U64_MAX && Placed(s.lock) && ReadEpoch(s.lock) == Ok(Epoch(s, start))
  }

  /** What the holder knows in each phase. */
  predicate PhaseInv(s: State, start: u64) {
    s.holder.Some? ==>
      match PhaseOf(s)
      case Entered => true
      case Loading(_) => true
      case RecoverLegacy(p) => s.intent == Some(Intent(s.device, p))
      case RecoverProfile(p) => s.intent == Some(Intent(s.device, p)) && s.legacy == {}
      case RecoverIntent(p) => s.intent == Some(Intent(s.device, p)) && s.legacy == {} && p !in s.profiles
      case RecoveryBump => s.intent.None?
      case Checking => s.intent.None?
      case Bumping =>
        s.intent.None? &&
        (s.holder.value.expected.Some? ==> s.holder.value.expected.value.value == Epoch(s, start))
      case Operating => s.intent.None?
      case LogoutLegacy(p) => s.intent == Some(Intent(s.device, p))
      case LogoutProfile(p) => s.intent == Some(Intent(s.device, p)) && s.legacy == {}
      case LogoutClear(p) => s.intent == Some(Intent(s.device, p)) && s.legacy == {} && p !in s.profiles
  }

  lemma BumpOutcome(s: State, start: u64, cut: Cut)
    requires LockInv(s, start) && s.holder.Some?
    ensures var t := BumpStep(s, cut);
            && LockInv(t, start)
            && (t.bumps == s.bumps || t.bumps == s.bumps + [s.holder.value.pid])
            && (t.holder.Some? ==> t.bumps == s.bumps + [s.holder.value.pid])
            && t.intent == s.intent && t.profiles == s.profiles && t.legacy == s.legacy && t.device == s.device
  {
    hide Placed, ReadEpoch, BumpAttempt;
    var epoch := Epoch(s, start);
    AttemptKeeps(s.lock, epoch, cut);
  }

  lemma LockReads(s: State, start: u64)
    requires LockInv(s, start)
    ensures ReadEpoch(s.lock) == Ok(Epoch(s, start))
  {
    hide Placed, ReadEpoch;
  }

  lemma LockKept(s: State, a: Action, start: u64)
    requires Enabled(s, a) && LockInv(s, start)
    ensures LockInv(Apply(s, a), start)
    ensures |s.bumps| <= |Apply(s, a).bumps| && Apply(s, a).bumps[..|s.bumps|] == s.bumps
  {
    hide Placed, BumpStep, BumpAttempt, ReadEpoch;
    if a.Bump? { BumpOutcome(s, start, a.cut); }
  }

  lemma BumpPhase(s: State, cut: Cut, start: u64)
    requires s.holder.Some? && PhaseInv(s, start)
    requires s.holder.value.phase == RecoveryBump || s.holder.value.phase == Bumping
    ensures PhaseInv(BumpStep(s, cut), start)
  {
    hide BumpAttempt, ReadEpoch;
  }

  lemma PhaseKept(s: State, a: Action, start: u64)
    requires Enabled(s, a) && LockInv(s, start) && PhaseInv(s, start)
    ensures PhaseInv(Apply(s, a), start)
  {
    hide Placed, BumpStep, BumpAttempt, ReadEpoch, LockInv;
    if a.Bump? { BumpPhase(s, a.cut, start); }
    if a.Check? { LockReads(s, start); }
  }

  predicate Inv(s: State, start: u64) {
    LockInv(s, start) && PhaseInv(s, start)
  }

  lemma StepInv(s: State, t: State, start: u64)
    requires Inv(s, start) && Next(s, t)
    ensures Inv(t, start)
    ensures |s.bumps| <= |t.bumps| && t.bumps[..|s.bumps|] == s.bumps
  {
    hide Enabled, Apply, LockInv, PhaseInv;
    var a :| Enabled(s, a) && t == Apply(s, a);
    LockKept(s, a, start);
    PhaseKept(s, a, start);
  }

  lemma InitInv(s: State, start: u64)
    requires Init(s, start)
    ensures Inv(s, start)
  {
    hide Placed, ReadEpoch;
  }

  lemma {:induction false} RunInv(states: seq<State>, start: u64, k: nat)
    requires Run(states, start) && k < |states|
    ensures Inv(states[k], start)
  {
    hide Next, Inv, Init;
    if k == 0 {
      InitInv(states[0], start);
    } else {
      RunInv(states, start, k - 1);
      StepInv(states[k - 1], states[k], start);
    }
  }

  lemma {:induction false} BumpsGrow(states: seq<State>, start: u64, j: nat, k: nat)
    requires Run(states, start) && j <= k < |states|
    ensures |states[j].bumps| <= |states[k].bumps| && states[k].bumps[..|states[j].bumps|] == states[j].bumps
    decreases k
  {
    hide Next, Inv, Init;
    if j < k {
      BumpsGrow(states, start, j, k - 1);
      RunInv(states, start, k - 1);
      StepInv(states[k - 1], states[k], start);
    }
  }

  // ---- stale logins lose ----

  /** The step by which a transaction's operation starts to run. */
  predicate StartsOperation(s: State, t: State) { InPhase(s, Bumping) && InPhase(t, Operating) }

  lemma StartIsBump(s: State, t: State, start: u64)
    requires Inv(s, start) && Next(s, t) && StartsOperation(s, t)
    ensures t.holder.value.pid == s.holder.value.pid && t.holder.value.expected == s.holder.value.expected
    ensures t.bumps == s.bumps + [s.holder.value.pid]
    ensures s.intent.None? && t.intent == s.intent && t.profiles == s.profiles && t.legacy == s.legacy
    ensures s.holder.value.expected.Some? ==> s.holder.value.expected.value.value == Epoch(s, start)
  {
    hide Placed, BumpAttempt, ReadEpoch, LockInv;
    var a :| Enabled(s, a) && t == Apply(s, a);
    assert a.Bump?;
    BumpOutcome(s, start, a.cut);
  }

  /** The epoch every process reads in a state of a run: the start plus all bumps so far. */
  lemma EpochCounts(states: seq<State>, start: u64, k: nat)
    requires Run(states, start) && k < |states|
    ensures start + |states[k].bumps| <= U64_MAX
    ensures ReadEpoch(states[k].lock) == Ok(start + |states[k].bumps|)
  {
    hide Run, LockInv, PhaseInv, ReadEpoch;
    RunInv(states, start, k);
    LockReads(states[k], start);
  }

  /**
   An operation that expects the epoch read in state `captured` runs only if the only bump since
   then is its own.
   */
  lemma StaleLoginsLose(states: seq<State>, start: u64, captured: nat, k: nat)
    requires Run(states, start) && captured <= k < |states| - 1
    requires StartsOperation(states[k], states[k + 1]) && states[k + 1].holder.value.expected.Some?
    requires ReadEpoch(states[captured].lock) == Ok(states[k + 1].holder.value.expected.value.value)
    ensures states[k + 1].bumps == states[captured].bumps + [states[k + 1].holder.value.pid]
  {
    hide Inv, ReadEpoch, Next, Init;
    RunInv(states, start, k);
    StartIsBump(states[k], states[k + 1], start);
    EpochCounts(states, start, captured);
    BumpsGrow(states, start, captured, k);
    assert states[k].bumps == states[captured].bumps;
  }

  /** Two operations that expected an epoch expected different ones, the later a greater one. */
  lemma ExpectedEpochsRunOnce(states: seq<State>, start: u64, j: nat, k: nat)
    requires Run(states, start) && j < k < |states| - 1
    requires StartsOperation(states[j], states[j + 1]) && states[j + 1].holder.value.expected.Some?
    requires StartsOperation(states[k], states[k + 1]) && states[k + 1].holder.value.expected.Some?
    ensures states[j + 1].holder.value.expected.value.value < states[k + 1].holder.value.expected.value.value
  {
    hide Inv, Next, Init;
    RunInv(states, start, j);
    RunInv(states, start, k);
    StartIsBump(states[j], states[j + 1], start);
    StartIsBump(states[k], states[k + 1], start);
    BumpsGrow(states, start, j + 1, k);
  }

  // ---- logout is atomic ----

  /** A logout of `profile`, recorded when the store held `before`, is under way or finished. */
  predicate LogoutProgress(s: State, profile: Profile, before: map<Profile, Credentials>) {
    && !InPhase(s, Operating)
    && (if s.intent.Some? then
          s.intent.value.profile == profile && (s.profiles == before || s.profiles == before - {profile})
        else s.profiles == before - {profile} && s.legacy == {})
  }

  lemma BumpProgress(s: State, profile: Profile, before: map<Profile, Credentials>, cut: Cut)
    requires LogoutProgress(s, profile, before) && s.holder.Some?
    ensures var t := BumpStep(s, cut); InPhase(t, Operating) || LogoutProgress(t, profile, before)
  {
    hide BumpAttempt, ReadEpoch;
  }

  lemma RemovedProfile(m: map<Profile, Credentials>, profile: Profile)
    ensures m - {profile} - {profile} == m - {profile}
    ensures profile !in m ==> m - {profile} == m
  {
  }

  lemma CleanupProgress(s: State, a: Action, start: u64, profile: Profile, before: map<Profile, Credentials>)
    requires PhaseInv(s, start) && LogoutProgress(s, profile, before) && Enabled(s, a)
    requires a.RemoveProfile? || a.RemoveIntent?
    ensures LogoutProgress(Apply(s, a), profile, before)
  {
    RemovedProfile(before, profile);
    RemovedProfile(s.profiles, profile);
  }

  lemma RemoveLegacyProgress(s: State, file: nat, start: u64, profile: Profile, before: map<Profile, Credentials>)
    requires PhaseInv(s, start) && LogoutProgress(s, profile, before) && Enabled(s, RemoveLegacy(file))
    ensures LogoutProgress(Apply(s, RemoveLegacy(file)), profile, before)
  {
  }

  lemma OtherProgress(s: State, a: Action, profile: Profile, before: map<Profile, Credentials>)
    requires LogoutProgress(s, profile, before) && Enabled(s, a)
    requires !a.RemoveProfile? && !a.RemoveIntent? && !a.RemoveLegacy? && !a.Bump?
    ensures LogoutProgress(Apply(s, a), profile, before)
  {
    hide ExpectationMet;
  }

  lemma StepProgress(s: State, t: State, start: u64, profile: Profile, before: map<Profile, Credentials>)
    requires PhaseInv(s, start) && LogoutProgress(s, profile, before) && Next(s, t)
    ensures StartsOperation(s, t) || LogoutProgress(t, profile, before)
  {
    hide BumpStep, ReadEpoch, LogoutProgress, PhaseInv;
    var a :| Enabled(s, a) && t == Apply(s, a);
    match a
    case Bump(cut) =>
      BumpProgress(s, profile, before, cut);
      BumpTarget(s, cut);
    case RemoveProfile => CleanupProgress(s, a, start, profile, before);
    case RemoveIntent => CleanupProgress(s, a, start, profile, before);
    case RemoveLegacy(file) => RemoveLegacyProgress(s, file, start, profile, before);
    case _ => OtherProgress(s, a, profile, before);
  }

  lemma BumpTarget(s: State, cut: Cut)
    requires s.holder.Some? && (s.holder.value.phase == RecoveryBump || s.holder.value.phase == Bumping)
    ensures InPhase(BumpStep(s, cut), Operating) ==> InPhase(s, Bumping)
  {
    hide BumpAttempt, ReadEpoch;
  }

  /** No operation starts between the two states. */
  predicate Quiet(states: seq<State>, j: nat, k: nat)
    requires k < |states|
  {
    forall i :: j <= i < k ==> !StartsOperation(states[i], states[i + 1])
  }

  lemma {:induction false} RunProgress(states: seq<State>, start: u64, j: nat, k: nat, profile: Profile)
    requires Run(states, start) && j <= k < |states|
    requires InPhase(states[j], LogoutLegacy(profile)) && Quiet(states, j, k)
    ensures LogoutProgress(states[k], profile, states[j].profiles)
    decreases k
  {
    hide Next, Inv, LogoutProgress, StartsOperation, Init;
    if j == k {
      RunInv(states, start, j);
      PersistedProgress(states[j], start, profile);
    } else {
      RunProgress(states, start, j, k - 1, profile);
      RunInv(states, start, k - 1);
      InvPhase(states[k - 1], start);
      StepProgress(states[k - 1], states[k], start, profile, states[j].profiles);
    }
  }

  lemma InvPhase(s: State, start: u64)
    requires Inv(s, start)
    ensures PhaseInv(s, start)
  {
  }

  lemma PersistedProgress(s: State, start: u64, profile: Profile)
    requires Inv(s, start) && InPhase(s, LogoutLegacy(profile))
    ensures LogoutProgress(s, profile, s.profiles)
  {
    hide LockInv;
  }

  /**
   Logout is atomic. From the moment its intent is on disk, however often the logout and its
   recoveries die, and whatever becomes of the default profile, the next operation that runs
   starts with the recorded profile, the legacy files and the intent gone and every other profile
   as it was.
   */
  lemma LogoutIsAtomic(states: seq<State>, start: u64, j: nat, k: nat, profile: Profile)
    requires Run(states, start) && j <= k < |states| - 1
    requires InPhase(states[j], LogoutLegacy(profile)) && Quiet(states, j, k)
    requires StartsOperation(states[k], states[k + 1])
    ensures states[k + 1].intent.None? && states[k + 1].legacy == {}
    ensures states[k + 1].profiles == states[j].profiles - {profile}
  {
    hide Next, Inv, StartsOperation, Init;
    RunInv(states, start, k);
    RunProgress(states, start, j, k, profile);
    StartIsBump(states[k], states[k + 1], start);
  }

  // ---- such runs exist ----

  /** One more step of a run in which no operation has started since state j. */
  lemma Extend(states: seq<State>, start: u64, j: nat, a: Action) returns (longer: seq<State>, t: State)
    requires Run(states, start) && j < |states| && Quiet(states, j, |states| - 1)
    requires Enabled(states[|states| - 1], a) && !StartsOperation(states[|states| - 1], Apply(states[|states| - 1], a))
    ensures t == Apply(states[|states| - 1], a) && longer == states + [t]
    ensures Run(longer, start) && Quiet(longer, j, |longer| - 1)
  {
    hide Enabled, Apply, Init, StartsOperation;
    t := Apply(states[|states| - 1], a);
    longer := states + [t];
    forall k | 0 <= k < |longer| - 1
      ensures Next(longer[k], longer[k + 1])
      ensures j <= k ==> !StartsOperation(longer[k], longer[k + 1])
    {
      if k < |states| - 1 { assert Next(states[k], states[k + 1]); }
    }
  }

  lemma CompleteBump(states: seq<State>, start: u64) returns (t: State)
    requires Run(states, start) && start + |states[|states| - 1].bumps| < U64_MAX
    requires InPhase(states[|states| - 1], Bumping) || InPhase(states[|states| - 1], RecoveryBump)
    ensures Run(states + [t], start)
    ensures var s := states[|states| - 1];
            t == s.(lock := t.lock, bumps := s.bumps + [s.holder.value.pid],
                    holder := Some(s.holder.value.(phase := if InPhase(s, Bumping) then Operating else Checking)))
  {
    hide Init, Placed, ReadEpoch, BumpAttempt, Apply;
    var s := states[|states| - 1];
    RunInv(states, start, |states| - 1);
    AttemptKeeps(s.lock, Epoch(s, start), SLOT_SIZE);
    t := BumpStep(s, SLOT_SIZE);
    assert t == Apply(s, Bump(SLOT_SIZE)) by { BumpIsStep(s); }
    forall k | 0 <= k < |states|
      ensures Next((states + [t])[k], (states + [t])[k + 1])
    {
      if k < |states| - 1 { assert Next(states[k], states[k + 1]); } else { assert Enabled(s, Bump(SLOT_SIZE)); }
    }
  }

  lemma BumpIsStep(s: State)
    requires Enabled(s, Bump(SLOT_SIZE))
    ensures Apply(s, Bump(SLOT_SIZE)) == BumpStep(s, SLOT_SIZE)
  {
    hide BumpStep;
  }

  const TWO_PROFILES: map<Profile, Credentials> := map["first" := "1", "second" := "2"]

  function Fresh(lock: File): State {
    State(lock, 1, TWO_PROFILES, "first", {}, None, None, [])
  }

  lemma QuietHere(states: seq<State>)
    requires |states| > 0
    ensures Quiet(states, |states| - 1, |states| - 1)
  {
  }

  lemma FreshRun(lock: File, start: u64)
    requires Placed(lock) && ReadEpoch(lock) == Ok(start)
    ensures Run([Fresh(lock)], start)
  {
    hide Placed, ReadEpoch;
  }

  /** A logout that dies right after its intent is durable. */
  lemma LogoutDies(lock: File, start: u64) returns (states: seq<State>, j: nat, s: State)
    requires Placed(lock) && ReadEpoch(lock) == Ok(start) && start < U64_MAX
    ensures Run(states, start) && j < |states| && s == states[|states| - 1] && Quiet(states, j, |states| - 1)
    ensures InPhase(states[j], LogoutLegacy("first")) && states[j].profiles == TWO_PROFILES
    ensures s == Fresh(lock).(lock := s.lock, intent := Some(Intent(1, "first")), bumps := [0])
  {
    hide Placed, Init, Run, Quiet, ReadEpoch;
    states := [Fresh(lock)];
    FreshRun(lock, start);
    QuietHere(states);
    states, s := Extend(states, start, 0, Begin(0, None, Logout(None)));
    states, s := Extend(states, start, 0, Reconcile(false));
    states, s := Extend(states, start, 0, Load);
    states, s := Extend(states, start, 0, Check);
    s := CompleteBump(states, start);
    states := states + [s];
    j := |states|;
    QuietHere(states);
    states, s := Extend(states, start, j - 1, PersistIntent);
    QuietHere(states);
    states, s := Extend(states, start, j, Leave);
  }

  /** The premises of `LogoutIsAtomic` are met by a run from every lock file with room for three bumps. */
  lemma DeadLogoutIsRecovered(lock: File, start: u64) returns (states: seq<State>, j: nat, k: nat)
    requires Placed(lock) && ReadEpoch(lock) == Ok(start) && start + 3 <= U64_MAX
    ensures Run(states, start) && j <= k < |states| - 1
    ensures InPhase(states[j], LogoutLegacy("first")) && Quiet(states, j, k)
              && StartsOperation(states[k], states[k + 1])
    ensures states[j].profiles == TWO_PROFILES && states[k + 1].profiles == map["second" := "2"]
  {
    hide Placed, Init, Run, Quiet, ReadEpoch;
    var s: State;
    states, j, s := LogoutDies(lock, start);
    states, s := Extend(states, start, j, Begin(1, None, Mutate));
    states, s := Extend(states, start, j, Reconcile(false));
    states, s := Extend(states, start, j, Load);
    states, s := Extend(states, start, j, LegacyDone);
    states, s := Extend(states, start, j, RemoveProfile);
    states, s := Extend(states, start, j, RemoveIntent);
    var t := CompleteBump(states, start);
    QuietBump(states, j, t);
    states, s := states + [t], t;
    states, s := Extend(states, start, j, Check);
    k := |states| - 1;
    t := CompleteBump(states, start);
    QuietPrefix(states, j, t);
    states := states + [t];
    LogoutIsAtomic(states, start, j, k, "first");
    assert TWO_PROFILES - {"first"} == map["second" := "2"];
  }

  lemma QuietBump(states: seq<State>, j: nat, t: State)
    requires j < |states| && Quiet(states, j, |states| - 1) && !StartsOperation(states[|states| - 1], t)
    ensures Quiet(states + [t], j, |states|)
  {
    hide StartsOperation;
  }

  lemma QuietPrefix(states: seq<State>, j: nat, t: State)
    requires j < |states| && Quiet(states, j, |states| - 1)
    ensures Quiet(states + [t], j, |states| - 1)
  {
    hide StartsOperation;
  }
}
