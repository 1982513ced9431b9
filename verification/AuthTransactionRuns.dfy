/**
 What a transaction comes to when its process is left alone, from every state that any run with any
 crashes can reach: when it starts its operation, and what a logout then removes.
 */
module AuthTransactionRuns {
  import opened Bytes
  import opened EpochSlots
  import opened EpochFile
  import opened EpochPlacement
  import opened AuthTransactions

  /** A run that has come to state s. */
  ghost predicate Reaches(states: seq<State>, start: u64, s: State) {
    |states| > 0 && s == states[|states| - 1] && Run(states, start)
  }

  /** One more step of a run. */
  lemma Grow(states: seq<State>, start: u64, s: State, a: Action) returns (longer: seq<State>, t: State)
    requires Reaches(states, start, s) && Enabled(s, a)
    ensures t == Apply(s, a) && states <= longer && Reaches(longer, start, t)
  {
    hide Enabled, Apply, Init;
    t := Apply(s, a);
    longer := states + [t];
    forall k | 0 <= k < |longer| - 1
      ensures Next(longer[k], longer[k + 1])
    {
      if k < |states| - 1 { assert Next(states[k], states[k + 1]); }
    }
  }

  lemma GrowBump(states: seq<State>, start: u64, s: State) returns (longer: seq<State>, t: State)
    requires Reaches(states, start, s) && start + |s.bumps| < U64_MAX
    requires InPhase(s, Bumping) || InPhase(s, RecoveryBump)
    ensures states <= longer && Reaches(longer, start, t)
    ensures t == s.(lock := t.lock, bumps := s.bumps + [s.holder.value.pid],
                    holder := Some(s.holder.value.(phase := if InPhase(s, Bumping) then Operating else Checking)))
  {
    hide Init, ReadEpoch;
    t := CompleteBump(states, start);
    longer := states + [t];
  }

  lemma ReachesReads(states: seq<State>, start: u64, s: State)
    requires Reaches(states, start, s)
    ensures start + |s.bumps| <= U64_MAX && ReadEpoch(s.lock) == Ok(start + |s.bumps|)
    ensures InPhase(s, Operating) ==> s.intent.None?
  {
    hide Run, ReadEpoch, Placed;
    EpochCounts(states, start, |states| - 1);
    RunInv(states, start, |states| - 1);
  }

  // ---- the steps of a transaction ----

  lemma Enters(states: seq<State>, start: u64, s: State, pid: Pid, expected: Option<AuthEpoch>, operation: Operation,
               cleaned: bool) returns (longer: seq<State>, t: State)
    requires Reaches(states, start, s) && s.holder.None?
    ensures states <= longer && Reaches(longer, start, t)
    ensures t == LoadStep(s.(holder := Some(Holder(pid, expected, operation, Loading(cleaned)))), cleaned)
  {
    hide Reaches, LoadStep;
    longer, t := Grow(states, start, s, Begin(pid, expected, operation));
    longer, t := Grow(longer, start, t, Reconcile(cleaned));
    longer, t := Grow(longer, start, t, Load);
  }

  /** Removing the legacy files one by one. */
  lemma {:induction false} RemovesLegacy(states: seq<State>, start: u64, s: State)
      returns (longer: seq<State>, t: State)
    requires Reaches(states, start, s) && s.holder.Some? && (PhaseOf(s).RecoverLegacy? || PhaseOf(s).LogoutLegacy?)
    ensures states <= longer && Reaches(longer, start, t) && t == s.(legacy := {})
    decreases |s.legacy|
  {
    hide Reaches;
    if s.legacy == {} {
      longer, t := states, s;
    } else {
      var file :| file in s.legacy;
      longer, t := Grow(states, start, s, RemoveLegacy(file));
      longer, t := RemovesLegacy(longer, start, t);
    }
  }

  lemma Recovers(states: seq<State>, start: u64, s: State) returns (longer: seq<State>, t: State)
    requires Reaches(states, start, s) && s.holder.Some? && PhaseOf(s).RecoverLegacy? && start + |s.bumps| < U64_MAX
    ensures states <= longer && Reaches(longer, start, t)
    ensures t == s.(holder := Some(s.holder.value.(phase := Checking)), intent := None, legacy := {},
                    profiles := s.profiles - {PhaseOf(s).profile}, lock := t.lock,
                    bumps := s.bumps + [s.holder.value.pid])
  {
    hide Reaches;
    longer, t := RemovesLegacy(states, start, s);
    longer, t := Grow(longer, start, t, LegacyDone);
    longer, t := Grow(longer, start, t, RemoveProfile);
    longer, t := Grow(longer, start, t, RemoveIntent);
    longer, t := GrowBump(longer, start, t);
  }

  /** The comparison and the bump. */
  lemma Compares(states: seq<State>, start: u64, s: State) returns (longer: seq<State>, t: State)
    requires Reaches(states, start, s) && InPhase(s, Checking) && start + |s.bumps| < U64_MAX
    ensures states <= longer && Reaches(longer, start, t)
    ensures var expected := s.holder.value.expected;
            if expected.None? || expected == Some(AuthEpoch(start + |s.bumps|, s.device)) then
              t == s.(holder := Some(s.holder.value.(phase := Operating)), lock := t.lock,
                      bumps := s.bumps + [s.holder.value.pid])
            else t == s.(holder := None)
  {
    hide Reaches, ReadEpoch;
    ReachesReads(states, start, s);
    longer, t := Grow(states, start, s, Check);
    if t.holder.Some? { longer, t := GrowBump(longer, start, t); }
  }

  /** What a transaction finds once an interrupted logout, if there is one, is finished. */
  function Recovered(s: State): State {
    if s.intent.None? then s
    else s.(intent := None, legacy := {}, profiles := s.profiles - {s.intent.value.profile})
  }

  /**
   A transaction left alone, after any run, with two epochs to spare. It starts its operation exactly
   when no epoch is expected or the one it will find: the one read before it began, or the next one if
   something had to be recovered or cleaned up. It makes one bump for the recovery and one for the
   operation, and changes nothing else. An intent of another device makes it fail without a change.
   */
  lemma TransactionAlone(states: seq<State>, start: u64, s: State, pid: Pid, expected: Option<AuthEpoch>,
                         operation: Operation, cleaned: bool) returns (longer: seq<State>, t: State)
    requires Reaches(states, start, s) && s.holder.None? && start + |s.bumps| + 2 <= U64_MAX
    ensures states <= longer && Reaches(longer, start, t)
    ensures if s.intent.Some? && s.intent.value.device != s.device then t == s
            else
              var first := if s.intent.Some? || cleaned then [pid] else [];
              var current := AuthEpoch(start + |s.bumps| + |first|, s.device);
              if expected.None? || expected == Some(current) then
                t == Recovered(s).(holder := Some(Holder(pid, expected, operation, Operating)), lock := t.lock,
                                   bumps := s.bumps + first + [pid])
              else t == Recovered(s).(lock := t.lock, bumps := s.bumps + first)
  {
    hide Reaches;
    longer, t := Enters(states, start, s, pid, expected, operation, cleaned);
    if t.holder.Some? {
      if s.intent.Some? {
        longer, t := Recovers(longer, start, t);
      } else if cleaned {
        longer, t := GrowBump(longer, start, t);
      }
      longer, t := Compares(longer, start, t);
    }
  }

  /** A login that nobody overtook runs: it expects the epoch that is read, and nothing is to recover. */
  lemma CurrentLoginRuns(states: seq<State>, start: u64, s: State, pid: Pid, epoch: u64)
      returns (longer: seq<State>, t: State)
    requires Reaches(states, start, s) && s.holder.None? && s.intent.None?
    requires ReadEpoch(s.lock) == Ok(epoch) && epoch <= U64_MAX - 2
    ensures states <= longer && Reaches(longer, start, t)
    ensures InPhase(t, Operating) && t.holder.value.pid == pid && ReadEpoch(t.lock) == Ok(epoch + 1)
    ensures t.holder.value.expected == Some(AuthEpoch(epoch, s.device))
    ensures t.profiles == s.profiles && t.legacy == s.legacy
  {
    hide Reaches, ReadEpoch;
    ReachesReads(states, start, s);
    longer, t := TransactionAlone(states, start, s, pid, Some(AuthEpoch(epoch, s.device)), Mutate, false);
    ReachesReads(longer, start, t);
  }

  // ---- logout ----

  /** A durable logout left alone. */
  lemma FinishesLogout(states: seq<State>, start: u64, s: State, profile: Profile)
      returns (longer: seq<State>, t: State)
    requires Reaches(states, start, s) && InPhase(s, LogoutLegacy(profile))
    ensures states <= longer && Reaches(longer, start, t)
    ensures t == s.(holder := None, intent := None, legacy := {}, profiles := s.profiles - {profile})
  {
    hide Reaches, BumpStep, LoadStep, ExpectationMet;
    longer, t := RemovesLegacy(states, start, s);
    longer, t := Grow(longer, start, t, LegacyDone);
    longer, t := Grow(longer, start, t, RemoveProfile);
    longer, t := Grow(longer, start, t, RemoveIntent);
  }

  /** A logout left alone removes the profile it was asked to remove and the legacy files, and nothing else. */
  lemma LogoutAlone(states: seq<State>, start: u64, s: State, selection: Option<Profile>)
      returns (longer: seq<State>, t: State)
    requires Reaches(states, start, s) && InPhase(s, Operating) && s.holder.value.operation == Logout(selection)
    ensures states <= longer && Reaches(longer, start, t)
    ensures var profile := if selection.Some? then selection.value else s.defaultProfile;
            t == s.(holder := None, legacy := {}, profiles := s.profiles - {profile})
  {
    hide Reaches, BumpStep, LoadStep, ExpectationMet, ReadEpoch;
    ReachesReads(states, start, s);
    longer, t := Grow(states, start, s, PersistIntent);
    longer, t := FinishesLogout(longer, start, t, PhaseOf(t).profile);
  }

  /** The step that makes a logout durable. */
  lemma PersistRecords(s: State, t: State, selection: Option<Profile>)
    requires Next(s, t) && InPhase(s, Operating) && t.holder.Some? && PhaseOf(t).LogoutLegacy?
    requires s.holder.value.operation == Logout(selection)
    ensures InPhase(t, LogoutLegacy(if selection.Some? then selection.value else s.defaultProfile))
    ensures t.profiles == s.profiles
  {
    hide BumpAttempt, ReadEpoch;
  }

  /**
   The profile asked for is the one removed: whatever dies once the logout is durable and whatever
   becomes of the default profile, the next operation that runs finds the selected profile, or the one
   that was the default at that moment, gone, and every other one as it was.
   */
  lemma SelectedLogoutIsAtomic(states: seq<State>, start: u64, j: nat, k: nat, selection: Option<Profile>)
    requires Run(states, start) && j + 1 <= k < |states| - 1
    requires InPhase(states[j], Operating) && states[j].holder.value.operation == Logout(selection)
    requires states[j + 1].holder.Some? && PhaseOf(states[j + 1]).LogoutLegacy? && Quiet(states, j + 1, k)
    requires StartsOperation(states[k], states[k + 1])
    ensures var profile := if selection.Some? then selection.value else states[j].defaultProfile;
            && states[k + 1].profiles == states[j].profiles - {profile}
            && states[k + 1].legacy == {} && states[k + 1].intent.None?
  {
    hide Init, Next;
    PersistRecords(states[j], states[j + 1], selection);
    LogoutIsAtomic(states, start, j + 1, k, PhaseOf(states[j + 1]).profile);
  }
}
