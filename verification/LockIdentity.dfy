/**
 Which object the lock is. The lock inode has two names, the primary path and its anchor, and an
 owner record that names the inode. Processes acquire the lock in small steps; between any two
 steps another process may run, a process may die, and somebody may unlink, replace or hard-link
 the two names.
 */
module LockIdentity {
  import opened Bytes
  import opened EpochSlots
  import opened EpochLog
  import opened EpochFile
  import opened EpochPlacement

  type Inode = nat
  type Pid = nat

  datatype Owner = Owner(device: nat, inode: Inode)

  /** How far a process is in acquiring the lock; `ownerSeen` is what it read at the start. */
  datatype Phase =
    | Idle
    | Started(ownerSeen: bool)
    | AliasesSeen(ownerSeen: bool)
    | Opened(ownerSeen: bool, inode: Inode)
    | Locked(ownerSeen: bool, inode: Inode)
    | Candidate(ownerSeen: bool, inode: Inode)
    | OwnerMatched(inode: Inode)
    | Formatted(inode: Inode)
    | Linked(inode: Inode)
    | Aliased(inode: Inode)
    | Owned(inode: Inode)
    | Held(inode: Inode)

  /**
   `extra` counts names of an inode other than the two aliases. `origin` and `cuts` are history:
   the contents of the lock when the owner record was created, and every bump attempted since.
   */
  datatype State = State(
    primary: Option<Inode>,
    anchor: Option<Inode>,
    extra: multiset<Inode>,
    owner: Option<Owner>,
    device: nat,
    content: map<Inode, File>,
    procs: map<Pid, Phase>,
    origin: File,
    cuts: seq<Cut>)

  function PhaseOf(s: State, p: Pid): Phase { if p in s.procs then s.procs[p] else Idle }

  function Move(s: State, p: Pid, phase: Phase): State { s.(procs := s.procs[p := phase]) }

  /** The inode a process holds the file lock of. */
  function LockedInode(phase: Phase): Option<Inode> {
    match phase
    case Idle | Started(_) | AliasesSeen(_) | Opened(_, _) => None
    case Locked(_, i) => Some(i)
    case Candidate(_, i) => Some(i)
    case OwnerMatched(i) => Some(i)
    case Formatted(i) => Some(i)
    case Linked(i) => Some(i)
    case Aliased(i) => Some(i)
    case Owned(i) => Some(i)
    case Held(i) => Some(i)
  }

  function LinkCount(s: State, i: Inode): nat {
    (if s.primary == Some(i) then 1 else 0) + (if s.anchor == Some(i) then 1 else 0) + s.extra[i]
  }

  /** Each alias is absent or the lock itself, one is there, and no other name exists. */
  predicate CandidateValid(s: State, i: Inode) {
    && (s.primary == None || s.primary == Some(i))
    && (s.anchor == None || s.anchor == Some(i))
    && (s.primary == Some(i) || s.anchor == Some(i))
    && s.extra[i] == 0
  }

  predicate IdentityValid(s: State, i: Inode) {
    s.primary == Some(i) && s.anchor == Some(i) && LinkCount(s, i) == 2
  }

  predicate BindingValid(s: State, i: Inode) {
    IdentityValid(s, i) && s.owner == Some(Owner(s.device, i))
  }

  datatype Action =
    | Acquire(pid: Pid, unused: Inode)
    | Bump(pid: Pid, cut: Cut)
    | Release(pid: Pid)
    | Crash(pid: Pid)
    | Unlink(primaryName: bool)
    | Replace(primaryName: bool, inode: Inode, bytes: File)
    | LinkElsewhere(target: Inode)
    | MoveBack(primaryName: bool, target: Inode)
    | Remount(device: nat)

  /** Where one step of acquiring the lock leads; Idle is the error return. */
  function NextPhase(s: State, phase: Phase, unused: Inode): Phase {
    match phase
    case Idle => Started(s.owner.Some?)
    case Started(seen) => if seen && s.primary.None? && s.anchor.None? then Idle else AliasesSeen(seen)
    case AliasesSeen(seen) =>
      if s.anchor.Some? then Opened(seen, s.anchor.value)
      else if s.primary.Some? then Opened(seen, s.primary.value)
      else if seen then Idle
      else Opened(seen, unused)
    case Opened(seen, i) => Locked(seen, i)
    case Locked(seen, i) => if CandidateValid(s, i) then Candidate(seen, i) else Idle
    case Candidate(seen, i) =>
      if seen ==> s.owner.Some? && s.owner.value.inode == i then OwnerMatched(i) else Idle
    case OwnerMatched(i) => if i in s.content && FormatValid(s.content[i]) then Formatted(i) else Idle
    case Formatted(i) => if CandidateValid(s, i) then Linked(i) else Idle
    case Linked(i) => if IdentityValid(s, i) then Aliased(i) else Idle
    case Aliased(i) => if s.owner.Some? && s.owner.value.inode != i then Idle else Owned(i)
    case Owned(i) => if BindingValid(s, i) then Held(i) else Idle
    case Held(i) => Held(i)
  }

  /** What that step does to the disk: create a lock, restore a missing alias, write the record. */
  function Effect(s: State, phase: Phase, unused: Inode): State {
    if phase.AliasesSeen? && NextPhase(s, phase, unused) == Opened(phase.ownerSeen, unused)
       && s.anchor.None? && s.primary.None? then
      s.(primary := Some(unused), content := s.content[unused := HEADER])
    else if phase.Formatted? && NextPhase(s, phase, unused).Linked? then
      s.(primary := Some(phase.inode), anchor := Some(phase.inode))
    else if phase.Aliased? && NextPhase(s, phase, unused).Owned? then
      if s.owner.Some? then s.(owner := Some(Owner(s.device, phase.inode)))
      else
        s.(owner := Some(Owner(s.device, phase.inode)), cuts := [],
           origin := if phase.inode in s.content then s.content[phase.inode] else [])
    else s
  }

  function AcquireStep(s: State, p: Pid, unused: Inode): State {
    Move(Effect(s, PhaseOf(s, p), unused), p, NextPhase(s, PhaseOf(s, p), unused))
  }

  function BumpStep(s: State, p: Pid, i: Inode, cut: Cut): State {
    if !BindingValid(s, i) || i !in s.content then Move(s, p, Idle)
    else
      var written := s.(content := s.content[i := BumpAttempt(s.content[i], cut)], cuts := s.cuts + [cut]);
      if cut < SLOT_SIZE then Move(written, p, Idle) else written
  }

  predicate Enabled(s: State, a: Action) {
    match a
    case Acquire(p, unused) =>
      && unused !in s.content
      && !PhaseOf(s, p).Held?
      && (PhaseOf(s, p).Opened? ==> !LockTaken(s, PhaseOf(s, p).inode))
    case Bump(p, _) => PhaseOf(s, p).Held?
    case Release(p) => PhaseOf(s, p).Held?
    case Crash(_) => true
    case Unlink(_) => true
    case Replace(_, i, _) => i !in s.content
    case LinkElsewhere(i) => s.primary == Some(i) || s.anchor == Some(i) || s.extra[i] > 0
    case MoveBack(_, i) => s.extra[i] > 0
    case Remount(_) => forall p :: p in s.procs ==> s.procs[p].Idle?
  }

  predicate LockTaken(s: State, i: Inode) {
    exists p :: p in s.procs && LockedInode(s.procs[p]) == Some(i)
  }

  function SetName(s: State, primaryName: bool, target: Option<Inode>): State {
    if primaryName then s.(primary := target) else s.(anchor := target)
  }

  function Apply(s: State, a: Action): State {
    match a
    case Acquire(p, unused) => AcquireStep(s, p, unused)
    case Bump(p, cut) => if PhaseOf(s, p).Held? then BumpStep(s, p, PhaseOf(s, p).inode, cut) else s
    case Release(p) => Move(s, p, Idle)
    case Crash(p) => Move(s, p, Idle)
    case Unlink(name) => SetName(s, name, None)
    case Replace(name, i, bytes) => SetName(s.(content := s.content[i := bytes]), name, Some(i))
    case LinkElsewhere(i) => s.(extra := s.extra + multiset{i})
    case MoveBack(name, i) => SetName(s, name, Some(i)).(extra := s.extra - multiset{i})
    case Remount(device) => s.(device := device)
  }

  predicate Init(s: State) {
    && s.owner == None && s.procs == map[] && s.cuts == []
    && (s.primary.Some? ==> s.primary.value in s.content)
    && (s.anchor.Some? ==> s.anchor.value in s.content)
    && (forall i :: i in s.extra ==> i in s.content)
  }

  ghost predicate Next(s: State, t: State) { exists a :: Enabled(s, a) && t == Apply(s, a) }

  /** A run: the first state is initial and every state follows from the one before. */
  ghost predicate Run(states: seq<State>) {
    && |states| > 0 && Init(states[0])
    && forall k :: 0 <= k < |states| - 1 ==> Next(states[k], states[k + 1])
  }

  // ---- invariant ----

  /** The inode a process refers to, locked or not. */
  function TargetInode(phase: Phase): Option<Inode> {
    if phase.Opened? then Some(phase.inode) else LockedInode(phase)
  }

  predicate Known(content: map<Inode, File>, i: Option<Inode>) { i.Some? ==> i.value in content }

  predicate NamesKnown(s: State) {
    && Known(s.content, s.primary) && Known(s.content, s.anchor)
    && (forall i :: i in s.extra ==> i in s.content)
    && (forall p :: p in s.procs ==> Known(s.content, TargetInode(s.procs[p])))
    && (s.owner.Some? ==> s.owner.value.inode in s.content)
  }

  /** The file lock excludes: at most one process is past it on any inode. */
  predicate LocksExclusive(s: State) {
    forall p, q :: p in s.procs && q in s.procs && p != q && LockedInode(s.procs[p]).Some?
      ==> LockedInode(s.procs[p]) != LockedInode(s.procs[q])
  }

  predicate PastFormat(phase: Phase) {
    phase.Formatted? || phase.Linked? || phase.Aliased?
  }

  /** What a process may have reached, given the owner record. */
  predicate PhaseAllowed(s: State, phase: Phase) {
    if s.owner.None? then
      && !phase.Held? && !phase.Owned?
      && (PastFormat(phase) ==> phase.inode in s.content && FormatValid(s.content[phase.inode]))
    else phase.Held? || phase.Owned? ==> phase.inode == s.owner.value.inode
  }

  /** Before the owner record exists nobody has bumped; afterwards only the owner's inode was. */
  predicate History(s: State) {
    if s.owner.None? then s.cuts == []
    else
      && s.owner.value.inode in s.content
      && s.content[s.owner.value.inode] == RunBumps(s.origin, s.cuts)
      && FormatValid(s.origin)
  }

  predicate OwnerHistory(s: State) {
    History(s) && forall p :: p in s.procs ==> PhaseAllowed(s, s.procs[p])
  }

  predicate Inv(s: State) { NamesKnown(s) && LocksExclusive(s) && OwnerHistory(s) }

  /** What an action does to the phases: nothing, or it moves one process. */
  ghost predicate PhaseMoves(s: State, t: State) {
    t.procs == s.procs || exists p, phase :: t.procs == s.procs[p := phase] && LegalMove(s, p, phase)
  }

  /** A process only enters the critical section of an inode nobody holds, and only one it opened. */
  predicate LegalMove(s: State, p: Pid, phase: Phase) {
    || LockedInode(phase).None?
    || LockedInode(phase) == LockedInode(PhaseOf(s, p))
    || (PhaseOf(s, p).Opened? && LockedInode(phase) == Some(PhaseOf(s, p).inode)
        && !LockTaken(s, PhaseOf(s, p).inode))
  }

  lemma NextPhaseInode(s: State, phase: Phase, unused: Inode)
    ensures var next := NextPhase(s, phase, unused);
            || next.Idle? || TargetInode(next).None?
            || TargetInode(next) == TargetInode(phase)
            || (next.Opened? && (Some(next.inode) in {s.primary, s.anchor} || next.inode == unused))
    ensures NextPhase(s, phase, unused).Locked? ==> phase.Opened?
    ensures LockedInode(phase).None? && LockedInode(NextPhase(s, phase, unused)).Some? ==> phase.Opened?
  {
    hide FormatValid, CandidateValid, IdentityValid, BindingValid;
  }

  lemma ActionsMoveOnePhase(s: State, a: Action)
    requires Enabled(s, a)
    ensures PhaseMoves(s, Apply(s, a))
  {
    hide Effect, NextPhase, BumpAttempt, BindingValid, PhaseMoves, LockTaken;
    if a.Acquire? {
      var phase, next := PhaseOf(s, a.pid), NextPhase(s, PhaseOf(s, a.pid), a.unused);
      NextPhaseInode(s, phase, a.unused);
      EffectKeepsPhases(s, phase, a.unused);
      OneMoves(s, Apply(s, a), a.pid, next);
    } else if a.Bump? || a.Release? || a.Crash? {
      if Apply(s, a).procs == s.procs { NothingMoves(s, Apply(s, a)); }
      else { OneMoves(s, Apply(s, a), a.pid, Idle); }
    } else {
      NothingMoves(s, Apply(s, a));
    }
  }

  lemma EffectKeepsPhases(s: State, phase: Phase, unused: Inode)
    ensures Effect(s, phase, unused).procs == s.procs
    ensures Effect(s, phase, unused).extra == s.extra
    ensures Effect(s, phase, unused).device == s.device
  {
    hide NextPhase;
  }

  lemma OneMoves(s: State, t: State, p: Pid, phase: Phase)
    requires t.procs == s.procs[p := phase] && LegalMove(s, p, phase)
    ensures PhaseMoves(s, t)
  {
  }

  lemma NothingMoves(s: State, t: State)
    requires t.procs == s.procs
    ensures PhaseMoves(s, t)
  {
  }

  lemma LocksKept(s: State, t: State)
    requires LocksExclusive(s) && PhaseMoves(s, t)
    ensures LocksExclusive(t)
  {
  }

  // ---- names ----

  lemma EffectNames(s: State, phase: Phase, unused: Inode)
    requires NamesKnown(s) && Known(s.content, TargetInode(phase))
    ensures NamesKnown(Effect(s, phase, unused))
    ensures s.content.Keys <= Effect(s, phase, unused).content.Keys
    ensures NextPhase(s, phase, unused) == Opened(false, unused) ==>
              unused in Effect(s, phase, unused).content
  {
    hide FormatValid, CandidateValid, IdentityValid, BindingValid;
  }

  lemma MoveNames(s: State, p: Pid, phase: Phase)
    requires NamesKnown(s) && Known(s.content, TargetInode(phase))
    ensures NamesKnown(Move(s, p, phase))
  {
  }

  lemma BumpNames(s: State, p: Pid, i: Inode, cut: Cut)
    requires NamesKnown(s)
    ensures NamesKnown(BumpStep(s, p, i, cut))
  {
    hide BumpAttempt, BindingValid;
  }

  lemma SetNameKnown(s: State, primaryName: bool, target: Option<Inode>)
    requires NamesKnown(s) && Known(s.content, target)
    ensures NamesKnown(SetName(s, primaryName, target))
    ensures SetName(s, primaryName, target).content == s.content
    ensures SetName(s, primaryName, target).extra == s.extra
  {
  }

  lemma AddFile(s: State, i: Inode, bytes: File)
    requires NamesKnown(s) && i !in s.content
    ensures NamesKnown(s.(content := s.content[i := bytes]))
  {
  }

  lemma SetExtra(s: State, extra: multiset<Inode>)
    requires NamesKnown(s) && forall i :: i in extra ==> i in s.content
    ensures NamesKnown(s.(extra := extra))
  {
  }

  lemma OutsideNames(s: State, a: Action)
    requires Enabled(s, a) && NamesKnown(s)
    requires a.Unlink? || a.Replace? || a.LinkElsewhere? || a.MoveBack? || a.Remount?
    ensures NamesKnown(Apply(s, a))
  {
    match a
    case Unlink(name) => SetNameKnown(s, name, None);
    case Replace(name, i, bytes) =>
      AddFile(s, i, bytes);
      SetNameKnown(s.(content := s.content[i := bytes]), name, Some(i));
    case LinkElsewhere(i) => SetExtra(s, s.extra + multiset{i});
    case MoveBack(name, i) =>
      assert i in s.extra;
      SetNameKnown(s, name, Some(i));
      SetExtra(SetName(s, name, Some(i)), s.extra - multiset{i});
    case Remount(_) =>
  }

  /** Only known inodes are named, opened, locked or owned after any step. */
  lemma NamesKept(s: State, a: Action)
    requires Enabled(s, a) && NamesKnown(s)
    ensures NamesKnown(Apply(s, a))
  {
    hide Effect, NextPhase, NamesKnown, Known, BumpStep;
    match a
    case Acquire(p, unused) =>
      var phase := PhaseOf(s, p);
      PhaseKnown(s, p);
      EffectNames(s, phase, unused);
      NextPhaseKnown(s, phase, unused);
      EffectKeepsPhases(s, phase, unused);
      MoveNames(Effect(s, phase, unused), p, NextPhase(s, phase, unused));
    case Bump(p, cut) => BumpNames(s, p, PhaseOf(s, p).inode, cut);
    case Release(p) => IdleNames(s, p);
    case Crash(p) => IdleNames(s, p);
    case _ => OutsideNames(s, a);
  }

  lemma IdleNames(s: State, p: Pid)
    requires NamesKnown(s)
    ensures NamesKnown(Move(s, p, Idle))
  {
  }

  lemma PhaseKnown(s: State, p: Pid)
    requires NamesKnown(s)
    ensures Known(s.content, TargetInode(PhaseOf(s, p)))
  {
  }

  lemma NextPhaseKnown(s: State, phase: Phase, unused: Inode)
    requires NamesKnown(s) && Known(s.content, TargetInode(phase))
    ensures Known(Effect(s, phase, unused).content, TargetInode(NextPhase(s, phase, unused)))
  {
    hide FormatValid, CandidateValid, IdentityValid, BindingValid;
  }

  // ---- owner history ----

  lemma BumpKeepsOwner(s: State, p: Pid, cut: Cut)
    requires Inv(s) && PhaseOf(s, p).Held?
    ensures OwnerHistory(BumpStep(s, p, PhaseOf(s, p).inode, cut))
  {
    hide FormatValid, BumpAttempt, BindingValid;
    assert (s.cuts + [cut])[..|s.cuts|] == s.cuts;
  }

  /** The effect keeps the history and what every other process may have reached. */
  lemma EffectOwner(s: State, phase: Phase, unused: Inode)
    requires NamesKnown(s) && History(s) && PhaseAllowed(s, phase) && unused !in s.content
    ensures History(Effect(s, phase, unused))
    ensures PhaseAllowed(Effect(s, phase, unused), NextPhase(s, phase, unused))
  {
    hide FormatValid, BumpAttempt, CandidateValid, IdentityValid, BindingValid;
  }

  lemma EffectAllows(s: State, phase: Phase, unused: Inode, other: Phase)
    requires NamesKnown(s) && History(s) && PhaseAllowed(s, phase) && unused !in s.content
    requires PhaseAllowed(s, other)
    ensures PhaseAllowed(Effect(s, phase, unused), other)
  {
    hide FormatValid, BumpAttempt, CandidateValid, IdentityValid, BindingValid;
  }

  lemma AcquireKeepsOwner(s: State, p: Pid, unused: Inode)
    requires Inv(s) && unused !in s.content
    ensures OwnerHistory(AcquireStep(s, p, unused))
  {
    hide Effect, NextPhase, History, PhaseAllowed, FormatValid, NamesKnown, LocksExclusive;
    var phase, t := PhaseOf(s, p), AcquireStep(s, p, unused);
    IdleAllowed(s);
    EffectOwner(s, phase, unused);
    EffectKeepsPhases(s, phase, unused);
    MoveOwner(Effect(s, phase, unused), p, NextPhase(s, phase, unused));
    forall q | q in t.procs
      ensures PhaseAllowed(t, t.procs[q])
    {
      if q != p { EffectAllows(s, phase, unused, s.procs[q]); }
      MoveAllowed(Effect(s, phase, unused), p, NextPhase(s, phase, unused), t.procs[q]);
    }
  }

  lemma IdleAllowed(s: State)
    ensures PhaseAllowed(s, Idle)
  {
  }

  lemma MoveOwner(s: State, p: Pid, phase: Phase)
    ensures History(Move(s, p, phase)) == History(s)
  {
    hide RunBumps, FormatValid;
  }

  lemma MoveAllowed(s: State, p: Pid, phase: Phase, other: Phase)
    ensures PhaseAllowed(Move(s, p, phase), other) == PhaseAllowed(s, other)
  {
    hide FormatValid;
  }

  lemma OwnerKept(s: State, a: Action)
    requires Enabled(s, a) && Inv(s)
    ensures OwnerHistory(Apply(s, a))
  {
    hide AcquireStep, BumpStep, FormatValid, BumpAttempt, RunBumps;
    if a.Acquire? {
      AcquireKeepsOwner(s, a.pid, a.unused);
    } else if a.Bump? {
      BumpKeepsOwner(s, a.pid, a.cut);
    }
  }

  // ---- runs ----

  lemma InvKept(s: State, t: State)
    requires Inv(s) && Next(s, t)
    ensures Inv(t)
  {
    hide Apply, Enabled, NamesKnown, LocksExclusive, OwnerHistory, PhaseMoves;
    var a :| Enabled(s, a) && t == Apply(s, a);
    NamesKept(s, a);
    ActionsMoveOnePhase(s, a);
    LocksKept(s, t);
    OwnerKept(s, a);
  }

  lemma {:induction false} RunInv(states: seq<State>, k: nat)
    requires Run(states) && k < |states|
    ensures Inv(states[k])
  {
    hide Next, Inv;
    if k == 0 {
      InitInv(states[0]);
    } else {
      RunInv(states, k - 1);
      InvKept(states[k - 1], states[k]);
    }
  }

  lemma InitInv(s: State)
    requires Init(s)
    ensures Inv(s)
  {
  }

  /** One step never changes whose lock it is, and only appends to the bump history. */
  predicate OwnerFixed(s: State, t: State) {
    s.owner.Some? ==>
      && t.owner.Some? && t.owner.value.inode == s.owner.value.inode
      && t.origin == s.origin && |s.cuts| <= |t.cuts| && t.cuts[..|s.cuts|] == s.cuts
  }

  lemma EffectOwnerFixed(s: State, phase: Phase, unused: Inode)
    ensures OwnerFixed(s, Effect(s, phase, unused))
  {
    hide FormatValid, CandidateValid, IdentityValid, BindingValid;
  }

  lemma BumpOwnerFixed(s: State, p: Pid, i: Inode, cut: Cut)
    ensures OwnerFixed(s, BumpStep(s, p, i, cut))
  {
    hide BumpAttempt, BindingValid;
  }

  lemma UnchangedOwnerFixed(s: State, t: State)
    requires t.owner == s.owner && t.origin == s.origin && t.cuts == s.cuts
    ensures OwnerFixed(s, t)
  {
  }

  lemma MovedOwnerFixed(s: State, t: State, p: Pid, phase: Phase)
    requires OwnerFixed(s, t)
    ensures OwnerFixed(s, Move(t, p, phase))
  {
  }

  lemma StepOwnerFixed(s: State, t: State)
    requires Next(s, t)
    ensures OwnerFixed(s, t)
  {
    hide Effect, NextPhase, BumpStep, Enabled, OwnerFixed, Move;
    var a :| Enabled(s, a) && t == Apply(s, a);
    match a
    case Acquire(p, unused) =>
      EffectOwnerFixed(s, PhaseOf(s, p), unused);
      MovedOwnerFixed(s, Effect(s, PhaseOf(s, p), unused), p, NextPhase(s, PhaseOf(s, p), unused));
    case Bump(p, cut) =>
      if PhaseOf(s, p).Held? { BumpOwnerFixed(s, p, PhaseOf(s, p).inode, cut); }
      else { UnchangedOwnerFixed(s, s); }
    case Release(p) => UnchangedOwnerFixed(s, s); MovedOwnerFixed(s, s, p, Idle);
    case Crash(p) => UnchangedOwnerFixed(s, s); MovedOwnerFixed(s, s, p, Idle);
    case _ => UnchangedOwnerFixed(s, t);
  }

  lemma {:induction false} RunOwnerFixed(states: seq<State>, j: nat, k: nat)
    requires Run(states) && j <= k < |states|
    ensures OwnerFixed(states[j], states[k])
    decreases k
  {
    hide Next, Init;
    if j < k {
      RunOwnerFixed(states, j, k - 1);
      StepOwnerFixed(states[k - 1], states[k]);
    }
  }

  lemma HeldIsOwner(s: State, p: Pid)
    requires OwnerHistory(s) && PhaseOf(s, p).Held?
    ensures s.owner.Some? && PhaseOf(s, p).inode == s.owner.value.inode
  {
  }

  /** Any two acquisitions of a run, by whatever processes, hold the same inode. */
  lemma OneLockForever(states: seq<State>, j: nat, k: nat, p: Pid, q: Pid)
    requires Run(states) && j < |states| && k < |states|
    requires PhaseOf(states[j], p).Held? && PhaseOf(states[k], q).Held?
    ensures PhaseOf(states[j], p).inode == PhaseOf(states[k], q).inode
    ensures j == k ==> p == q
  {
    hide Run, Inv;
    RunInv(states, j);
    RunInv(states, k);
    InvParts(states[j]);
    InvParts(states[k]);
    HeldIsOwner(states[j], p);
    HeldIsOwner(states[k], q);
    if j <= k { RunOwnerFixed(states, j, k); } else { RunOwnerFixed(states, k, j); }
    if j == k { OneHolder(states[j], p, q); }
  }

  lemma InvParts(s: State)
    requires Inv(s)
    ensures NamesKnown(s) && LocksExclusive(s) && OwnerHistory(s)
  {
  }

  lemma OneHolder(s: State, p: Pid, q: Pid)
    requires LocksExclusive(s) && PhaseOf(s, p).Held? && PhaseOf(s, q).Held?
    requires PhaseOf(s, p).inode == PhaseOf(s, q).inode
    ensures p == q
  {
  }

  /**
   An acquisition completes only with both names on the locked inode and the record naming it;
   with the record present and both names gone it fails at its second step.
   */
  lemma AcquireRestoresBothNames(s: State, p: Pid, unused: Inode)
    requires Enabled(s, Acquire(p, unused))
    ensures var t := Apply(s, Acquire(p, unused));
            PhaseOf(t, p).Held? ==>
              var i := PhaseOf(t, p).inode;
              t.primary == Some(i) && t.anchor == Some(i) && t.owner == Some(Owner(t.device, i)) && t.extra[i] == 0
    ensures PhaseOf(s, p) == Started(true) && s.primary.None? && s.anchor.None? ==>
              PhaseOf(Apply(s, Acquire(p, unused)), p) == Idle
  {
    hide FormatValid, CandidateValid;
  }

  // ---- the epoch is never reset ----

  /** The epoch on the owned lock. */
  function OwnedEpoch(s: State): Result<u64>
    requires s.owner.Some? && s.owner.value.inode in s.content
  {
    ReadEpoch(s.content[s.owner.value.inode])
  }

  lemma OwnedContent(s: State)
    requires OwnerHistory(s) && s.owner.Some?
    ensures s.owner.value.inode in s.content
    ensures s.content[s.owner.value.inode] == RunBumps(s.origin, s.cuts) && FormatValid(s.origin)
  {
  }

  /**
   Whatever happens to the names, and however often processes die, the epoch that a lock with an
   owner record records can be read and never goes down. It takes a lock file that was placed when
   the record was created; `PlacedExactly` shows that no other file would do.
   */
  lemma EpochNeverReset(states: seq<State>, j: nat, k: nat)
    requires Run(states) && j <= k < |states|
    requires states[j].owner.Some? && Placed(states[j].origin)
    ensures states[k].owner.Some?
    ensures states[j].owner.value.inode in states[j].content && states[k].owner.value.inode in states[k].content
    ensures OwnedEpoch(states[j]).Ok? && OwnedEpoch(states[k]).Ok?
    ensures OwnedEpoch(states[j]).value <= OwnedEpoch(states[k]).value
  {
    hide Run, Inv, FormatValid, ReadEpoch, RunBumps, Placed;
    RunInv(states, j);
    RunInv(states, k);
    InvParts(states[j]);
    InvParts(states[k]);
    RunOwnerFixed(states, j, k);
    OwnedContent(states[j]);
    OwnedContent(states[k]);
    RunMonotone(states[j].origin, states[j].cuts, states[k].cuts);
  }

  // ---- losing both names ----

  /** The owned inode has no name left anywhere. */
  predicate Lost(s: State) {
    && s.owner.Some?
    && var i := s.owner.value.inode;
       i in s.content && s.primary != Some(i) && s.anchor != Some(i) && s.extra[i] == 0
  }

  /** Nothing is bumped and nobody completes an acquisition. */
  predicate Dead(s: State, t: State) {
    && s.owner.Some? && Lost(t)
    && t.owner.value.inode == s.owner.value.inode && t.cuts == s.cuts
    && forall p :: p in t.procs && t.procs[p].Held? ==> PhaseOf(s, p).Held?
  }

  lemma EffectLost(s: State, phase: Phase, unused: Inode)
    requires Lost(s) && unused !in s.content
    ensures Lost(Effect(s, phase, unused))
    ensures Effect(s, phase, unused).owner.value.inode == s.owner.value.inode
    ensures Effect(s, phase, unused).cuts == s.cuts
    ensures phase.Owned? ==> NextPhase(s, phase, unused).Idle?
    ensures NextPhase(s, phase, unused).Held? ==> phase.Held?
  {
    hide FormatValid;
  }

  lemma MoveDead(s: State, t: State, p: Pid, phase: Phase)
    requires Lost(t) && s.owner.Some? && t.owner.value.inode == s.owner.value.inode && t.cuts == s.cuts
    requires t.procs == s.procs && (phase.Held? ==> PhaseOf(s, p).Held?)
    ensures Dead(s, Move(t, p, phase))
  {
  }

  lemma BumpLost(s: State, p: Pid, i: Inode, cut: Cut)
    requires Lost(s) && OwnerHistory(s) && PhaseOf(s, p) == Held(i)
    ensures BumpStep(s, p, i, cut) == Move(s, p, Idle)
  {
    hide BumpAttempt;
  }

  lemma OutsideDead(s: State, a: Action)
    requires Enabled(s, a) && Lost(s) && (a.Unlink? || a.Replace? || a.LinkElsewhere? || a.MoveBack? || a.Remount?)
    ensures Dead(s, Apply(s, a))
  {
  }

  lemma StepDead(s: State, t: State)
    requires Next(s, t) && Lost(s) && OwnerHistory(s)
    ensures Dead(s, t)
  {
    hide Effect, NextPhase, BumpStep, OwnerHistory, Lost, Dead, Move;
    var a :| Enabled(s, a) && t == Apply(s, a);
    match a
    case Acquire(p, unused) =>
      var phase := PhaseOf(s, p);
      EffectLost(s, phase, unused);
      EffectKeepsPhases(s, phase, unused);
      LostOwner(s);
      MoveDead(s, Effect(s, phase, unused), p, NextPhase(s, phase, unused));
    case Bump(p, cut) => BumpLost(s, p, PhaseOf(s, p).inode, cut); LostOwner(s); MoveDead(s, s, p, Idle);
    case Release(p) => LostOwner(s); MoveDead(s, s, p, Idle);
    case Crash(p) => LostOwner(s); MoveDead(s, s, p, Idle);
    case _ => OutsideDead(s, a);
  }

  lemma LostOwner(s: State)
    requires Lost(s)
    ensures s.owner.Some?
  {
  }

  lemma DeadTransitive(s: State, t: State, u: State)
    requires s.owner.Some? && Dead(s, t) && Dead(t, u)
    ensures Dead(s, u)
  {
  }

  /**
   Once the owned lock has lost all its names, no later acquisition completes and no later bump
   changes it: the protocol refuses to start over on another object.
   */
  lemma {:induction false} LostForever(states: seq<State>, j: nat, k: nat)
    requires Run(states) && j <= k < |states| && Lost(states[j])
    ensures Dead(states[j], states[k])
    decreases k
  {
    hide Next, Init, Inv;
    if j < k {
      LostForever(states, j, k - 1);
      RunInv(states, k - 1);
      InvParts(states[k - 1]);
      StepDead(states[k - 1], states[k]);
      DeadTransitive(states[j], states[k - 1], states[k]);
    }
  }
}
