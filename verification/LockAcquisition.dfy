/**
 A process left alone acquires the lock: the protocol repairs a missing name, completes what a dead
 process began, and does not get stuck.
 */
module LockAcquisition {
  import opened Bytes
  import opened EpochSlots
  import opened EpochLog
  import opened EpochFile
  import opened EpochPlacement
  import opened LockIdentity

  ghost predicate SoloStep(s: State, t: State, p: Pid) {
    exists unused :: Enabled(s, Acquire(p, unused)) && t == AcquireStep(s, p, unused)
  }

  /** Consecutive states in which only this process moves, and only to acquire the lock. */
  ghost predicate Solo(states: seq<State>, p: Pid) {
    |states| > 0 && forall k :: 0 <= k < |states| - 1 ==> SoloStep(states[k], states[k + 1], p)
  }

  lemma StillFree(s: State, p: Pid, phase: Phase, i: Inode)
    requires !LockTaken(s, i) && LockedInode(phase).None?
    ensures !LockTaken(Move(s, p, phase), i)
  {
  }

  /** What acquiring leaves: both names on the inode, the record naming it, the lock held. */
  function Acquired(s: State, p: Pid, i: Inode): State {
    s.(primary := Some(i), anchor := Some(i), owner := Some(Owner(s.device, i)), procs := s.procs[p := Held(i)])
  }

  /** The owned lock can be acquired: one of its names is left, nothing else has them, nobody holds it. */
  predicate Acquirable(s: State) {
    && s.owner.Some?
    && var i := s.owner.value.inode;
       && (s.primary == Some(i) || s.anchor == Some(i)) && s.extra[i] == 0
       && (s.primary.Some? ==> s.primary == Some(i)) && (s.anchor.Some? ==> s.anchor == Some(i))
       && i in s.content && FormatValid(s.content[i]) && !LockTaken(s, i)
  }

  // ---- the steps one by one ----

  /** From a state in which p has come as far as x, its next step leads to y over the disk of `after`. */
  predicate Leads(s: State, p: Pid, x: Phase, after: State, y: Phase, unused: Inode) {
    Enabled(Move(s, p, x), Acquire(p, unused)) && AcquireStep(Move(s, p, x), p, unused) == Move(after, p, y)
  }

  lemma MoveAgain(s: State, p: Pid, x: Phase, y: Phase)
    ensures Move(Move(s, p, x), p, y) == Move(s, p, y)
  {
    assert s.procs[p := x][p := y] == s.procs[p := y];
  }

  /** A step that leaves the disk alone. */
  lemma Passes(s: State, p: Pid, x: Phase, y: Phase, unused: Inode)
    requires Enabled(Move(s, p, x), Acquire(p, unused))
    requires NextPhase(Move(s, p, x), x, unused) == y
    requires !x.AliasesSeen? || s.anchor.Some? || s.primary.Some?
    requires !x.Formatted? && !x.Aliased?
    ensures Leads(s, p, x, s, y, unused)
  {
    hide NextPhase, Enabled;
    MoveAgain(s, p, x, y);
  }

  lemma Locks(s: State, p: Pid, seen: bool, i: Inode, unused: Inode)
    requires unused !in s.content && !LockTaken(s, i)
    ensures Leads(s, p, Opened(seen, i), s, Locked(seen, i), unused)
  {
    hide LockTaken;
    StillFree(s, p, Opened(seen, i), i);
    Passes(s, p, Opened(seen, i), Locked(seen, i), unused);
  }

  lemma Checks(s: State, p: Pid, seen: bool, i: Inode, unused: Inode)
    requires unused !in s.content && CandidateValid(s, i) && i in s.content && FormatValid(s.content[i])
    requires seen ==> s.owner.Some? && s.owner.value.inode == i
    ensures Leads(s, p, Locked(seen, i), s, Candidate(seen, i), unused)
    ensures Leads(s, p, Candidate(seen, i), s, OwnerMatched(i), unused)
    ensures Leads(s, p, OwnerMatched(i), s, Formatted(i), unused)
  {
    hide FormatValid, Leads;
    Passes(s, p, Locked(seen, i), Candidate(seen, i), unused);
    Passes(s, p, Candidate(seen, i), OwnerMatched(i), unused);
    Passes(s, p, OwnerMatched(i), Formatted(i), unused);
  }

  lemma Relinks(s: State, p: Pid, i: Inode, unused: Inode)
    requires unused !in s.content && CandidateValid(s, i)
    ensures Leads(s, p, Formatted(i), s.(primary := Some(i), anchor := Some(i)), Linked(i), unused)
  {
    hide FormatValid;
    MoveAgain(s.(primary := Some(i), anchor := Some(i)), p, Formatted(i), Linked(i));
  }

  lemma Identifies(s: State, p: Pid, i: Inode, unused: Inode)
    requires unused !in s.content && IdentityValid(s, i)
    ensures Leads(s, p, Linked(i), s, Aliased(i), unused)
  {
    hide FormatValid;
    Passes(s, p, Linked(i), Aliased(i), unused);
  }

  lemma Records(s: State, p: Pid, i: Inode, unused: Inode)
    requires unused !in s.content && i in s.content && (s.owner.Some? ==> s.owner.value.inode == i)
    ensures var recorded := s.(owner := Some(Owner(s.device, i)));
            Leads(s, p, Aliased(i), if s.owner.Some? then recorded else recorded.(origin := s.content[i], cuts := []),
                  Owned(i), unused)
  {
    hide FormatValid;
    MoveAgain(s.(owner := Some(Owner(s.device, i))), p, Aliased(i), Owned(i));
    MoveAgain(s.(owner := Some(Owner(s.device, i)), origin := s.content[i], cuts := []), p, Aliased(i), Owned(i));
  }

  lemma Binds(s: State, p: Pid, i: Inode, unused: Inode)
    requires unused !in s.content && BindingValid(s, i)
    ensures Leads(s, p, Owned(i), s, Held(i), unused)
  {
    hide FormatValid;
    Passes(s, p, Owned(i), Held(i), unused);
  }

  lemma Advance(states: seq<State>, p: Pid, s: State, x: Phase, after: State, y: Phase,
                unused: Inode) returns (longer: seq<State>)
    requires Solo(states, p) && states[|states| - 1] == Move(s, p, x) && Leads(s, p, x, after, y, unused)
    ensures longer == states + [Move(after, p, y)] && Solo(longer, p)
  {
    hide AcquireStep, Enabled, Move;
    longer := states + [Move(after, p, y)];
    forall k | 0 <= k < |longer| - 1
      ensures SoloStep(longer[k], longer[k + 1], p)
    {
      if k < |states| - 1 { assert SoloStep(states[k], states[k + 1], p); }
    }
  }

  lemma Begins(s: State, p: Pid, unused: Inode) returns (states: seq<State>)
    requires PhaseOf(s, p).Idle? && unused !in s.content
    ensures Solo(states, p) && states == [s, Move(s, p, Started(s.owner.Some?))]
  {
    states := [s, Move(s, p, Started(s.owner.Some?))];
    assert Enabled(s, Acquire(p, unused));
    assert states[1] == AcquireStep(states[0], p, unused);
  }

  /** From the lock file opened, eight steps hold it. */
  lemma OpenedIsAcquired(states: seq<State>, p: Pid, s: State, seen: bool, i: Inode,
                         unused: Inode) returns (longer: seq<State>)
    requires Solo(states, p) && states[|states| - 1] == Move(s, p, Opened(seen, i))
    requires unused !in s.content && !LockTaken(s, i) && CandidateValid(s, i)
    requires i in s.content && FormatValid(s.content[i])
    requires (seen <==> s.owner.Some?) && (seen ==> s.owner.value.inode == i)
    ensures Solo(longer, p) && |longer| == |states| + 8 && longer[..|states|] == states
    ensures longer[|longer| - 1] == Acquired(if seen then s else s.(origin := s.content[i], cuts := []), p, i)
  {
    hide Solo, Leads, LockTaken, FormatValid;
    Locks(s, p, seen, i, unused);
    Checks(s, p, seen, i, unused);
    Relinks(s, p, i, unused);
    var linked := s.(primary := Some(i), anchor := Some(i));
    Identifies(linked, p, i, unused);
    Records(linked, p, i, unused);
    var recorded := linked.(owner := Some(Owner(s.device, i)));
    if !seen { recorded := recorded.(origin := s.content[i], cuts := []); }
    Binds(recorded, p, i, unused);
    longer := Advance(states, p, s, Opened(seen, i), s, Locked(seen, i), unused);
    longer := Advance(longer, p, s, Locked(seen, i), s, Candidate(seen, i), unused);
    longer := Advance(longer, p, s, Candidate(seen, i), s, OwnerMatched(i), unused);
    longer := Advance(longer, p, s, OwnerMatched(i), s, Formatted(i), unused);
    longer := Advance(longer, p, s, Formatted(i), linked, Linked(i), unused);
    longer := Advance(longer, p, linked, Linked(i), linked, Aliased(i), unused);
    longer := Advance(longer, p, linked, Aliased(i), recorded, Owned(i), unused);
    longer := Advance(longer, p, recorded, Owned(i), recorded, Held(i), unused);
  }

  // ---- the theorems ----

  /**
   With the owner record present and at least one name left, eleven steps lead to the lock held on
   the recorded inode, with the other name restored, a record of the present device, and not a byte
   or anything else changed.
   */
  lemma OwnedLockIsAcquired(s: State, p: Pid, unused: Inode) returns (states: seq<State>)
    requires Acquirable(s) && PhaseOf(s, p).Idle? && unused !in s.content
    ensures Solo(states, p) && |states| == 12 && states[0] == s
    ensures states[11] == Acquired(s, p, s.owner.value.inode)
  {
    hide FormatValid, Solo, LockTaken, Leads;
    var i := s.owner.value.inode;
    states := Begins(s, p, unused);
    Passes(s, p, Started(true), AliasesSeen(true), unused);
    Passes(s, p, AliasesSeen(true), Opened(true, i), unused);
    states := Advance(states, p, s, Started(true), s, AliasesSeen(true), unused);
    states := Advance(states, p, s, AliasesSeen(true), s, Opened(true, i), unused);
    states := OpenedIsAcquired(states, p, s, true, i, unused);
  }

  /** Without any name and without a record, eleven steps create the lock, its names and the record. */
  lemma FirstLockIsAcquired(s: State, p: Pid, created: Inode, unused: Inode) returns (states: seq<State>)
    requires NamesKnown(s) && s.owner.None? && s.primary.None? && s.anchor.None?
    requires PhaseOf(s, p).Idle? && created !in s.content && unused !in s.content && created != unused
    ensures Solo(states, p) && |states| == 12 && states[0] == s
    ensures states[11]
         == Acquired(s.(content := s.content[created := HEADER], origin := HEADER, cuts := []), p, created)
  {
    hide FormatValid, Solo, LockTaken, Leads, NamesKnown;
    NobodyHolds(s, created);
    NewLockIsValid();
    var made := s.(primary := Some(created), content := s.content[created := HEADER]);
    SameLocks(s, made, created);
    states := Begins(s, p, unused);
    Passes(s, p, Started(false), AliasesSeen(false), unused);
    Creates(s, p, created);
    states := Advance(states, p, s, Started(false), s, AliasesSeen(false), unused);
    states := Advance(states, p, s, AliasesSeen(false), made, Opened(false, created), created);
    states := OpenedIsAcquired(states, p, made, false, created, unused);
  }

  /**
   A lock that has names but no record yet, as an older installation or a first acquisition that died
   leaves it: eleven steps complete it, and its contents at that moment become the record's origin.
   */
  lemma NamedLockIsAcquired(s: State, p: Pid, i: Inode, unused: Inode) returns (states: seq<State>)
    requires s.owner.None? && CandidateValid(s, i) && i in s.content && FormatValid(s.content[i])
    requires !LockTaken(s, i) && PhaseOf(s, p).Idle? && unused !in s.content
    ensures Solo(states, p) && |states| == 12 && states[0] == s
    ensures states[11] == Acquired(s.(origin := s.content[i], cuts := []), p, i)
  {
    hide FormatValid, Solo, LockTaken, Leads;
    states := Begins(s, p, unused);
    Passes(s, p, Started(false), AliasesSeen(false), unused);
    Passes(s, p, AliasesSeen(false), Opened(false, i), unused);
    states := Advance(states, p, s, Started(false), s, AliasesSeen(false), unused);
    states := Advance(states, p, s, AliasesSeen(false), s, Opened(false, i), unused);
    states := OpenedIsAcquired(states, p, s, false, i, unused);
  }

  lemma Creates(s: State, p: Pid, created: Inode)
    requires s.owner.None? && s.primary.None? && s.anchor.None? && created !in s.content
    ensures var made := s.(primary := Some(created), content := s.content[created := HEADER]);
            Leads(s, p, AliasesSeen(false), made, Opened(false, created), created)
  {
    hide FormatValid;
    MoveAgain(s.(primary := Some(created), content := s.content[created := HEADER]), p, AliasesSeen(false),
              Opened(false, created));
  }

  lemma NobodyHolds(s: State, i: Inode)
    requires NamesKnown(s) && i !in s.content
    ensures !LockTaken(s, i) && s.extra[i] == 0
  {
    assert i !in s.extra;
  }

  lemma SameLocks(s: State, t: State, i: Inode)
    requires t.procs == s.procs && !LockTaken(s, i)
    ensures !LockTaken(t, i)
  {
  }

  lemma NewLockIsValid()
    ensures FormatValid(HEADER)
  {
    hide LogEpoch, ValidLength, TailValid;
    HeaderIsBase();
    var start := FormatValidBase(HEADER);
  }

  // ---- what an acquisition leaves alone ----

  /** When a process left alone is to succeed: what it finds must be the recorded lock, and sound. */
  predicate MayAcquire(s: State) {
    match LockOf(s)
    case None => s.owner.None?
    case Some(i) =>
      && CandidateValid(s, i) && i in s.content && FormatValid(s.content[i])
      && (s.owner.Some? ==> s.owner.value.inode == i)
  }

  /** The inode an opening process finds. */
  function LockOf(s: State): Option<Inode> { if s.anchor.Some? then s.anchor else s.primary }

  lemma NoNames(s: State, p: Pid, unused: Inode) returns (states: seq<State>)
    requires LockOf(s).None? && s.owner.Some? && PhaseOf(s, p).Idle? && unused !in s.content
    ensures Solo(states, p) && |states| == 3 && states[0] == s && states[2] == Move(s, p, Idle)
  {
    hide Solo, Leads;
    states := Begins(s, p, unused);
    Passes(s, p, Started(true), Idle, unused);
    states := Advance(states, p, s, Started(true), s, Idle, unused);
  }

  lemma Finds(s: State, p: Pid, i: Inode, unused: Inode) returns (states: seq<State>)
    requires LockOf(s) == Some(i) && !LockTaken(s, i) && PhaseOf(s, p).Idle? && unused !in s.content
    ensures Solo(states, p) && |states| == 5 && states[0] == s
    ensures states[4] == Move(s, p, Locked(s.owner.Some?, i))
  {
    hide Solo, Leads, LockTaken;
    var seen := s.owner.Some?;
    states := Begins(s, p, unused);
    Passes(s, p, Started(seen), AliasesSeen(seen), unused);
    Passes(s, p, AliasesSeen(seen), Opened(seen, i), unused);
    Locks(s, p, seen, i, unused);
    states := Advance(states, p, s, Started(seen), s, AliasesSeen(seen), unused);
    states := Advance(states, p, s, AliasesSeen(seen), s, Opened(seen, i), unused);
    states := Advance(states, p, s, Opened(seen, i), s, Locked(seen, i), unused);
  }

  lemma GivesUp(s: State, p: Pid, i: Inode, unused: Inode) returns (states: seq<State>)
    requires LockOf(s) == Some(i) && !LockTaken(s, i) && !MayAcquire(s) && i in s.content
    requires PhaseOf(s, p).Idle? && unused !in s.content
    ensures Solo(states, p) && 5 < |states| <= 8 && states[0] == s && states[|states| - 1] == Move(s, p, Idle)
  {
    hide Solo, Leads, LockTaken, FormatValid;
    var seen := s.owner.Some?;
    states := Finds(s, p, i, unused);
    if !CandidateValid(s, i) {
      Passes(s, p, Locked(seen, i), Idle, unused);
      states := Advance(states, p, s, Locked(seen, i), s, Idle, unused);
    } else {
      Passes(s, p, Locked(seen, i), Candidate(seen, i), unused);
      states := Advance(states, p, s, Locked(seen, i), s, Candidate(seen, i), unused);
      if seen && s.owner.value.inode != i {
        Passes(s, p, Candidate(seen, i), Idle, unused);
        states := Advance(states, p, s, Candidate(seen, i), s, Idle, unused);
      } else {
        Passes(s, p, Candidate(seen, i), OwnerMatched(i), unused);
        Passes(s, p, OwnerMatched(i), Idle, unused);
        states := Advance(states, p, s, Candidate(seen, i), s, OwnerMatched(i), unused);
        states := Advance(states, p, s, OwnerMatched(i), s, Idle, unused);
      }
    }
  }

  /**
   A process left alone either holds the lock with both names on it, or gives up having changed
   nothing: no name, no byte and no record. It succeeds exactly when it finds no lock and no record,
   or a sound lock that is the recorded one if there is a record.
   */
  lemma AloneDecides(s: State, p: Pid, created: Inode, unused: Inode) returns (states: seq<State>)
    requires NamesKnown(s) && PhaseOf(s, p).Idle? && (LockOf(s).Some? ==> !LockTaken(s, LockOf(s).value))
    requires created !in s.content && unused !in s.content && created != unused
    ensures Solo(states, p) && |states| > 1 && states[0] == s
    ensures var t := states[|states| - 1];
            if !MayAcquire(s) then t == Move(s, p, Idle)
            else if s.owner.Some? then t == Acquired(s, p, s.owner.value.inode)
            else if LockOf(s).Some? then
              t == Acquired(s.(origin := s.content[LockOf(s).value], cuts := []), p, LockOf(s).value)
            else t == Acquired(s.(content := s.content[created := HEADER], origin := HEADER, cuts := []), p, created)
  {
    hide FormatValid, LockTaken, Solo;
    match LockOf(s)
    case None =>
      if s.owner.Some? { states := NoNames(s, p, unused); }
      else { states := FirstLockIsAcquired(s, p, created, unused); }
    case Some(i) =>
      if !MayAcquire(s) { states := GivesUp(s, p, i, unused); }
      else if s.owner.Some? { states := OwnedLockIsAcquired(s, p, unused); }
      else { states := NamedLockIsAcquired(s, p, i, unused); }
  }

  /**
   There is a record, and every process under way has read it: it has compared what it opened before
   it goes on to the names.
   */
  predicate Informed(s: State) {
    s.owner.Some? && forall p :: p in s.procs ==> InformedPhase(s.procs[p], s.owner.value.inode)
  }

  predicate InformedPhase(phase: Phase, recorded: Inode) {
    match phase
    case Idle => true
    case Started(seen) => seen
    case AliasesSeen(seen) => seen
    case Opened(seen, _) => seen
    case Locked(seen, _) => seen
    case Candidate(seen, _) => seen
    case _ => phase.inode == recorded
  }

  /** No name is taken from an inode or given to another than the recorded one; nothing else changes. */
  predicate OnlyRestores(s: State, t: State) {
    && s.owner.Some? && t.owner.Some? && t.owner.value.inode == s.owner.value.inode
    && t.content == s.content && t.extra == s.extra && t.origin == s.origin && t.cuts == s.cuts
    && (t.primary == s.primary || (s.primary.None? && t.primary == Some(s.owner.value.inode)))
    && (t.anchor == s.anchor || (s.anchor.None? && t.anchor == Some(s.owner.value.inode)))
  }

  lemma InformedAcquires(s: State, p: Pid, unused: Inode)
    requires Informed(s) && Enabled(s, Acquire(p, unused))
    ensures OnlyRestores(s, AcquireStep(s, p, unused)) && Informed(AcquireStep(s, p, unused))
  {
    hide FormatValid, LockTaken;
  }

  lemma MovedInformed(s: State, t: State, p: Pid, phase: Phase)
    requires Informed(s) && t.owner == s.owner && t.procs == s.procs[p := phase]
    requires InformedPhase(phase, s.owner.value.inode)
    ensures Informed(t)
  {
    hide InformedPhase;
  }

  lemma BumpProcs(s: State, p: Pid, i: Inode, cut: Cut)
    ensures var t := BumpStep(s, p, i, cut);
            t.owner == s.owner && (t.procs == s.procs || t.procs == s.procs[p := Idle])
  {
    hide BumpAttempt, BindingValid;
  }

  lemma SameInformed(s: State, t: State)
    requires Informed(s) && t.owner == s.owner && t.procs == s.procs
    ensures Informed(t)
  {
    hide InformedPhase;
  }

  lemma StaysInformed(s: State, t: State)
    requires Informed(s) && Next(s, t)
    ensures Informed(t)
  {
    hide FormatValid, LockTaken, AcquireStep, BumpStep, InformedPhase, Informed;
    var a :| Enabled(s, a) && t == Apply(s, a);
    assert s.owner.Some? by { HasOwner(s); }
    IdleIsInformed(s.owner.value.inode);
    match a
    case Acquire(p, unused) => InformedAcquires(s, p, unused);
    case Bump(p, cut) =>
      BumpProcs(s, p, PhaseOf(s, p).inode, cut);
      if t.procs == s.procs { SameInformed(s, t); } else { MovedInformed(s, t, p, Idle); }
    case Release(p) => MovedInformed(s, t, p, Idle);
    case Crash(p) => MovedInformed(s, t, p, Idle);
    case _ => SameInformed(s, t);
  }

  lemma HasOwner(s: State)
    requires Informed(s)
    ensures s.owner.Some?
  {
    hide InformedPhase;
  }

  lemma IdleIsInformed(recorded: Inode)
    ensures InformedPhase(Idle, recorded)
  {
  }

  lemma {:induction false} RunInformed(states: seq<State>, j: nat, k: nat)
    requires Run(states) && j <= k < |states| && Informed(states[j])
    ensures Informed(states[k])
    decreases k - j
  {
    hide Informed, Next;
    if j < k {
      RunInformed(states, j, k - 1);
      StaysInformed(states[k - 1], states[k]);
    }
  }

  /**
   Once the record exists and the processes that began before it are gone, no acquisition of a run
   ever touches a foreign lock, whatever outsiders do to the names meanwhile: a name is only restored,
   and only to the recorded inode, and no lock is created.
   */
  lemma ForeignLockUntouched(states: seq<State>, j: nat, k: nat, p: Pid, unused: Inode)
    requires Run(states) && j <= k < |states| && states[j].owner.Some?
    requires forall q :: q in states[j].procs ==> states[j].procs[q].Idle?
    requires Enabled(states[k], Acquire(p, unused))
    ensures OnlyRestores(states[k], Apply(states[k], Acquire(p, unused)))
    ensures states[k].owner.value.inode == states[j].owner.value.inode
  {
    hide Run, Enabled, OnlyRestores, AcquireStep;
    RunInformed(states, j, k);
    InformedAcquires(states[k], p, unused);
    RunOwnerFixed(states, j, k);
  }

  /** Who has acquired a placed lock can bump it, and goes on holding it. */
  lemma AcquiredBumps(s: State, p: Pid, i: Inode, epoch: u64)
    requires i in s.content && Placed(s.content[i]) && ReadEpoch(s.content[i]) == Ok(epoch) && epoch < U64_MAX
    requires s.extra[i] == 0
    ensures var held := Acquired(s, p, i);
            var t := Apply(held, Bump(p, SLOT_SIZE));
            && Enabled(held, Bump(p, SLOT_SIZE)) && PhaseOf(t, p) == Held(i)
            && ReadEpoch(t.content[i]) == Ok(epoch + 1) && t.cuts == s.cuts + [SLOT_SIZE]
            && t == held.(content := t.content, cuts := t.cuts)
            && forall j :: j in s.content && j != i ==> t.content[j] == s.content[j]
  {
    hide Placed, ReadEpoch, BumpAttempt;
    AttemptKeeps(s.content[i], epoch, SLOT_SIZE);
  }

  // ---- whatever dies ----

  predicate Refers(s: State, i: Option<Inode>) {
    forall p :: p in s.procs && TargetInode(s.procs[p]).Some? ==> TargetInode(s.procs[p]) == i
  }

  /** There is no lock yet, or all names, the record and every process mean the same sound file. */
  predicate Intact(s: State) {
    && NamesKnown(s) && Refers(s, LockOf(s)) && (s.owner.Some? ==> LockOf(s) == Some(s.owner.value.inode))
    && (LockOf(s).Some? ==> SoundLock(s, LockOf(s).value))
  }

  predicate SoundLock(s: State, i: Inode) {
    CandidateValid(s, i) && i in s.content && FormatValid(s.content[i]) && Placed(s.content[i])
  }

  /** A step of the processes themselves, dying included; nobody else touches the names. */
  ghost predicate OwnStep(s: State, t: State) {
    exists a :: Enabled(s, a) && (a.Acquire? || a.Bump? || a.Release? || a.Crash? || a.Remount?) && t == Apply(s, a)
  }

  lemma MoveIntact(s: State, p: Pid, phase: Phase)
    requires Intact(s) && (TargetInode(phase).Some? ==> TargetInode(phase) == LockOf(s))
    ensures Intact(Move(s, p, phase))
  {
    hide FormatValid, Placed;
  }

  lemma CreatedIntact(s: State, created: Inode)
    requires Intact(s) && LockOf(s).None? && created !in s.content
    ensures Intact(s.(primary := Some(created), content := s.content[created := HEADER]))
  {
    hide FormatValid, Placed, LogEpoch;
    NewLockIsValid();
    LogIsPlaced(HEADER);
    assert created !in s.extra;
  }

  lemma LinkedIntact(s: State, i: Inode)
    requires Intact(s) && LockOf(s) == Some(i)
    ensures Intact(s.(primary := Some(i), anchor := Some(i)))
  {
    hide FormatValid, Placed;
  }

  lemma RecordedIntact(s: State, i: Inode, origin: File, cuts: seq<Cut>)
    requires Intact(s) && LockOf(s) == Some(i)
    ensures Intact(s.(owner := Some(Owner(s.device, i)), origin := origin, cuts := cuts))
  {
    hide FormatValid, Placed;
  }

  lemma AcquireIntact(s: State, p: Pid, unused: Inode)
    requires Intact(s) && Enabled(s, Acquire(p, unused))
    ensures Intact(AcquireStep(s, p, unused))
  {
    hide FormatValid, Placed, Intact, LockTaken;
    var phase := PhaseOf(s, p);
    var next, after := NextPhase(s, phase, unused), Effect(s, phase, unused);
    IntactTarget(s, p);
    if phase.AliasesSeen? && LockOf(s).None? && next.Opened? {
      CreatedIntact(s, unused);
    } else if phase.Formatted? && next.Linked? {
      LinkedIntact(s, phase.inode);
    } else if phase.Aliased? && next.Owned? {
      RecordedIntact(s, phase.inode, after.origin, after.cuts);
    }
    MoveIntact(after, p, next);
  }

  lemma IntactTarget(s: State, p: Pid)
    requires Intact(s)
    ensures TargetInode(PhaseOf(s, p)).Some? ==> TargetInode(PhaseOf(s, p)) == LockOf(s)
    ensures LockOf(s).Some? ==> LockOf(s).value in s.content
  {
    hide FormatValid, Placed;
  }

  lemma WrittenIntact(s: State, i: Inode, bytes: File, cuts: seq<Cut>)
    requires Intact(s) && LockOf(s) == Some(i) && FormatValid(bytes) && Placed(bytes)
    ensures Intact(s.(content := s.content[i := bytes], cuts := cuts))
  {
    hide FormatValid, Placed;
  }

  lemma BumpSound(f: File, cut: Cut)
    requires FormatValid(f) && Placed(f)
    ensures FormatValid(BumpAttempt(f, cut)) && Placed(BumpAttempt(f, cut))
  {
    hide FormatValid, Placed, BumpAttempt, ReadEpoch;
    PlacedReads(f);
    AttemptKeeps(f, ReadEpoch(f).value, cut);
  }

  lemma BumpIntact(s: State, p: Pid, i: Inode, cut: Cut)
    requires Intact(s) && PhaseOf(s, p) == Held(i)
    ensures Intact(BumpStep(s, p, i, cut))
  {
    hide FormatValid, Placed, BindingValid, BumpAttempt, Intact, CandidateValid;
    IntactTarget(s, p);
    SoundContent(s, i);
    var bytes := BumpAttempt(s.content[i], cut);
    BumpSound(s.content[i], cut);
    WrittenIntact(s, i, bytes, s.cuts + [cut]);
    MoveIntact(s, p, Idle);
    MoveIntact(s.(content := s.content[i := bytes], cuts := s.cuts + [cut]), p, Idle);
  }

  lemma SoundContent(s: State, i: Inode)
    requires Intact(s) && LockOf(s) == Some(i)
    ensures i in s.content && FormatValid(s.content[i]) && Placed(s.content[i]) && CandidateValid(s, i)
    ensures s.owner.Some? ==> s.owner.value.inode == i
  {
    hide FormatValid, Placed;
  }

  lemma OwnStepIntact(s: State, t: State)
    requires Intact(s) && OwnStep(s, t)
    ensures Intact(t)
  {
    hide FormatValid, Placed, AcquireStep, BumpStep, LockTaken, Intact;
    var a :| Enabled(s, a) && (a.Acquire? || a.Bump? || a.Release? || a.Crash? || a.Remount?) && t == Apply(s, a);
    match a
    case Acquire(p, unused) => AcquireIntact(s, p, unused);
    case Bump(p, cut) => BumpIntact(s, p, PhaseOf(s, p).inode, cut);
    case Release(p) => MoveIntact(s, p, Idle);
    case Crash(p) => MoveIntact(s, p, Idle);
    case Remount(device) => RemountIntact(s, device);
  }

  lemma RemountIntact(s: State, device: nat)
    requires Intact(s)
    ensures Intact(s.(device := device))
  {
    hide FormatValid, Placed;
  }

  lemma {:induction false} StaysIntact(states: seq<State>)
    requires |states| > 0 && Intact(states[0])
    requires forall k :: 0 <= k < |states| - 1 ==> OwnStep(states[k], states[k + 1])
    ensures Intact(states[|states| - 1])
  {
    hide Intact, OwnStep;
    if |states| > 1 {
      var init := states[..|states| - 1];
      StaysIntact(init);
      assert OwnStep(init[|init| - 1], states[|init|]);
      OwnStepIntact(init[|init| - 1], states[|init|]);
    }
  }

  /**
   The lock never gets stuck. Let any processes acquire, bump, release and die in any interleaving,
   across remounts: as long as nobody else touches the names, an idle process left alone acquires the
   lock as soon as no one holds it. It is the same lock with the same bytes if there was one.
   */
  lemma AlwaysAcquirable(states: seq<State>, p: Pid, created: Inode, unused: Inode)
      returns (alone: seq<State>, i: Inode)
    requires |states| > 0 && Intact(states[0])
    requires forall k :: 0 <= k < |states| - 1 ==> OwnStep(states[k], states[k + 1])
    requires var s := states[|states| - 1];
             && PhaseOf(s, p).Idle? && (LockOf(s).Some? ==> !LockTaken(s, LockOf(s).value))
             && created !in s.content && unused !in s.content && created != unused
    ensures Solo(alone, p) && |alone| == 12 && alone[0] == states[|states| - 1]
    ensures var s, t := states[|states| - 1], alone[11];
            && PhaseOf(t, p) == Held(i) && t.primary == Some(i) && t.anchor == Some(i)
            && t.owner == Some(Owner(s.device, i))
            && (if LockOf(s).Some? then LockOf(s) == Some(i) && t.content == s.content
                else i == created && t.content == s.content[created := HEADER])
  {
    hide FormatValid, Placed, LockTaken, Solo, OwnStep, Intact;
    var s := states[|states| - 1];
    StaysIntact(states);
    if LockOf(s).None? {
      i := created;
      NoLockYet(s);
      alone := FirstLockIsAcquired(s, p, created, unused);
    } else {
      i := LockOf(s).value;
      SoundContent(s, i);
      if s.owner.Some? {
        alone := OwnedLockIsAcquired(s, p, unused);
      } else {
        alone := NamedLockIsAcquired(s, p, i, unused);
      }
    }
  }

  lemma NoLockYet(s: State)
    requires Intact(s) && LockOf(s).None?
    ensures NamesKnown(s) && s.owner.None?
  {
    hide NamesKnown;
  }
}
