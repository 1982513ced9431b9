/** The credential store while one process holds the lock: the uninterrupted code paths. */
module AuthStore {
  import opened Bytes
  import opened EpochSlots
  import opened EpochFile
  import opened EpochLock
  import opened EpochPlacement
  import opened AuthTransactions

  /** A placed lock file with two epochs to spare. */
  predicate Spare(f: File) { Placed(f) && ReadEpoch(f).Ok? && ReadEpoch(f).value < U64_MAX - 1 }

  class CredentialStore {
    const lock: AuthLockFile
    const device: nat
    /** Whether the directory of the process's state path exists, and the config files it has in use. */
    const bound: bool
    const inUse: set<nat>
    var profiles: map<Profile, Credentials>
    var defaultProfile: Profile
    var legacy: set<nat>
    var intent: Option<Intent>

    constructor (device: nat, bound: bool, inUse: set<nat>, profiles: map<Profile, Credentials>,
                 defaultProfile: Profile, legacy: set<nat>)
      ensures this.bound == bound && this.inUse == inUse
      ensures fresh(lock) && this.device == device && this.profiles == profiles && this.legacy == legacy
      ensures this.defaultProfile == defaultProfile && intent.None?
    {
      lock := new AuthLockFile();
      this.device := device;
      this.bound, this.inUse := bound, inUse;
      this.profiles := profiles;
      this.defaultProfile := defaultProfile;
      this.legacy := legacy;
      intent := None;
    }

    /** The legacy files a cleanup leaves: those in use, and all of them without a directory. */
    function Kept(): set<nat>
      reads this`legacy
    {
      if bound then legacy * inUse else legacy
    }

    method DeleteLegacyState() returns (removed: bool)
      modifies this`legacy
      ensures legacy == old(Kept()) && removed == (old(legacy) != legacy)
    {
      removed := false;
      if !bound { return; }
      var rest := legacy;
      while rest != {}
        invariant rest <= old(legacy)
        invariant legacy == rest + (old(legacy) - rest) * inUse
        invariant removed == (legacy != old(legacy))
      {
        var file :| file in rest;
        rest := rest - {file};
        if file !in inUse {
          legacy := legacy - {file};
          removed := true;
        }
      }
    }

    /** Finishes a recorded logout; an intent of another or unreadable lock fails and changes nothing. */
    method RecoverPendingLogout() returns (recovered: Result<bool>)
      modifies this`legacy, this`profiles, this`intent
      ensures match old(intent)
              case None => recovered == Ok(false) && intent.None? && profiles == old(profiles) && legacy == old(legacy)
              case Some(pending) =>
                if ReadEpoch(lock.bytes).Err? || pending.device != device then
                  recovered.Err? && intent == old(intent) && profiles == old(profiles) && legacy == old(legacy)
                else
                  && recovered == Ok(true) && intent.None? && legacy == old(Kept())
                  && profiles == old(profiles) - {pending.profile}
    {
      if intent.None? { return Ok(false); }
      var current := lock.CurrentEpoch();
      if current.Err? || intent.value.device != device { return Err; }
      var removed := DeleteLegacyState();
      profiles := profiles - {intent.value.profile};
      intent := None;
      recovered := Ok(true);
    }

    /** Whether a recorded logout can be finished before the transaction. */
    predicate Recovers()
      reads this, lock
    {
      intent.Some? && ReadEpoch(lock.bytes).Ok? && intent.value.device == device
    }

    /**
     The prologue of every transaction: recovery, the expected epoch, the durable bump. A recorded
     logout that can be finished is finished even when the transaction fails afterwards.
     */
    method BeginTransaction(expected: Option<AuthEpoch>, cleaned: bool) returns (epoch: Result<u64>)
      modifies this`legacy, this`profiles, this`intent, lock
      ensures epoch.Ok? ==>
                && intent.None? && epoch.value > 0 && ReadEpoch(lock.bytes) == epoch
                && (expected.Some? ==> expected.value.device == device && epoch.value == expected.value.value + 1)
      ensures if old(Recovers()) then
                intent.None? && legacy == old(Kept()) && profiles == old(profiles) - {old(intent).value.profile}
              else intent == old(intent) && legacy == old(legacy) && profiles == old(profiles)
      ensures old(intent).Some? && !old(Recovers()) ==> epoch.Err? && lock.bytes == old(lock.bytes)
      ensures old(intent).None? && !cleaned && expected.Some?
              && ReadEpoch(old(lock.bytes)) != Ok(expected.value.value) ==>
                epoch.Err? && lock.bytes == old(lock.bytes)
      ensures Spare(old(lock.bytes)) && (old(intent).None? || old(Recovers())) ==>
                  var recorded := ReadEpoch(old(lock.bytes)).value;
                  var current := if old(intent).Some? || cleaned then recorded + 1 else recorded;
                  && Placed(lock.bytes)
                  && (epoch.Ok? <==> expected.None? || expected == Some(AuthEpoch(current, device)))
                  && (epoch.Ok? ==> epoch.value == current + 1)
                  && ReadEpoch(lock.bytes) == Ok(if epoch.Ok? then current + 1 else current)
    {
      hide BumpAttempt, ReadEpoch, Placed;
      BumpPlaced(lock.bytes);
      var recovered := RecoverPendingLogout();
      if recovered.Err? { return Err; }
      if recovered.value || cleaned {
        var bumped := lock.BumpEpoch();
        if bumped.Err? { return Err; }
        BumpPlaced(lock.bytes);
      }
      if expected.Some? {
        var current := lock.CurrentEpoch();
        if current != Ok(expected.value.value) || expected.value.device != device { return Err; }
      }
      epoch := lock.BumpEpoch();
    }

    /**
     The whole logout. It succeeds exactly when its transaction starts; otherwise nothing is removed
     but what a recorded logout still had to remove.
     */
    method Logout(selection: Option<Profile>) returns (epoch: Result<u64>, profile: Profile)
      modifies this`legacy, this`profiles, this`intent, lock
      ensures profile == (if selection.Some? then selection.value else defaultProfile)
      ensures var before := if old(Recovers()) then old(profiles) - {old(intent).value.profile} else old(profiles);
              if epoch.Ok? then intent.None? && legacy == old(Kept()) && profiles == before - {profile}
              else
                && profiles == before
                && intent == (if old(Recovers()) then None else old(intent))
                && legacy == (if old(Recovers()) then old(Kept()) else old(legacy))
      ensures Spare(old(lock.bytes)) ==>
                  var recorded := ReadEpoch(old(lock.bytes)).value;
                  && Placed(lock.bytes) && ReadEpoch(lock.bytes) == (if epoch.Ok? then epoch else Ok(recorded))
                  && (epoch.Ok? <==> old(intent).None? || old(intent).value.device == device)
                  && (epoch.Ok? ==> epoch.value == recorded + (if old(intent).Some? then 2 else 1))
    {
      hide ReadEpoch, Placed;
      epoch := BeginTransaction(None, false);
      profile := if selection.Some? then selection.value else defaultProfile;
      if epoch.Ok? {
        intent := Some(Intent(device, profile));
        var removed := DeleteLegacyState();
        profiles := profiles - {profile};
        intent := None;
      }
    }
  }

  /** A completed bump of a placed file. */
  lemma BumpPlaced(f: File)
    ensures Placed(f) ==> ReadEpoch(f).Ok?
    ensures Placed(f) && ReadEpoch(f) != Ok(U64_MAX) ==>
              Placed(BumpAttempt(f, SLOT_SIZE)) && ReadEpoch(BumpAttempt(f, SLOT_SIZE)) == Ok(ReadEpoch(f).value + 1)
  {
    hide BumpAttempt, ReadEpoch, Placed;
    if Placed(f) {
      PlacedReads(f);
      AttemptKeeps(f, ReadEpoch(f).value, SLOT_SIZE);
    }
  }
}
