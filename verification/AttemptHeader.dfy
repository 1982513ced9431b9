/** The numbers in the header of an attempt's summary are the numbers of entries their labels name. */
module AttemptHeader {
  import opened Bytes
  import opened Attempt
  import opened AttemptSummary

  /** The entries in a state, by position. */
  function In(entries: seq<Entry>, state: EntryState): set<nat> {
    set i: nat | i < |entries| && entries[i].state == state
  }

  /** The entries verified in this attempt rather than found present. */
  function FreshlyVerified(entries: seq<Entry>): set<nat> {
    set i: nat | i < |entries| && entries[i].state.EntryVerified? && !entries[i].alreadyPresent
  }

  function Shifted(s: set<nat>): set<nat> { set i | i in s :: i + 1 }

  lemma {:induction false} ShiftedSize(s: set<nat>)
    ensures |Shifted(s)| == |s|
  {
    if s != {} {
      var x :| x in s;
      ShiftedSize(s - {x});
      ShiftedOne(s, x);
    }
  }

  lemma InShifted(s: set<nat>, y: nat)
    ensures y in Shifted(s) <==> y > 0 && y - 1 in s
  {
    if y > 0 && y - 1 in s { assert y == y - 1 + 1; }
  }

  lemma ShiftedOne(s: set<nat>, x: nat)
    requires x in s
    ensures Shifted(s) == Shifted(s - {x}) + {x + 1} && x + 1 !in Shifted(s - {x})
  {
    hide Shifted;
    forall y: nat
      ensures y in Shifted(s) <==> y in Shifted(s - {x}) + {x + 1}
    {
      InShifted(s, y);
      InShifted(s - {x}, y);
    }
    InShifted(s - {x}, x + 1);
  }

  lemma {:induction false} CountIsSize(entries: seq<Entry>, state: EntryState)
    ensures CountState(entries, state) == |In(entries, state)|
  {
    if entries == [] {
      assert In(entries, state) == {};
    } else {
      hide In, Shifted;
      CountIsSize(entries[1..], state);
      ShiftedSize(In(entries[1..], state));
      ShiftedIn(entries, state);
    }
  }

  lemma ShiftedIn(entries: seq<Entry>, state: EntryState)
    requires entries != []
    ensures 0 !in Shifted(In(entries[1..], state))
    ensures In(entries, state) ==
            (if entries[0].state == state then {0} else {}) + Shifted(In(entries[1..], state))
  {
    forall i: nat | 0 < i < |entries| && entries[i].state == state
      ensures i in Shifted(In(entries[1..], state))
    {
      assert i - 1 in In(entries[1..], state);
    }
  }

  lemma {:induction false} CompletedIsSize(entries: seq<Entry>)
    ensures CountCompleted(entries) == |FreshlyVerified(entries)|
  {
    if entries == [] {
      assert FreshlyVerified(entries) == {};
    } else {
      CompletedIsSize(entries[1..]);
      ShiftedSize(FreshlyVerified(entries[1..]));
      var first := if entries[0].state.EntryVerified? && !entries[0].alreadyPresent then {0} else {};
      assert FreshlyVerified(entries) == first + Shifted(FreshlyVerified(entries[1..])) by { ShiftedFresh(entries); }
      assert first !! Shifted(FreshlyVerified(entries[1..]));
    }
  }

  lemma ShiftedFresh(entries: seq<Entry>)
    requires entries != []
    ensures forall i: nat :: i in FreshlyVerified(entries) <==>
              || (i == 0 && entries[0].state.EntryVerified? && !entries[0].alreadyPresent)
              || i in Shifted(FreshlyVerified(entries[1..]))
  {
    forall i: nat | 0 < i < |entries| && entries[i].state.EntryVerified? && !entries[i].alreadyPresent
      ensures i in Shifted(FreshlyVerified(entries[1..]))
    {
      assert i - 1 in FreshlyVerified(entries[1..]);
    }
  }

  /** How many entries are in each state, and how many of the verified ones were not found present. */
  datatype Numbers = Numbers(total: nat, completed: nat, verified: nat, failed: nat, downloading: nat, downloaded: nat,
                             pending: nat, interrupted: nat)

  function NumbersOf(e: seq<Entry>): (n: Numbers)
    ensures n.verified <= n.total
  {
    CountIsSize(e, EntryVerified);
    Numbers(|e|, |FreshlyVerified(e)|, |In(e, EntryVerified)|, |In(e, EntryFailed)|, |In(e, Downloading)|,
            |In(e, Downloaded)|, |In(e, Pending)|, |In(e, EntryInterrupted)|)
  }

  function IndependentText(n: Numbers, present: nat): string
    requires n.verified <= n.total
  {
    Labeled("\nEpisodes: ", n.total) + (Labeled("\nCompleted: ", n.completed)
    + (Labeled("; already present: ", present) + (Labeled("; remaining: ", n.total - n.verified)
    + (Labeled("\nFailed: ", n.failed) + (Labeled("; in progress: ", n.downloading + n.downloaded)
    + (Labeled("; waiting: ", n.pending) + (Labeled("; paused: ", n.interrupted)
    + (if n.downloaded == 0 then ""
       else Labeled("\nAwaiting merge, publication or verification: ", n.downloaded)))))))))
  }

  function SequentialText(n: Numbers, present: nat): string {
    Labeled("\nSelected: ", n.total) + (Labeled("; skipped/already present: ", present)
    + (Labeled("\nDownloaded pending mux/publication/verification: ", n.downloaded)
    + (Labeled("; verified: ", n.verified) + (Labeled("\nFailed: ", n.failed)
    + (Labeled("; not started: ", n.pending) + (Labeled("; interrupted: ", n.interrupted)
    + Labeled("; running: ", n.downloading)))))))
  }

  /** Every number the header shows is the number of entries in the states its label names. */
  lemma HeaderShows(s: Snapshot, title: string)
    ensures var n := NumbersOf(s.entries);
            Header(s, title) ==
            TruncateText(title, TITLE_MAX_BYTES)
            + ((if s.independent then IndependentText(n, s.skipped) else SequentialText(n, s.skipped))
               + OutcomeText(s.outcome))
  {
    hide Labeled, CountState, TruncateText, OutcomeText, In, FreshlyVerified, CountCompleted;
    CountIsSize(s.entries, EntryVerified);
    CountIsSize(s.entries, EntryFailed);
    CountIsSize(s.entries, Downloading);
    CountIsSize(s.entries, Downloaded);
    CountIsSize(s.entries, Pending);
    CountIsSize(s.entries, EntryInterrupted);
    CompletedIsSize(s.entries);
  }
}
