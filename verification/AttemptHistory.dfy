/** What an attempt remembers over a whole run, through resumes, retries and new inventories. */
module AttemptHistory {
  import opened Bytes
  import opened Attempt
  import opened AttemptReconcile

  // ---- following an entry ----

  /** Where the entry at i stood before an operation; a new inventory takes entries over by identity. */
  function Before(s: Snapshot, op: Operation, i: nat): (r: Option<nat>)
    requires i < |Step(s, op).entries|
    ensures r.Some? ==> r.value < |s.entries|
  {
    if op.Reconcile? then Matched(s.entries, op.inventory, i)
    else
      StepKeepsHistory(s, op);
      Some(i)
  }

  /** Where the entry at i stood at the start of a run; nowhere when an inventory introduced it. */
  function Ancestor(s: Snapshot, ops: seq<Operation>, i: nat): (r: Option<nat>)
    requires i < |Run(s, ops).entries|
    ensures r.Some? ==> r.value < |s.entries|
  {
    if ops == [] then Some(i)
    else
      var init := ops[..|ops| - 1];
      var at := Before(Run(s, init), ops[|ops| - 1], i);
      if at.None? then None else Ancestor(s, init, at.value)
  }

  /** On its way the entry was verified by a download. */
  predicate VerifiedOnTheWay(s: Snapshot, ops: seq<Operation>, i: nat)
    requires i < |Run(s, ops).entries|
  {
    ops != [] &&
    var init, last := ops[..|ops| - 1], ops[|ops| - 1];
    var at := Before(Run(s, init), last, i);
    at.Some? && (Verifying(last, Run(s, init).entries[at.value].index) || VerifiedOnTheWay(s, init, at.value))
  }

  /** On its way an inventory asked for the entry to be downloaded again. */
  predicate RequestedOnTheWay(s: Snapshot, ops: seq<Operation>, i: nat)
    requires i < |Run(s, ops).entries|
  {
    ops != [] &&
    var init, last := ops[..|ops| - 1], ops[|ops| - 1];
    var at := Before(Run(s, init), last, i);
    || (last.Reconcile? && last.inventory[i].id in last.redownload)
    || (at.Some? && RequestedOnTheWay(s, init, at.value))
  }

  /** One operation, whatever it is: identity and attempts are kept, and marks come and go for a reason. */
  lemma StepFollows(s: Snapshot, op: Operation, i: nat)
    requires i < |Step(s, op).entries|
    ensures var at, e := Before(s, op, i), Step(s, op).entries[i];
            && (at.Some? ==>
                  var before := s.entries[at.value];
                  && before.id == e.id && before.attempts <= e.attempts
                  && (before.requiresRedownload ==> e.requiresRedownload || Verifying(op, before.index)))
            && (e.requiresRedownload ==>
                  (op.Reconcile? && op.inventory[i].id in op.redownload)
                   || (at.Some? && s.entries[at.value].requiresRedownload))
  {
    hide Matched, Step;
    if op.Reconcile? {
      ReconcileSize(s, op);
      PreservedExactly(s, op, i);
    } else {
      StepKeepsHistory(s, op);
      assert HistoryKept(s.entries[i], Step(s, op).entries[i], Verifying(op, s.entries[i].index));
    }
  }

  lemma ReconcileSize(s: Snapshot, op: Operation)
    requires op.Reconcile?
    ensures |Step(s, op).entries| == |op.inventory|
  {
  }

  /**
   Over any run, an entry that can be followed back keeps its identity, its attempts have not
   decreased, and its redownload mark is gone only if a download was verified on the way; a mark it
   carries was there before or was asked for by an inventory on the way.
   */
  lemma {:induction false} RunKeepsHistory(s: Snapshot, ops: seq<Operation>, i: nat)
    requires i < |Run(s, ops).entries|
    ensures var origin, e := Ancestor(s, ops, i), Run(s, ops).entries[i];
            && (origin.Some? ==>
                  var before := s.entries[origin.value];
                  && before.id == e.id && before.attempts <= e.attempts
                  && (before.requiresRedownload ==> e.requiresRedownload || VerifiedOnTheWay(s, ops, i)))
            && (e.requiresRedownload ==>
                  RequestedOnTheWay(s, ops, i) || (origin.Some? && s.entries[origin.value].requiresRedownload))
  {
    hide Step, Matched, Verifying, Before;
    if ops != [] {
      var init, last := ops[..|ops| - 1], ops[|ops| - 1];
      StepFollows(Run(s, init), last, i);
      var at := Before(Run(s, init), last, i);
      if at.Some? { RunKeepsHistory(s, init, at.value); }
    }
  }

  /** Two entries of a run never descend from the same one. */
  lemma {:induction false} AncestorsDiffer(s: Snapshot, ops: seq<Operation>, i: nat, j: nat)
    requires i < |Run(s, ops).entries| && j < |Run(s, ops).entries| && i != j
    ensures Ancestor(s, ops, i).Some? && Ancestor(s, ops, j).Some? ==> Ancestor(s, ops, i) != Ancestor(s, ops, j)
  {
    hide Step, Matched;
    if ops != [] {
      var init, last := ops[..|ops| - 1], ops[|ops| - 1];
      var before := Run(s, init);
      var a, b := Before(before, last, i), Before(before, last, j);
      if a.Some? && b.Some? {
        if last.Reconcile? {
          ReconcileSize(before, last);
          if i < j { MatchedOnce(before.entries, last.inventory, i, j); } else {
            MatchedOnce(before.entries, last.inventory, j, i);
          }
        }
        AncestorsDiffer(s, init, a.value, b.value);
      }
    }
  }

  // ---- the outcome ----

  predicate Reopens(op: Operation) { op.PrepareResume? || op.PrepareEpisodeRetry? || op.Reconcile? }

  /** Until an attempt is reopened its outcome stays, or is replaced by one of a strictly higher rank. */
  lemma {:induction false} OutcomeOnlyRises(s: Snapshot, ops: seq<Operation>)
    requires Inv(s) && s.outcome.Some? && forall k :: 0 <= k < |ops| ==> !Reopens(ops[k])
    ensures var t := Run(s, ops);
            && Inv(t) && t.outcome.Some?
            && (t.outcome == s.outcome || Rank(t.outcome.value) > Rank(s.outcome.value))
            && (t.outcome == s.outcome ==> t == s)
  {
    hide Inv, Step;
    if ops != [] {
      var init, last := ops[..|ops| - 1], ops[|ops| - 1];
      OutcomeOnlyRises(s, init);
      StepInv(Run(s, init), last);
      RisesOrStays(Run(s, init), last);
    }
  }

  lemma RisesOrStays(s: Snapshot, op: Operation)
    requires Inv(s) && s.outcome.Some? && !Reopens(op)
    ensures Step(s, op) == s || (Step(s, op).outcome.Some? && Rank(Step(s, op).outcome.value) > Rank(s.outcome.value))
  {
    hide Inv;
    if op.Finish? { FinishRaises(s, op.outcome); }
  }
}
