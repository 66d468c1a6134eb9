/**
 Execution and pickup claims against the table (zdrovena/common/shipping_store.py,
 try_claim_execution and try_claim_pickup): a read, then a merge that succeeds only if the ETag has
 not changed. One draft row; any number of claimers; any other write may come in between. The
 local-file claim is the special case in which the read and the merge are adjacent.
 */
module ShippingClaims {
  import opened Prelude
  import opened ShippingStores

  datatype Kind = Execution | Pickup

  datatype Claimer = Claimer(kind: Kind, seen: Option<Draft>, version: nat)

  datatype State = State(row: Option<Draft>, version: nat, claimers: map<int, Claimer>)

  datatype Step =
    | Read(p: int, kind: Kind)
    | Merge(p: int, now: string)
    | Crash(p: int)
    | Other(row: Option<Draft>)   // any other write: an update, a delete, a fresh upsert

  ghost predicate Enabled(s: State, step: Step) {
    match step
    case Read(p, _) => p !in s.claimers
    case Merge(p, now) => p in s.claimers && now != ""
    case Crash(p) => p in s.claimers
    case Other(_) => true
  }

  predicate Claimable(kind: Kind, d: Option<Draft>) {
    d.Some? && match kind case Execution => CanExecute(d.value.status) case Pickup => !d.value.pickupOrdered
  }

  function Claimed(kind: Kind, d: Draft, now: string): Draft {
    match kind
    case Execution => ExecutionClaimed(d, now)
    case Pickup => d.(pickupOrdered := true)
  }

  /** The claim this step makes is answered with True. */
  ghost predicate Wins(s: State, step: Step, kind: Kind) {
    step.Merge? && step.p in s.claimers
    && var c := s.claimers[step.p];
    c.kind == kind && Claimable(kind, c.seen) && c.version == s.version && s.row.Some?
  }

  ghost function Apply(s: State, step: Step): State
    requires Enabled(s, step)
  {
    match step
    case Read(p, kind) => s.(claimers := s.claimers[p := Claimer(kind, s.row, s.version)])
    case Merge(p, now) =>
      var c := s.claimers[p];
      if Wins(s, step, c.kind) then
        // The merge writes its own columns, computed from what was read, into the row as it is.
        var patch := Claimed(c.kind, c.seen.value, now);
        var row := match c.kind
          case Execution => s.row.value.(status := patch.status, executionStartedAt := patch.executionStartedAt)
          case Pickup => s.row.value.(pickupOrdered := true);
        s.(row := Some(row), version := s.version + 1, claimers := s.claimers - {p})
      else s.(claimers := s.claimers - {p})
    case Crash(p) => s.(claimers := s.claimers - {p})
    case Other(row) => s.(row := row, version := s.version + 1)
  }

  /** Anybody may read, crash or write at any point; a read or a crash changes nothing on the row, and every
      write gives the row a version of its own. */
  lemma AnythingMayHappen(s: State, p: int, kind: Kind, row: Option<Draft>)
    ensures p !in s.claimers ==>
              Enabled(s, Read(p, kind))
              && Apply(s, Read(p, kind)) == s.(claimers := s.claimers[p := Claimer(kind, s.row, s.version)])
    ensures p in s.claimers ==>
              Enabled(s, Crash(p)) && Apply(s, Crash(p)) == s.(claimers := s.claimers - {p})
    ensures Enabled(s, Other(row)) && Apply(s, Other(row)).row == row
            && Apply(s, Other(row)).version > s.version && Apply(s, Other(row)).claimers == s.claimers
  {
  }

  /** With nobody in between the two requests are the store's own locked claim. */
  lemma AdjacentClaim(s: State, p: int, now: string, kind: Kind)
    requires p !in s.claimers && now != ""
    ensures var mid := Apply(s, Read(p, kind));
            && Enabled(mid, Merge(p, now))
            && var t := Apply(mid, Merge(p, now));
            && t.claimers == s.claimers
            && (Wins(mid, Merge(p, now), kind) <==> Claimable(kind, s.row))
            && (if Claimable(kind, s.row) then t.row == Some(Claimed(kind, s.row.value, now)) && t.version > s.version
                else t.row == s.row && t.version == s.version)
  {
    assert s.claimers[p := Claimer(kind, s.row, s.version)] - {p} == s.claimers;
  }

  /** After any write since the read the merge is refused: the claim is lost and nothing is written. */
  lemma StaleMerge(s: State, p: int, now: string)
    requires Enabled(s, Merge(p, now)) && s.claimers[p].version != s.version
    ensures Apply(s, Merge(p, now)) == s.(claimers := s.claimers - {p})
  {
  }

  ghost predicate Legal(s: State, steps: seq<Step>)
    decreases |steps|, 0
  {
    steps == [] ||
    (Legal(s, steps[..|steps| - 1]) && Enabled(Exec(s, steps[..|steps| - 1]), steps[|steps| - 1]))
  }

  ghost function Exec(s: State, steps: seq<Step>): State
    requires Legal(s, steps)
    decreases |steps|, 1
  {
    if steps == [] then s else Apply(Exec(s, steps[..|steps| - 1]), steps[|steps| - 1])
  }

  /** The state before step `k` of a run. */
  ghost function At(s: State, steps: seq<Step>, k: nat): State
    requires Legal(s, steps) && k <= |steps|
  {
    Prefixes(s, steps, k);
    Exec(s, steps[..k])
  }

  lemma {:induction false} Prefixes(s: State, steps: seq<Step>, k: nat)
    requires Legal(s, steps) && k <= |steps|
    ensures Legal(s, steps[..k])
    decreases |steps| - k
  {
    if k == |steps| {
      assert steps[..k] == steps;
    } else {
      Prefixes(s, steps, k + 1);
      assert steps[..k + 1][..k] == steps[..k];
    }
  }

  lemma StepAt(s: State, steps: seq<Step>, k: nat)
    requires Legal(s, steps) && k < |steps|
    ensures Enabled(At(s, steps, k), steps[k])
    ensures At(s, steps, k + 1) == Apply(At(s, steps, k), steps[k])
  {
    Prefixes(s, steps, k + 1);
    assert steps[..k + 1][..k] == steps[..k] && steps[..k + 1][k] == steps[k];
  }

  /** An unchanged version means an unchanged row. */
  ghost predicate Inv(s: State) {
    forall p :: p in s.claimers ==>
      s.claimers[p].version <= s.version && (s.claimers[p].version == s.version ==> s.claimers[p].seen == s.row)
  }

  lemma {:induction false} InvAt(s: State, steps: seq<Step>, k: nat)
    requires Inv(s) && Legal(s, steps) && k <= |steps|
    ensures Inv(At(s, steps, k))
    decreases k
  {
    if k > 0 {
      InvAt(s, steps, k - 1);
      StepAt(s, steps, k - 1);
    }
  }

  predicate Status(s: State, status: string) { s.row.Some? && s.row.value.status == Some(status) }

  predicate Executable(s: State) { s.row.Some? && CanExecute(s.row.value.status) }

  predicate PickedUp(s: State) { s.row.Some? && s.row.value.pickupOrdered }

  /** A winning claim finds the row claimable at that very instant, and leaves it not claimable. */
  lemma WinnersFindItClaimable(s: State, step: Step, kind: Kind)
    requires Inv(s) && Enabled(s, step) && Wins(s, step, kind)
    ensures Claimable(kind, s.row)
    ensures Apply(s, step).row == Some(Claimed(kind, s.row.value, step.now))
    ensures !Claimable(kind, Apply(s, step).row)
  {
    assert s.claimers[step.p].seen == s.row;
  }

  /** The step that ends a stretch of `executing`, or starts a stretch of executable, is another write. */
  lemma {:induction false} LeavesExecuting(s: State, steps: seq<Step>, i: nat, j: nat) returns (a: nat)
    requires Inv(s) && Legal(s, steps) && i <= j <= |steps|
    requires Status(At(s, steps, i), EXECUTING) && !Status(At(s, steps, j), EXECUTING)
    ensures i <= a < j && steps[a].Other?
    ensures Status(At(s, steps, a), EXECUTING) && !Status(At(s, steps, a + 1), EXECUTING)
    decreases j
  {
    StepAt(s, steps, j - 1);
    if Status(At(s, steps, j - 1), EXECUTING) {
      a := j - 1;
    } else {
      a := LeavesExecuting(s, steps, i, j - 1);
    }
  }

  lemma {:induction false} BecomesExecutable(s: State, steps: seq<Step>, i: nat, j: nat) returns (b: nat)
    requires Inv(s) && Legal(s, steps) && i <= j <= |steps|
    requires !Executable(At(s, steps, i)) && Executable(At(s, steps, j))
    ensures i <= b < j && steps[b].Other?
    ensures !Executable(At(s, steps, b)) && Executable(At(s, steps, b + 1))
    decreases j
  {
    StepAt(s, steps, j - 1);
    if !Executable(At(s, steps, j - 1)) {
      b := j - 1;
    } else {
      b := BecomesExecutable(s, steps, i, j - 1);
    }
  }

  /** Main result: between two successful execution claims some other write took the draft out of
      `executing`, and from then on some other write put it into an executable state. */
  lemma ExecutionIsExclusive(s: State, steps: seq<Step>, i: nat, j: nat) returns (a: nat, b: nat)
    requires Inv(s) && Legal(s, steps) && i < j < |steps|
    requires Wins(At(s, steps, i), steps[i], Execution) && Wins(At(s, steps, j), steps[j], Execution)
    ensures i < a <= b < j && steps[a].Other? && steps[b].Other?
    ensures Status(At(s, steps, a), EXECUTING) && !Status(At(s, steps, a + 1), EXECUTING)
    ensures !Executable(At(s, steps, b)) && Executable(At(s, steps, b + 1))
  {
    InvAt(s, steps, i);
    InvAt(s, steps, j);
    StepAt(s, steps, i);
    StepAt(s, steps, j);
    WinnersFindItClaimable(At(s, steps, i), steps[i], Execution);
    WinnersFindItClaimable(At(s, steps, j), steps[j], Execution);
    a := LeavesExecuting(s, steps, i + 1, j);
    b := BecomesExecutable(s, steps, a, j);
  }

  lemma {:induction false} PickupIsReleased(s: State, steps: seq<Step>, i: nat, j: nat) returns (a: nat)
    requires Inv(s) && Legal(s, steps) && i <= j <= |steps|
    requires PickedUp(At(s, steps, i)) && !PickedUp(At(s, steps, j))
    ensures i <= a < j && steps[a].Other? && PickedUp(At(s, steps, a)) && !PickedUp(At(s, steps, a + 1))
    decreases j
  {
    StepAt(s, steps, j - 1);
    if PickedUp(At(s, steps, j - 1)) {
      a := j - 1;
    } else {
      a := PickupIsReleased(s, steps, i, j - 1);
    }
  }

  /** A pickup claim is won again only after some other write cleared the flag. */
  lemma PickupIsExclusive(s: State, steps: seq<Step>, i: nat, j: nat) returns (a: nat)
    requires Inv(s) && Legal(s, steps) && i < j < |steps|
    requires Wins(At(s, steps, i), steps[i], Pickup) && Wins(At(s, steps, j), steps[j], Pickup)
    ensures i < a < j && steps[a].Other? && PickedUp(At(s, steps, a)) && !PickedUp(At(s, steps, a + 1))
  {
    InvAt(s, steps, i);
    InvAt(s, steps, j);
    StepAt(s, steps, i);
    StepAt(s, steps, j);
    WinnersFindItClaimable(At(s, steps, i), steps[i], Pickup);
    WinnersFindItClaimable(At(s, steps, j), steps[j], Pickup);
    a := PickupIsReleased(s, steps, i + 1, j);
  }

  /** The execution start is set by the first claim and kept by every later one, as long as other writes
      do not touch it. */
  lemma {:induction false} StartIsSetOnce(s: State, steps: seq<Step>, i: nat, j: nat)
    requires Inv(s) && Legal(s, steps) && i < j <= |steps|
    requires Wins(At(s, steps, i), steps[i], Execution)
    requires forall k :: i < k < j && steps[k].Other? ==>
               steps[k].row.Some? && At(s, steps, k).row.Some?
               && steps[k].row.value.executionStartedAt == At(s, steps, k).row.value.executionStartedAt
    ensures At(s, steps, j).row.Some? && At(s, steps, i).row.Some?
    ensures var before := At(s, steps, i).row.value.executionStartedAt;
            At(s, steps, j).row.value.executionStartedAt == (if Truthy(before) then before else Text(steps[i].now))
    ensures Truthy(At(s, steps, j).row.value.executionStartedAt)
    decreases j
  {
    InvAt(s, steps, j - 1);
    StepAt(s, steps, j - 1);
    if j == i + 1 {
      WinnersFindItClaimable(At(s, steps, i), steps[i], Execution);
    } else {
      StartIsSetOnce(s, steps, i, j - 1);
    }
  }
}
