/**
 Webhook deduplication against the table (zdrovena/common/shopify_dedup_store.py, the Azure branches of
 mark_seen_if_new and is_duplicate): create, get and delete are separate requests, so calls for one id
 interleave. One row; any number of callers, each with the clock it read on entry.
 */
module WebhookTable {
  import opened Prelude
  import opened WebhookDedup

  datatype Pc =
    | Creating      // first create_entity
    | Getting       // the row existed: look at it
    | Deleting      // it was expired: delete it
    | Retrying      // the final create_entity
    | Checking      // is_duplicate: look at the row
    | Dropping      // is_duplicate: delete an expired row

  datatype Caller = Caller(now: int, pc: Pc)

  /** `unreported` counts creates that took effect while the caller got an error. */
  datatype State = State(row: Option<Stamp>, callers: map<int, Caller>, wins: nat, unreported: nat, deletes: nat)

  datatype Step = Go(p: int) | Lose(p: int) | Crash(p: int)

  ghost predicate Enabled(s: State, step: Step) {
    step.p in s.callers && (step.Lose? ==> s.callers[step.p].pc in {Creating, Retrying})
  }

  function MoveTo(s: State, p: int, pc: Pc): State
    requires p in s.callers
  {
    s.(callers := s.callers[p := s.callers[p].(pc := pc)])
  }

  function Leave(s: State, p: int): State { s.(callers := s.callers - {p}) }

  function Delete(s: State): State {
    if s.row.None? then s else s.(row := None, deletes := s.deletes + 1)
  }

  function Next(s: State, p: int): State
    requires p in s.callers
  {
    var c := s.callers[p];
    match c.pc
    case Creating =>
      if s.row.None? then Leave(s.(row := Some(Some(c.now)), wins := s.wins + 1), p) else MoveTo(s, p, Getting)
    case Getting =>
      if s.row.None? then MoveTo(s, p, Retrying)
      else if IsExpired(s.row.value, c.now) then MoveTo(s, p, Deleting)
      else Leave(s, p)
    case Deleting => MoveTo(Delete(s), p, Retrying)
    case Retrying =>
      if s.row.None? then Leave(s.(row := Some(Some(c.now)), wins := s.wins + 1), p) else Leave(s, p)
    case Checking =>
      if s.row.Some? && IsExpired(s.row.value, c.now) then MoveTo(s, p, Dropping) else Leave(s, p)
    case Dropping => Leave(Delete(s), p)
  }

  ghost function Apply(s: State, step: Step): State
    requires Enabled(s, step)
  {
    match step
    case Go(p) => Next(s, p)
    // The create fails for the caller; if the row was free it took effect all the same.
    case Lose(p) =>
      if s.row.None? then Leave(s.(row := Some(Some(s.callers[p].now)), unreported := s.unreported + 1), p)
      else Leave(s, p)
    case Crash(p) => Leave(s, p)
  }

  /** Any caller may take its next step, or crash, at any point; and a create may fail for its caller, with
      the row left as it was if there was one, and created unreported if there was none. */
  lemma AnythingMayHappen(s: State, p: int)
    requires p in s.callers
    ensures Enabled(s, Go(p)) && Apply(s, Go(p)) == Next(s, p)
    ensures Enabled(s, Crash(p)) && Apply(s, Crash(p)) == s.(callers := s.callers - {p})
    ensures s.callers[p].pc in {Creating, Retrying} ==>
              Enabled(s, Lose(p))
              && Apply(s, Lose(p)).callers == s.callers - {p} && Apply(s, Lose(p)).wins == s.wins
              && Apply(s, Lose(p)).row == (if s.row.Some? then s.row else Some(Some(s.callers[p].now)))
              && Apply(s, Lose(p)).unreported == s.unreported + (if s.row.Some? then 0 else 1)
  {
  }

  ghost predicate Legal(s: State, steps: seq<Step>)
    decreases |steps|
  {
    steps == [] || (Enabled(s, steps[0]) && Legal(Apply(s, steps[0]), steps[1..]))
  }

  ghost function Exec(s: State, steps: seq<Step>): State
    requires Legal(s, steps)
    decreases |steps|
  {
    if steps == [] then s else Exec(Apply(s, steps[0]), steps[1..])
  }

  function Rows(row: Option<Stamp>): nat { if row.Some? then 1 else 0 }

  /** The counting law, for every interleaving of marking and checking calls: rows created are rows
      deleted plus the row that is there. */
  lemma {:induction false} CreatesBalanceDeletes(s: State, steps: seq<Step>)
    requires Legal(s, steps)
    ensures var t := Exec(s, steps);
            t.wins - s.wins + t.unreported - s.unreported + Rows(s.row) == t.deletes - s.deletes + Rows(t.row)
    decreases |steps|
  {
    if steps == [] {
    } else {
      CreatesBalanceDeletes(Apply(s, steps[0]), steps[1..]);
    }
  }

  // ---- When exactly at most one call wins --------------------------------------------------------

  /** A burst: marking and checking calls, all before their first request, clocks less than a TTL apart. */
  ghost predicate Burst(s: State) {
    && s.wins == 0 && s.unreported == 0 && s.deletes == 0
    && (forall p :: p in s.callers ==> s.callers[p].pc in {Creating, Checking})
    && (forall p, q :: p in s.callers && q in s.callers ==> s.callers[p].now - s.callers[q].now < TTL)
  }

  /** Caller `p` of the burst finds the row it started from expired, and would delete it. */
  ghost predicate SeesExpired(s0: State, p: int)
    requires p in s0.callers
  {
    s0.row.Some? && IsExpired(s0.row.value, s0.callers[p].now)
  }

  predicate Marks(s0: State, p: int)
    requires p in s0.callers
  {
    s0.callers[p].pc == Creating
  }

  ghost predicate OneSeesExpired(s0: State) {
    forall p, q :: p in s0.callers && q in s0.callers && SeesExpired(s0, p) && SeesExpired(s0, q) ==> p == q
  }

  ghost predicate OneMarks(s0: State) {
    forall p, q :: p in s0.callers && q in s0.callers && Marks(s0, p) && Marks(s0, q) ==> p == q
  }

  /** Where a caller of the burst may be: markers and checkers keep to their own requests. */
  predicate OnItsWay(s0: State, p: int, pc: Pc)
    requires p in s0.callers
  {
    if Marks(s0, p) then pc in {Creating, Getting, Deleting, Retrying} else pc in {Checking, Dropping}
  }

  ghost predicate Followed(s0: State, s: State) {
    && s.callers.Keys <= s0.callers.Keys
    && (forall p :: p in s.callers ==> s.callers[p].now == s0.callers[p].now && OnItsWay(s0, p, s.callers[p].pc))
    && (s.row.Some? && s.row != s0.row ==> exists q :: q in s0.callers && s.row == Some(Some(s0.callers[q].now)))
  }

  ghost predicate Inv(s0: State, s: State) {
    && Followed(s0, s)
    && (forall p :: p in s.callers ==>
          && (s.callers[p].pc in {Deleting, Dropping} ==> SeesExpired(s0, p))
          && (s.deletes > 0 && SeesExpired(s0, p) ==> s.callers[p].pc == Retrying))
    && s.deletes <= 1 && (s0.row.None? ==> s.deletes == 0)
  }

  lemma StepFollows(s0: State, s: State, step: Step)
    requires Burst(s0) && Followed(s0, s) && Enabled(s, step)
    ensures Followed(s0, Apply(s, step))
  {
    var p := step.p;
    assert s0.callers[p].now == s.callers[p].now && OnItsWay(s0, p, s.callers[p].pc);
    var t := Apply(s, step);
    if t.row.Some? && t.row != s0.row && t.row != s.row {
      assert p in s0.callers && t.row == Some(Some(s0.callers[p].now));
    }
  }

  lemma StepKeepsInv(s0: State, s: State, step: Step)
    requires Burst(s0) && OneSeesExpired(s0) && Inv(s0, s) && Enabled(s, step)
    ensures Inv(s0, Apply(s, step))
  {
    StepFollows(s0, s, step);
    assert OnItsWay(s0, step.p, s.callers[step.p].pc);
  }

  lemma {:induction false} RunKeepsInv(s0: State, s: State, steps: seq<Step>)
    requires Burst(s0) && OneSeesExpired(s0) && Inv(s0, s) && Legal(s, steps)
    ensures Inv(s0, Exec(s, steps))
    decreases |steps|
  {
    if steps == [] {
    } else {
      StepKeepsInv(s0, s, steps[0]);
      RunKeepsInv(s0, Apply(s, steps[0]), steps[1..]);
    }
  }

  /** With one marker there is one winner at most: it leaves when it wins. */
  lemma {:induction false} OneMarkerWinsOnce(s0: State, s: State, steps: seq<Step>)
    requires Burst(s0) && OneMarks(s0) && Followed(s0, s) && Legal(s, steps)
    requires s.wins <= 1 && (s.wins == 1 ==> forall p :: p in s.callers ==> !Marks(s0, p))
    ensures Exec(s, steps).wins <= 1
    decreases |steps|
  {
    if steps == [] {
    } else {
      StepFollows(s0, s, steps[0]);
      assert OnItsWay(s0, steps[0].p, s.callers[steps[0].p].pc);
      OneMarkerWinsOnce(s0, Apply(s, steps[0]), steps[1..]);
    }
  }

  lemma Unroll(s: State, step: Step, rest: seq<Step>)
    requires Enabled(s, step) && Legal(Apply(s, step), rest)
    ensures Legal(s, [step] + rest) && Exec(s, [step] + rest) == Exec(Apply(s, step), rest)
  {
    assert ([step] + rest)[1..] == rest;
  }

  /** A schedule of callers each taking its next step. */
  function Schedule(ps: seq<int>): (steps: seq<Step>)
    ensures |steps| == |ps| && forall i :: 0 <= i < |ps| ==> steps[i] == Go(ps[i])
  {
    if ps == [] then [] else [Go(ps[0])] + Schedule(ps[1..])
  }

  ghost predicate Runs(s: State, ps: seq<int>, t: State)
    decreases |ps|
  {
    if ps == [] then s == t else ps[0] in s.callers && Runs(Next(s, ps[0]), ps[1..], t)
  }

  lemma {:induction false} RunsLegally(s: State, ps: seq<int>, t: State)
    requires Runs(s, ps, t)
    ensures Legal(s, Schedule(ps)) && Exec(s, Schedule(ps)) == t
    decreases |ps|
  {
    if ps == [] {
    } else {
      RunsLegally(Next(s, ps[0]), ps[1..], t);
      Unroll(s, Go(ps[0]), Schedule(ps[1..]));
    }
  }

  lemma {:induction false} RunsOn(s: State, ps: seq<int>, t: State, p: int)
    requires Runs(s, ps, t) && p in t.callers
    ensures Runs(s, ps + [p], Next(t, p))
    decreases |ps|
  {
    if ps == [] {
      assert ([p])[1..] == [];
    } else {
      RunsOn(Next(s, ps[0]), ps[1..], t, p);
      assert (ps + [p])[1..] == ps[1..] + [p];
    }
  }

  /** One caller more, from a schedule already run. */
  lemma Extend(s: State, ps: seq<int>, t: State, p: int) returns (qs: seq<int>, u: State)
    requires Runs(s, ps, t) && p in t.callers
    ensures qs == ps + [p] && u == Next(t, p) && Runs(s, qs, u)
  {
    RunsOn(s, ps, t, p);
    qs, u := ps + [p], Next(t, p);
  }

  /** Walk a caller that sees the row expired to the request that deletes it. */
  lemma ReadyToDelete(s0: State, ps: seq<int>, s: State, p: int) returns (qs: seq<int>, t: State)
    requires Burst(s0) && Runs(s0, ps, s) && p in s0.callers && p in s.callers && s.callers[p] == s0.callers[p]
    requires s.row == s0.row && SeesExpired(s0, p)
    ensures Runs(s0, qs, t)
    ensures t == s.(callers := s.callers[p := Caller(s0.callers[p].now, if Marks(s0, p) then Deleting else Dropping)])
  {
    qs, t := Extend(s0, ps, s, p);
    if Marks(s0, p) {
      qs, t := Extend(s0, qs, t, p);
    }
  }

  /** Two callers see the old row expired; the second deletes what a winner created in between. `m` and `n`
      are two markers of the burst, among the first two callers or not. */
  lemma TwoExpirationsTwoWins(s: State, p: int, q: int, m: int, n: int) returns (steps: seq<Step>)
    requires Burst(s) && p in s.callers && q in s.callers && p != q && SeesExpired(s, p) && SeesExpired(s, q)
    requires m in s.callers && n in s.callers && m != n && Marks(s, m) && Marks(s, n)
    requires m != q && n != p && (Marks(s, p) ==> m == p) && (Marks(s, q) ==> n == q)
    ensures Legal(s, steps) && Exec(s, steps).wins == 2
  {
    var ps, t := ReadyToDelete(s, [], s, p);
    ps, t := ReadyToDelete(s, ps, t, q);
    ps, t := Extend(s, ps, t, p);   // deletes the expired row
    ps, t := Extend(s, ps, t, m);   // creates a row: first win
    ps, t := Extend(s, ps, t, q);   // deletes that row
    ps, t := Extend(s, ps, t, n);   // creates another: second win
    RunsLegally(s, ps, t);
    steps := Schedule(ps);
  }

  /** Any two callers that find the row expired and any two markers have an interleaving with two wins. */
  lemma TwoExpirationsBothWin(s: State, p: int, q: int, m: int, n: int) returns (steps: seq<Step>)
    requires Burst(s) && p in s.callers && q in s.callers && p != q && SeesExpired(s, p) && SeesExpired(s, q)
    requires m in s.callers && n in s.callers && m != n && Marks(s, m) && Marks(s, n)
    ensures Legal(s, steps) && Exec(s, steps).wins == 2
  {
    var first := if Marks(s, p) then p else if Marks(s, q) && m == q then n else if m != q then m else n;
    var second := if Marks(s, q) then q else if first == m then n else m;
    steps := TwoExpirationsTwoWins(s, p, q, first, second);
  }

  /** Main result for the table branch. The code comments that racing expirations are "still
      exactly-once"; they are not. A burst of marking and checking calls has at most one winner in every
      interleaving exactly when at most one of the calls, marking or checking, finds the stored row expired,
      or there is only one marking call. */
  lemma AtMostOneWinnerExactly(s: State)
    requires Burst(s)
    ensures (forall steps :: Legal(s, steps) ==> Exec(s, steps).wins <= 1) <==> OneSeesExpired(s) || OneMarks(s)
  {
    if OneSeesExpired(s) || OneMarks(s) {
      forall steps | Legal(s, steps) ensures Exec(s, steps).wins <= 1 {
        if OneSeesExpired(s) {
          CreatesBalanceDeletes(s, steps);
          RunKeepsInv(s, s, steps);
        } else {
          OneMarkerWinsOnce(s, s, steps);
        }
      }
    } else {
      var p, q :| p in s.callers && q in s.callers && SeesExpired(s, p) && SeesExpired(s, q) && p != q;
      var m, n :| m in s.callers && n in s.callers && Marks(s, m) && Marks(s, n) && m != n;
      var steps := TwoExpirationsBothWin(s, p, q, m, n);
    }
  }

  lemma {:induction false} DeletesOnlyGrow(s: State, steps: seq<Step>)
    requires Legal(s, steps)
    ensures Exec(s, steps).deletes >= s.deletes
    decreases |steps|
  {
    if steps != [] { DeletesOnlyGrow(Apply(s, steps[0]), steps[1..]); }
  }

  /** Without deletes a row, once created, stays, and nobody wins any more. */
  lemma {:induction false} RowStaysWithoutDeletes(s: State, steps: seq<Step>)
    requires Legal(s, steps) && s.row.Some? && Exec(s, steps).deletes == s.deletes
    ensures Exec(s, steps).row == s.row && Exec(s, steps).wins == s.wins
    decreases |steps|
  {
    if steps == [] {
    } else {
      DeletesOnlyGrow(Apply(s, steps[0]), steps[1..]);
      RowStaysWithoutDeletes(Apply(s, steps[0]), steps[1..]);
    }
  }

  /** Nobody loses to nothing: a marking call that leaves without a win, other than by an error, found a row
      there at that instant - on its look, one that was not expired. */
  lemma LosersSawARow(s: State, p: int)
    requires p in s.callers && s.callers[p].pc in {Creating, Getting, Deleting, Retrying}
    requires p !in Next(s, p).callers && Next(s, p).wins == s.wins
    ensures s.row.Some? && s.callers[p].pc in {Getting, Retrying}
    ensures s.callers[p].pc.Getting? ==>
              s.row.value.Some? && s.callers[p].now - s.row.value.value < 24 * 3_600_000_000
  {
  }

  /** And a winner's row carries the clock it read on entry. */
  lemma WinnersLeaveTheirStamp(s: State, p: int)
    requires p in s.callers && Next(s, p).wins != s.wins
    ensures s.row.None? && s.callers[p].pc in {Creating, Retrying}
    ensures Next(s, p).wins == s.wins + 1 && Next(s, p).row == Some(Some(s.callers[p].now))
  {
  }

  /** Only a row that is a day old, or has no readable time, is ever deleted by the call that looked at it. */
  lemma OnlyOldRowsAreDoomed(s: State, p: int)
    requires p in s.callers && s.callers[p].pc in {Getting, Checking}
    requires p in Next(s, p).callers && Next(s, p).callers[p].pc in {Deleting, Dropping}
    ensures s.row.Some?
    ensures s.row.value.Some? ==> s.callers[p].now - s.row.value.value >= 24 * 3_600_000_000
  {
  }

  /** As long as nobody created a row for a new id, every marker is still before its create. */
  ghost predicate AllWaiting(s0: State, s: State) {
    s.row.None? && s.wins == 0 && s.unreported == 0 && s.deletes == 0
    && forall p :: p in s0.callers && Marks(s0, p) ==> p in s.callers && s.callers[p].pc == Creating
  }

  lemma {:induction false} NewIdIsWon(s0: State, s: State, steps: seq<Step>)
    requires Burst(s0) && s0.row.None? && Followed(s0, s) && Inv(s0, s) && OneSeesExpired(s0)
    requires AllWaiting(s0, s) || (s.row.Some? && s.wins == 1 && s.deletes == 0)
    requires Legal(s, steps) && forall i :: 0 <= i < |steps| ==> steps[i].Go?
    ensures var t := Exec(s, steps);
            AllWaiting(s0, t) || (t.row.Some? && t.wins == 1 && t.deletes == 0)
    decreases |steps|
  {
    if steps == [] {
    } else {
      var step := steps[0];
      StepKeepsInv(s0, s, step);
      assert OnItsWay(s0, step.p, s.callers[step.p].pc);
      forall i | 0 <= i < |steps[1..]| ensures steps[1..][i].Go? { assert steps[1..][i] == steps[i + 1]; }
      NewIdIsWon(s0, Apply(s, step), steps[1..]);
    }
  }

  /** A burst for an id not stored yet, with at least one marking call and run to the end without errors,
      has exactly one winner, whatever checking calls run beside it. */
  lemma ExactlyOneWinnerForNewId(s: State, steps: seq<Step>)
    requires Burst(s) && s.row.None? && exists p :: p in s.callers && Marks(s, p)
    requires Legal(s, steps) && Exec(s, steps).callers == map[]
    requires forall i :: 0 <= i < |steps| ==> steps[i].Go?
    ensures Exec(s, steps).wins == 1
  {
    NewIdIsWon(s, s, steps);
  }
}
