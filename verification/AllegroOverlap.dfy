/**
 Delivery runs on one draft that overlap (zdrovena/api/shipping_execution_composition.py,
 _run_allegro_delivery under execute_draft and confirm_shipping_draft). The claim does not keep runs apart:
 saving a command puts the draft back into `pending_confirmation`, from where it can be claimed again, and
 a confirmation takes no claim at all. A run decides what to post from the draft as it read it, and writes
 its own list of checkpoints over whatever is stored.
 */
module AllegroOverlap {
  import opened Prelude
  import opened AllegroDelivery
  import ShippingStores

  /** One run: its own copy of the checkpoints, the saved command it may resume, whether it has to claim the
      draft, and where it is; `Off` is "draft read, not started". */
  datatype Run = Run(mine: Ships, legacy: Option<Cmd>, claims: bool, active: Option<Cmd>, pc: Pc)

  /** `posted[c]` is the parcel command c was posted for, `made[c]` the shipment the provider made for it. */
  datatype Shared = Shared(draft: Draft, runs: map<int, Run>, posted: seq<nat>, made: map<Cmd, nat>, shipments: nat)

  datatype Move = Move(p: int, step: Step)

  /** The run a caller holds after reading the draft. */
  function ReadDraft(d: Draft, claims: bool): Run {
    Run(d.ships, if d.status == PENDING_CONFIRMATION then d.legacy else None, claims, None, Off)
  }

  /** Parcel `i` has neither a checkpoint nor a resumable command in the run's copy. */
  predicate Needs(specs: seq<Key>, r: Run, i: nat) {
    i < |specs| && specs[i] !in r.mine && (i > 0 || r.legacy.None?)
  }

  function Resumed(specs: seq<Key>, r: Run, i: nat): Option<Cmd>
    requires i < |specs|
  {
    if specs[i] in r.mine then Some(r.mine[specs[i]].cmd) else if i == 0 then r.legacy else None
  }

  predicate Enabled(specs: seq<Key>, s: Shared, m: Move) {
    m.p in s.runs
    && var r := s.runs[m.p];
    match m.step
    case Start(claim) =>
      r.pc.Off? && claim == r.claims
      && (claim ==> s.draft.status in {"pending", PENDING_CONFIRMATION, "error"})
    case Skip => r.pc.At? && r.pc.i < |specs| && Shipped(specs, r.mine, r.pc.i)
    case Post => r.pc.At? && Needs(specs, r, r.pc.i)
    case SaveCommand => r.pc.Posted?
    case SaveCheckpoint =>
      (r.pc.Saved? && r.pc.i < |specs|)
      || (r.pc.At? && r.pc.i < |specs| && !Shipped(specs, r.mine, r.pc.i) && Resumed(specs, r, r.pc.i).Some?)
    case PollPending => r.pc.Waiting? && r.pc.tries < ATTEMPTS
    case PollSuccess => r.pc.Waiting? && r.pc.tries < ATTEMPTS
    case SaveShipment => r.pc.Got? && r.pc.i < |specs|
    case GiveUp => r.pc.Waiting? && r.pc.tries == ATTEMPTS
    case SavePending => r.pc.Leaving?
    case SaveCreated => r.pc == At(|specs|)
    case Stop => true
    case SetStatus(_) => true
  }

  /** A start with a claim is possible exactly in the states the store grants one; a confirmation takes none. */
  lemma ClaimsWhere(specs: seq<Key>, s: Shared, p: int)
    requires p in s.runs && s.runs[p].pc.Off?
    ensures Enabled(specs, s, Move(p, Start(s.runs[p].claims))) <==>
            (s.runs[p].claims ==> ShippingStores.CanExecute(Some(s.draft.status)))
  {
  }

  function Put(s: Shared, p: int, r: Run): Shared { s.(runs := s.runs[p := r]) }

  function Drop(s: Shared, p: int): Shared { s.(runs := s.runs - {p}) }

  function Apply(specs: seq<Key>, s: Shared, m: Move): Shared
    requires Enabled(specs, s, m)
  {
    var r := s.runs[m.p];
    match m.step
    case Start(claim) =>
      Put(s.(draft := if claim then s.draft.(status := EXECUTING) else s.draft), m.p, r.(pc := At(0)))
    case Skip => Put(s, m.p, r.(pc := At(r.pc.i + 1)))
    case Post => Put(s.(posted := s.posted + [r.pc.i]), m.p, r.(pc := Posted(r.pc.i, |s.posted|)))
    case SaveCommand =>
      Put(s.(draft := s.draft.(legacy := Some(r.pc.c), status := PENDING_CONFIRMATION)), m.p,
          r.(pc := Saved(r.pc.i, r.pc.c)))
    case SaveCheckpoint =>
      var c := if r.pc.Saved? then r.pc.c else Resumed(specs, r, r.pc.i).value;
      var mine := r.mine[specs[r.pc.i] := Checkpoint(c, None)];
      Put(s.(draft := s.draft.(ships := mine)), m.p,
          r.(mine := mine, active := Some(c), pc := Waiting(r.pc.i, c, 0)))
    case PollPending => Put(s, m.p, r.(pc := r.pc.(tries := r.pc.tries + 1)))
    case PollSuccess =>
      var x := if r.pc.c in s.made then s.made[r.pc.c] else s.shipments;
      Put(s.(made := s.made[r.pc.c := x], shipments := if x == s.shipments then x + 1 else s.shipments), m.p,
          r.(pc := Got(r.pc.i, r.pc.c, x)))
    case SaveShipment =>
      var mine := r.mine[specs[r.pc.i] := Checkpoint(r.pc.c, Some(r.pc.shipment))];
      Put(s.(draft := s.draft.(ships := mine)), m.p, r.(mine := mine, pc := At(r.pc.i + 1)))
    case GiveUp => Put(s, m.p, r.(pc := Leaving(r.pc.i, r.pc.c)))
    // The returned patch: the run's own checkpoints, with the status and the command.
    case SavePending =>
      Drop(s.(draft := Draft(PENDING_CONFIRMATION, Some(r.pc.c), r.mine)), m.p)
    case SaveCreated => Drop(s.(draft := Draft(CREATED, r.active, r.mine)), m.p)
    case Stop => Drop(s, m.p)
    case SetStatus(status) => s.(draft := s.draft.(status := status))
  }

  // ---- One run alone ----------------------------------------------------------------------------------------

  /** Run `p` alone on its draft, seen as the delivery machine: the same draft and commands, the run's own
      copies agreeing with what is stored, and the same place in the code. */
  ghost predicate Alone(specs: seq<Key>, s: Shared, d: State, p: int) {
    && s.draft == d.draft && s.posted == d.posted && s.shipments == d.shipments
    && (forall c: nat :: c in s.made <==> c < |d.made| && d.made[c].Some?)
    && (forall c: nat :: c in s.made ==> d.made[c] == Some(s.made[c]))
    && (if p in s.runs then
          var r := s.runs[p];
          && s.runs.Keys == {p} && r.pc == d.pc && r.mine == s.draft.ships
          && (r.pc.Off? ==> r == ReadDraft(s.draft, r.claims))
          && (!r.pc.Off? ==> r.active == d.active)
          && (r.pc == At(0) ==> r.legacy == if d.fromPending then s.draft.legacy else None)
        else s.runs == map[] && d.pc.Off?)
  }

  /** The same moves are possible for run `p` and for the machine, and they stay in step. */
  ghost predicate InStep(specs: seq<Key>, s: Shared, d: State, p: int, step: Step) {
    && (Enabled(specs, s, Move(p, step)) <==> AllegroDelivery.Enabled(specs, d, step))
    && (Enabled(specs, s, Move(p, step)) && AllegroDelivery.Enabled(specs, d, step) ==>
          Alone(specs, Apply(specs, s, Move(p, step)), AllegroDelivery.Apply(specs, d, step), p))
  }

  lemma AloneStart(specs: seq<Key>, s: Shared, d: State, p: int, step: Step)
    requires Inv(specs, d) && Alone(specs, s, d, p) && p in s.runs
    requires step == Start(s.runs[p].claims) && Startable(d, s.runs[p].claims) && s.runs[p].pc.Off?
    ensures InStep(specs, s, d, p, step)
  {
  }

  lemma AloneSkip(specs: seq<Key>, s: Shared, d: State, p: int, step: Step)
    requires Inv(specs, d) && Alone(specs, s, d, p) && p in s.runs
    requires step == Skip && !s.runs[p].pc.Off?
    ensures InStep(specs, s, d, p, step)
  {
  }

  lemma AlonePost(specs: seq<Key>, s: Shared, d: State, p: int, step: Step)
    requires Inv(specs, d) && Alone(specs, s, d, p) && p in s.runs
    requires step == Post && !s.runs[p].pc.Off?
    ensures InStep(specs, s, d, p, step)
  {
  }

  lemma AloneSaveCommand(specs: seq<Key>, s: Shared, d: State, p: int, step: Step)
    requires Inv(specs, d) && Alone(specs, s, d, p) && p in s.runs
    requires step == SaveCommand && !s.runs[p].pc.Off?
    ensures InStep(specs, s, d, p, step)
  {
  }

  lemma AloneSaveCheckpoint(specs: seq<Key>, s: Shared, d: State, p: int, step: Step)
    requires Inv(specs, d) && Alone(specs, s, d, p) && p in s.runs
    requires step == SaveCheckpoint && !s.runs[p].pc.Off?
    ensures InStep(specs, s, d, p, step)
  {
  }

  lemma AlonePollPending(specs: seq<Key>, s: Shared, d: State, p: int, step: Step)
    requires Inv(specs, d) && Alone(specs, s, d, p) && p in s.runs
    requires step == PollPending && !s.runs[p].pc.Off?
    ensures InStep(specs, s, d, p, step)
  {
  }

  lemma AlonePollSuccess(specs: seq<Key>, s: Shared, d: State, p: int, step: Step)
    requires Inv(specs, d) && Alone(specs, s, d, p) && p in s.runs
    requires step == PollSuccess && !s.runs[p].pc.Off?
    ensures InStep(specs, s, d, p, step)
  {
  }

  lemma AloneSaveShipment(specs: seq<Key>, s: Shared, d: State, p: int, step: Step)
    requires Inv(specs, d) && Alone(specs, s, d, p) && p in s.runs
    requires step == SaveShipment && !s.runs[p].pc.Off?
    ensures InStep(specs, s, d, p, step)
  {
  }

  lemma AloneGiveUp(specs: seq<Key>, s: Shared, d: State, p: int, step: Step)
    requires Inv(specs, d) && Alone(specs, s, d, p) && p in s.runs
    requires step == GiveUp && !s.runs[p].pc.Off?
    ensures InStep(specs, s, d, p, step)
  {
  }

  lemma AloneEnd(specs: seq<Key>, s: Shared, d: State, p: int, step: Step)
    requires Inv(specs, d) && Alone(specs, s, d, p) && p in s.runs
    requires step in {SavePending, SaveCreated, Stop} && !s.runs[p].pc.Off?
    ensures InStep(specs, s, d, p, step)
  {
  }

  /** A run that nobody overlaps is a run of the delivery machine: step for step the same moves are possible
      and have the same effect on the draft, the provider and the run. */
  lemma AloneIsDelivery(specs: seq<Key>, s: Shared, d: State, p: int, step: Step)
    requires Inv(specs, d) && Alone(specs, s, d, p) && p in s.runs && !step.SetStatus?
    requires s.runs[p].pc.Off? <==> step.Start?
    requires step.Start? ==> step == Start(s.runs[p].claims) && Startable(d, s.runs[p].claims)
    ensures InStep(specs, s, d, p, step)
  {
    match step
    case Start(_) => AloneStart(specs, s, d, p, step);
    case Skip => AloneSkip(specs, s, d, p, step);
    case Post => AlonePost(specs, s, d, p, step);
    case SaveCommand => AloneSaveCommand(specs, s, d, p, step);
    case SaveCheckpoint => AloneSaveCheckpoint(specs, s, d, p, step);
    case PollPending => AlonePollPending(specs, s, d, p, step);
    case PollSuccess => AlonePollSuccess(specs, s, d, p, step);
    case SaveShipment => AloneSaveShipment(specs, s, d, p, step);
    case GiveUp => AloneGiveUp(specs, s, d, p, step);
    case _ => AloneEnd(specs, s, d, p, step);
  }

  /** Any run may stop at any point, and the status may be changed by anybody. */
  lemma AnythingMayHappen(specs: seq<Key>, s: Shared, p: int, status: string)
    requires p in s.runs
    ensures Enabled(specs, s, Move(p, Stop)) && Apply(specs, s, Move(p, Stop)) == s.(runs := s.runs - {p})
    ensures Enabled(specs, s, Move(p, SetStatus(status)))
            && Apply(specs, s, Move(p, SetStatus(status))) == s.(draft := s.draft.(status := status))
  {
  }

  /** A run writes its own list of checkpoints over whatever is stored, and touches no other run. */
  lemma RunsWriteOver(specs: seq<Key>, s: Shared, m: Move)
    requires Enabled(specs, s, m)
    ensures var t := Apply(specs, s, m);
            && (forall q :: q != m.p ==> (q in t.runs <==> q in s.runs) && (q in s.runs ==> t.runs[q] == s.runs[q]))
            && (m.step in {SaveCheckpoint, SaveShipment} ==>
                  t.draft == s.draft.(ships := t.runs[m.p].mine)
                  && t.runs[m.p].mine.Keys == s.runs[m.p].mine.Keys + {specs[s.runs[m.p].pc.i]})
            && (m.step in {SavePending, SaveCreated} ==>
                  t.draft.ships == s.runs[m.p].mine && m.p !in t.runs)
  {
  }

  ghost predicate Legal(specs: seq<Key>, s: Shared, moves: seq<Move>)
    decreases |moves|, 0
  {
    moves == [] ||
    (Legal(specs, s, moves[..|moves| - 1])
     && Enabled(specs, Exec(specs, s, moves[..|moves| - 1]), moves[|moves| - 1]))
  }

  ghost function Exec(specs: seq<Key>, s: Shared, moves: seq<Move>): Shared
    requires Legal(specs, s, moves)
    decreases |moves|, 1
  {
    if moves == [] then s else Apply(specs, Exec(specs, s, moves[..|moves| - 1]), moves[|moves| - 1])
  }

  /** POSTs for parcel `i` from position `from` on. */
  function Posts(posted: seq<nat>, from: nat, i: nat): nat
    decreases |posted|
  {
    if |posted| <= from then 0
    else Posts(posted[..|posted| - 1], from, i) + if posted[|posted| - 1] == i then 1 else 0
  }

  lemma PostsOneMore(posted: seq<nat>, from: nat, i: nat, j: nat)
    requires from <= |posted|
    ensures Posts(posted + [j], from, i) == Posts(posted, from, i) + if i == j then 1 else 0
  {
    assert (posted + [j])[..|posted|] == posted;
  }

  /** Callers that have read the draft and not started yet, on a draft that can be claimed. */
  ghost predicate Opening(specs: seq<Key>, s: Shared) {
    && Distinct(specs)
    && s.draft.status in {"pending", PENDING_CONFIRMATION, "error"}
    && forall p :: p in s.runs ==> s.runs[p].pc.Off?
  }

  /** No parcel is needed by two of the runs. */
  ghost predicate Disjoint(specs: seq<Key>, s: Shared) {
    forall p, q, i: nat :: p in s.runs && q in s.runs && p != q && Needs(specs, s.runs[p], i)
                           ==> !Needs(specs, s.runs[q], i)
  }

  // ---- Disjoint needs: one POST per parcel --------------------------------------------------------------

  /** The first parcel the run has not dealt with. */
  function Position(pc: Pc): nat {
    match pc
    case Off => 0
    case At(i) => i
    case Posted(i, _) => i + 1
    case Saved(i, _) => i + 1
    case Waiting(i, _, _) => i + 1
    case Got(i, _, _) => i + 1
    case Leaving(i, _) => i + 1
  }

  predicate StillPosts(specs: seq<Key>, r: Run, i: nat) { Position(r.pc) <= i && Needs(specs, r, i) }

  ghost predicate ParcelOk(specs: seq<Key>, s0: Shared, s: Shared, i: nat) {
    && Posts(s.posted, |s0.posted|, i) <= 1
    && (Posts(s.posted, |s0.posted|, i) == 1 ==> forall p :: p in s.runs ==> !StillPosts(specs, s.runs[p], i))
    && (forall p :: p in s.runs ==> p in s0.runs && (StillPosts(specs, s.runs[p], i) ==> Needs(specs, s0.runs[p], i)))
  }

  lemma StepKeepsParcelOk(specs: seq<Key>, s0: Shared, s: Shared, m: Move, i: nat)
    requires Distinct(specs) && Disjoint(specs, s0) && |s0.posted| <= |s.posted|
    requires ParcelOk(specs, s0, s, i) && Enabled(specs, s, m)
    ensures ParcelOk(specs, s0, Apply(specs, s, m), i)
  {
    var t := Apply(specs, s, m);
    forall p | p in t.runs
      ensures p in s.runs && (StillPosts(specs, t.runs[p], i) ==> StillPosts(specs, s.runs[p], i)) {}
    if m.step == Post {
      PostsOneMore(s.posted, |s0.posted|, i, s.runs[m.p].pc.i);
      if s.runs[m.p].pc.i == i {
        assert StillPosts(specs, s.runs[m.p], i);
        assert !StillPosts(specs, t.runs[m.p], i);
      }
    }
  }

  lemma {:induction false} RunKeepsParcelOk(specs: seq<Key>, s0: Shared, moves: seq<Move>, i: nat)
    requires Opening(specs, s0) && Disjoint(specs, s0) && Legal(specs, s0, moves)
    ensures |s0.posted| <= |Exec(specs, s0, moves).posted| && ParcelOk(specs, s0, Exec(specs, s0, moves), i)
    decreases |moves|
  {
    if moves == [] {
    } else {
      var before := moves[..|moves| - 1];
      RunKeepsParcelOk(specs, s0, before, i);
      StepKeepsParcelOk(specs, s0, Exec(specs, s0, before), moves[|moves| - 1], i);
    }
  }

  // ---- A shared need: two POSTs ----------------------------------------------------------------------------

  lemma Then(specs: seq<Key>, s: Shared, moves: seq<Move>, t: Shared, p: int, step: Step)
    returns (more: seq<Move>, next: Shared)
    requires Legal(specs, s, moves) && Exec(specs, s, moves) == t && Enabled(specs, t, Move(p, step))
    ensures Legal(specs, s, more) && Exec(specs, s, more) == next == Apply(specs, t, Move(p, step))
  {
    more, next := moves + [Move(p, step)], Apply(specs, t, Move(p, step));
    assert more[..|moves|] == moves;
  }

  /** What one run's progress leaves alone: the other runs, and what was posted. */
  ghost predicate OnlyMoved(s: Shared, t: Shared, p: int) {
    && s.runs.Keys == t.runs.Keys && p in s.runs && s.posted <= t.posted
    && (forall q :: q in s.runs && q != p ==> t.runs[q] == s.runs[q])
  }

  lemma ShipParcel(specs: seq<Key>, s: Shared, moves: seq<Move>, t: Shared, p: int)
    returns (more: seq<Move>, u: Shared)
    requires Legal(specs, s, moves) && Exec(specs, s, moves) == t && p in t.runs
    requires t.runs[p].pc.Waiting? && t.runs[p].pc.tries == 0 && t.runs[p].pc.i < |specs|
    ensures Legal(specs, s, more) && Exec(specs, s, more) == u && OnlyMoved(t, u, p)
    ensures u.runs[p].pc == At(t.runs[p].pc.i + 1) && u.runs[p].legacy == t.runs[p].legacy
    ensures u.runs[p].mine.Keys == t.runs[p].mine.Keys + {specs[t.runs[p].pc.i]}
  {
    more, u := Then(specs, s, moves, t, p, PollSuccess);
    more, u := Then(specs, s, more, u, p, SaveShipment);
  }

  /** From the command on, every parcel can be finished. */
  lemma FinishParcel(specs: seq<Key>, s: Shared, moves: seq<Move>, t: Shared, p: int)
    returns (more: seq<Move>, u: Shared)
    requires Legal(specs, s, moves) && Exec(specs, s, moves) == t && Enabled(specs, t, Move(p, SaveCheckpoint))
    requires t.runs[p].pc.At? || t.runs[p].pc.Saved?
    ensures Legal(specs, s, more) && Exec(specs, s, more) == u && OnlyMoved(t, u, p)
    ensures u.runs[p].pc == At(t.runs[p].pc.i + 1) && u.runs[p].legacy == t.runs[p].legacy
    ensures u.runs[p].mine.Keys == t.runs[p].mine.Keys + {specs[t.runs[p].pc.i]}
  {
    more, u := Then(specs, s, moves, t, p, SaveCheckpoint);
    more, u := ShipParcel(specs, s, more, u, p);
  }

  /** Post the parcel the run stands at, and save the command: the draft can be claimed again. */
  lemma PostParcel(specs: seq<Key>, s: Shared, moves: seq<Move>, t: Shared, p: int)
    returns (more: seq<Move>, u: Shared)
    requires Legal(specs, s, moves) && Exec(specs, s, moves) == t && Enabled(specs, t, Move(p, Post))
    ensures Legal(specs, s, more) && Exec(specs, s, more) == u && OnlyMoved(t, u, p)
    ensures u.posted == t.posted + [t.runs[p].pc.i] && u.draft.status == PENDING_CONFIRMATION
    ensures u.runs[p] == t.runs[p].(pc := Saved(t.runs[p].pc.i, |t.posted|))
  {
    more, u := Then(specs, s, moves, t, p, Post);
    more, u := Then(specs, s, more, u, p, SaveCommand);
  }

  /** Any run can be brought from one parcel to the next. */
  lemma NextParcel(specs: seq<Key>, s: Shared, moves: seq<Move>, t: Shared, p: int)
    returns (more: seq<Move>, u: Shared)
    requires Legal(specs, s, moves) && Exec(specs, s, moves) == t
    requires p in t.runs && t.runs[p].pc.At? && t.runs[p].pc.i < |specs|
    ensures Legal(specs, s, more) && Exec(specs, s, more) == u && OnlyMoved(t, u, p)
    ensures u.runs[p].pc == At(t.runs[p].pc.i + 1) && u.runs[p].legacy == t.runs[p].legacy
    ensures u.runs[p].mine.Keys <= t.runs[p].mine.Keys + {specs[t.runs[p].pc.i]}
  {
    var i := t.runs[p].pc.i;
    if Shipped(specs, t.runs[p].mine, i) {
      more, u := Then(specs, s, moves, t, p, Skip);
    } else if Needs(specs, t.runs[p], i) {
      more, u := PostParcel(specs, s, moves, t, p);
      more, u := FinishParcel(specs, s, more, u, p);
    } else {
      more, u := FinishParcel(specs, s, moves, t, p);
    }
  }

  /** A run can be brought to any parcel it needs, still needing it. */
  lemma {:induction false} Reach(specs: seq<Key>, s: Shared, moves: seq<Move>, t: Shared, p: int, i: nat)
    returns (more: seq<Move>, u: Shared)
    requires Distinct(specs) && Legal(specs, s, moves) && Exec(specs, s, moves) == t
    requires p in t.runs && t.runs[p].pc.At? && t.runs[p].pc.i <= i && Needs(specs, t.runs[p], i)
    ensures Legal(specs, s, more) && Exec(specs, s, more) == u && OnlyMoved(t, u, p)
    ensures u.runs[p].pc == At(i) && Needs(specs, u.runs[p], i)
    decreases i - t.runs[p].pc.i
  {
    if t.runs[p].pc.i == i {
      more, u := moves, t;
    } else {
      var next: Shared;
      more, next := NextParcel(specs, s, moves, t, p);
      more, u := Reach(specs, s, more, next, p, i);
    }
  }

  /** Start a run, bring it to a parcel it needs, and let it post and save that parcel. */
  lemma StartAndPost(specs: seq<Key>, s: Shared, moves: seq<Move>, t: Shared, p: int, i: nat)
    returns (more: seq<Move>, u: Shared)
    requires Distinct(specs) && Legal(specs, s, moves) && Exec(specs, s, moves) == t
    requires p in t.runs && t.runs[p].pc.Off? && Needs(specs, t.runs[p], i)
    requires t.draft.status in {"pending", PENDING_CONFIRMATION, "error"}
    ensures Legal(specs, s, more) && Exec(specs, s, more) == u && OnlyMoved(t, u, p)
    ensures u.draft.status == PENDING_CONFIRMATION
    ensures exists before :: t.posted <= before && u.posted == before + [i]
  {
    more, u := Then(specs, s, moves, t, p, Start(t.runs[p].claims));
    more, u := Reach(specs, s, more, u, p, i);
    ghost var before := u.posted;
    more, u := PostParcel(specs, s, more, u, p);
  }

  lemma {:induction false} PostsGrow(a: seq<nat>, b: seq<nat>, from: nat, i: nat)
    requires a <= b && from <= |a|
    ensures Posts(a, from, i) <= Posts(b, from, i)
    decreases |b|
  {
    if |a| == |b| {
      assert a == b;
    } else {
      PostsGrow(a, b[..|b| - 1], from, i);
    }
  }

  /** Any two runs that need the same parcel can both post it: the second starts once the first has saved
      its command. */
  lemma SharedNeedPostsTwice(specs: seq<Key>, s: Shared, p: int, q: int, i: nat) returns (moves: seq<Move>)
    requires Opening(specs, s) && p in s.runs && q in s.runs && p != q
    requires Needs(specs, s.runs[p], i) && Needs(specs, s.runs[q], i)
    ensures Legal(specs, s, moves) && Posts(Exec(specs, s, moves).posted, |s.posted|, i) >= 2
  {
    var t, u: Shared;
    moves, t := StartAndPost(specs, s, [], s, p, i);
    var first :| s.posted <= first && t.posted == first + [i];
    PostsOneMore(first, |s.posted|, i, i);
    moves, u := StartAndPost(specs, s, moves, t, q, i);
    var second :| t.posted <= second && u.posted == second + [i];
    PostsGrow(t.posted, second, |s.posted|, i);
    PostsOneMore(second, |s.posted|, i, i);
  }

  /** Main result on overlapping runs: for any number of runs, claimed or confirming, that have read the
      draft, every parcel is posted at most once in every interleaving - stops, give-ups and writes over each
      other included - if and only if no parcel is needed by two of the reads. */
  lemma OverlapIsExact(specs: seq<Key>, s: Shared)
    requires Opening(specs, s)
    ensures (forall moves, i: nat :: Legal(specs, s, moves) ==> Posts(Exec(specs, s, moves).posted, |s.posted|, i) <= 1)
            <==> Disjoint(specs, s)
  {
    if Disjoint(specs, s) {
      forall moves, i: nat | Legal(specs, s, moves)
        ensures Posts(Exec(specs, s, moves).posted, |s.posted|, i) <= 1
      {
        RunKeepsParcelOk(specs, s, moves, i);
      }
    } else {
      var p, q, i: nat :| p in s.runs && q in s.runs && p != q
                          && Needs(specs, s.runs[p], i) && Needs(specs, s.runs[q], i);
      var moves := SharedNeedPostsTwice(specs, s, p, q, i);
    }
  }

  /** Two callers that read the same draft: safe together exactly when every parcel already has a command
      they both see. */
  lemma SameReadIsExact(specs: seq<Key>, s: Shared, d: Draft, a: bool, b: bool)
    requires Opening(specs, s) && s.runs == map[0 := ReadDraft(d, a), 1 := ReadDraft(d, b)]
    ensures (forall moves, i: nat :: Legal(specs, s, moves) ==> Posts(Exec(specs, s, moves).posted, |s.posted|, i) <= 1)
            <==> forall i :: 0 <= i < |specs| ==>
                   specs[i] in d.ships || (i == 0 && d.status == PENDING_CONFIRMATION && d.legacy.Some?)
  {
    OverlapIsExact(specs, s);
    forall i: nat ensures Needs(specs, s.runs[0], i) <==> Needs(specs, s.runs[1], i) {}
    if forall i :: 0 <= i < |specs| ==>
         specs[i] in d.ships || (i == 0 && d.status == PENDING_CONFIRMATION && d.legacy.Some?) {
      assert forall i: nat :: !Needs(specs, s.runs[0], i);
    } else {
      var i :| 0 <= i < |specs|
               && !(specs[i] in d.ships || (i == 0 && d.status == PENDING_CONFIRMATION && d.legacy.Some?));
      assert Needs(specs, s.runs[0], i) && Needs(specs, s.runs[1], i);
    }
  }
}
