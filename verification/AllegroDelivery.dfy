/**
 Checkpointed multi-parcel execution against an asynchronous provider
 (zdrovena/api/shipping_execution_composition.py, _run_allegro_delivery and the two callers that give
 it its checkpoint callbacks) as a machine whose steps are the durable effects. A run may stop at any
 point — a crash or an exception — and a later run resumes from what was written down.

 Command ids are fresh, so a command is named by its position among all POSTs ever made; shipment ids
 likewise by their position among all shipments the provider made.
 */
module AllegroDelivery {
  import opened Prelude

  type Cmd = nat

  /** (package type, package number) */
  type Key = (string, nat)

  /** One entry of `courier_shipments`; its `id` is "" until the shipment is known. */
  datatype Checkpoint = Checkpoint(cmd: Cmd, shipment: Option<nat>)

  const PENDING_CONFIRMATION := "pending_confirmation"
  const EXECUTING := "executing"
  const CREATED := "created"

  /** The durable draft columns the run reads and writes; `legacy` is `allegro_command_id`. */
  datatype Draft = Draft(status: string, legacy: Option<Cmd>, ships: map<Key, Checkpoint>)

  datatype Pc =
    | Off
    | At(i: nat)                              // top of the loop for parcel i
    | Posted(i: nat, c: Cmd)                  // command posted, nothing saved
    | Saved(i: nat, c: Cmd)                   // command id saved on the draft
    | Waiting(i: nat, c: Cmd, tries: nat)     // checkpoint saved, polling
    | Got(i: nat, c: Cmd, shipment: nat)      // shipment known, not saved
    | Leaving(i: nat, c: Cmd)                 // gave up polling, pending result not saved

  /** `posted[c]` is the parcel command c was posted for; `polls`, `made` and `shipments` are the
      provider's; `gaps`, `discards` and `pends` count what the theorems bound. */
  datatype State = State(
    draft: Draft,
    fromPending: bool,          // the draft the current run was given had status pending_confirmation
    active: Option<Cmd>,
    pc: Pc,
    posted: seq<nat>,
    polls: seq<nat>,
    made: seq<Option<nat>>,
    shipments: nat,
    gaps: nat,                  // stops between a POST and its first usable record
    discards: nat,              // saved ids overwritten before any checkpoint held them
    pends: seq<nat>)            // pending results, per parcel

  datatype Step =
    | Start(claim: bool)
    | Skip
    | Post
    | SaveCommand
    | SaveCheckpoint
    | PollPending
    | PollSuccess
    | SaveShipment
    | GiveUp
    | SavePending
    | SaveCreated
    | Stop                      // crash, or an exception out of the run
    | SetStatus(status: string) // between runs, anyone may change the status

  const ATTEMPTS: nat := 3

  /** The command parcel `i` resumes, if any: its own checkpoint's, or for the first parcel of a draft
      handed over as pending the id saved on the draft. */
  function Usable(specs: seq<Key>, s: State, i: nat): Option<Cmd>
    requires i < |specs|
  {
    if specs[i] in s.draft.ships then Some(s.draft.ships[specs[i]].cmd)
    else if i == 0 && s.fromPending then s.draft.legacy
    else None
  }

  predicate Shipped(specs: seq<Key>, ships: map<Key, Checkpoint>, i: nat)
    requires i < |specs|
  {
    specs[i] in ships && ships[specs[i]].shipment.Some?
  }

  /** Parcel `i` is the last one with a checkpoint, and waits for command `c`. */
  predicate Open(specs: seq<Key>, ships: map<Key, Checkpoint>, i: nat, c: Cmd) {
    i < |specs| && i == |ships| - 1 && specs[i] in ships && ships[specs[i]] == Checkpoint(c, None)
  }

  /** A draft can be executed from the executable states, and confirmed while pending if it shows a command. */
  predicate Startable(s: State, claim: bool) {
    if claim then s.draft.status in {"pending", PENDING_CONFIRMATION, "error"}
    else s.draft.status == PENDING_CONFIRMATION
         && (s.draft.legacy.Some? || exists k :: k in s.draft.ships && s.draft.ships[k].shipment.None?)
  }

  predicate Enabled(specs: seq<Key>, s: State, step: Step) {
    match step
    case Start(claim) => s.pc.Off? && Startable(s, claim)
    case Skip => s.pc.At? && s.pc.i < |specs| && Shipped(specs, s.draft.ships, s.pc.i)
    case Post =>
      s.pc.At? && s.pc.i < |specs| && !Shipped(specs, s.draft.ships, s.pc.i) && Usable(specs, s, s.pc.i).None?
    case SaveCommand => s.pc.Posted?
    case SaveCheckpoint =>
      (s.pc.Saved? && s.pc.i < |specs|)
      || (s.pc.At? && s.pc.i < |specs| && !Shipped(specs, s.draft.ships, s.pc.i) && Usable(specs, s, s.pc.i).Some?)
    case PollPending => s.pc.Waiting? && s.pc.tries < ATTEMPTS && s.pc.c < |s.polls|
    case PollSuccess => s.pc.Waiting? && s.pc.tries < ATTEMPTS && s.pc.c < |s.polls| && s.pc.c < |s.made|
    case SaveShipment => s.pc.Got? && s.pc.i < |specs|
    case GiveUp => s.pc.Waiting? && s.pc.tries == ATTEMPTS && s.pc.i < |s.pends|
    case SavePending => s.pc.Leaving?
    case SaveCreated => s.pc == At(|specs|)
    case Stop => !s.pc.Off?
    case SetStatus(_) => s.pc.Off?
  }

  function Apply(specs: seq<Key>, s: State, step: Step): State
    requires Enabled(specs, s, step)
  {
    match step
    case Start(claim) =>
      s.(pc := At(0), active := None, fromPending := s.draft.status == PENDING_CONFIRMATION,
         draft := if claim then s.draft.(status := EXECUTING) else s.draft)
    case Skip => s.(pc := At(s.pc.i + 1))
    case Post =>
      s.(pc := Posted(s.pc.i, |s.posted|), posted := s.posted + [s.pc.i],
         polls := s.polls + [0], made := s.made + [None])
    case SaveCommand =>
      s.(pc := Saved(s.pc.i, s.pc.c), draft := s.draft.(legacy := Some(s.pc.c), status := PENDING_CONFIRMATION),
         discards := s.discards + if s.draft.ships == map[] && s.draft.legacy.Some? then 1 else 0)
    case SaveCheckpoint =>
      var c := if s.pc.Saved? then s.pc.c else Usable(specs, s, s.pc.i).value;
      s.(pc := Waiting(s.pc.i, c, 0), active := Some(c),
         draft := s.draft.(ships := s.draft.ships[specs[s.pc.i] := Checkpoint(c, None)]))
    case PollPending =>
      s.(pc := s.pc.(tries := s.pc.tries + 1), polls := s.polls[s.pc.c := s.polls[s.pc.c] + 1])
    case PollSuccess =>
      var c := s.pc.c;
      var isNew := s.made[c].None?;
      var shipment := if isNew then s.shipments else s.made[c].value;
      s.(pc := Got(s.pc.i, c, shipment), polls := s.polls[c := s.polls[c] + 1],
         made := s.made[c := Some(shipment)], shipments := if isNew then s.shipments + 1 else s.shipments)
    case SaveShipment =>
      s.(pc := At(s.pc.i + 1),
         draft := s.draft.(ships := s.draft.ships[specs[s.pc.i] := Checkpoint(s.pc.c, Some(s.pc.shipment))]))
    case GiveUp => s.(pc := Leaving(s.pc.i, s.pc.c), pends := s.pends[s.pc.i := s.pends[s.pc.i] + 1])
    case SavePending =>
      s.(pc := Off, draft := s.draft.(status := PENDING_CONFIRMATION, legacy := Some(s.pc.c)))
    case SaveCreated => s.(pc := Off, draft := s.draft.(status := CREATED, legacy := s.active))
    case Stop =>
      s.(pc := Off, gaps := s.gaps + if s.pc.Posted? || (s.pc.Saved? && s.pc.i > 0) then 1 else 0)
    case SetStatus(status) => s.(draft := s.draft.(status := status))
  }

  /** Any run may stop wherever it is, between runs anybody may set the status, and a poll may find the command
      done or not, up to three times. */
  lemma AnythingMayHappen(specs: seq<Key>, s: State, status: string)
    requires Inv(specs, s)
    ensures !s.pc.Off? ==> Enabled(specs, s, Stop) && Apply(specs, s, Stop).pc.Off?
                           && Apply(specs, s, Stop).draft == s.draft
    ensures s.pc.Off? ==> Enabled(specs, s, SetStatus(status))
                          && Apply(specs, s, SetStatus(status)) == s.(draft := s.draft.(status := status))
    ensures s.pc.Waiting? ==>
              (Enabled(specs, s, PollPending) <==> s.pc.tries < 3)
              && (Enabled(specs, s, PollSuccess) <==> s.pc.tries < 3)
              && (Enabled(specs, s, GiveUp) <==> s.pc.tries == 3)
  {
    if s.pc.Waiting? { assert CheckpointOk(s.draft.ships[specs[s.pc.i]], s.pc.i, s.posted, s.made); }
  }

  /** Runs, oldest step first. */
  ghost predicate Legal(specs: seq<Key>, s: State, steps: seq<Step>)
    decreases |steps|, 0
  {
    steps == [] ||
    (Legal(specs, s, steps[..|steps| - 1])
     && Enabled(specs, Exec(specs, s, steps[..|steps| - 1]), steps[|steps| - 1]))
  }

  ghost function Exec(specs: seq<Key>, s: State, steps: seq<Step>): State
    requires Legal(specs, s, steps)
    decreases |steps|, 1
  {
    if steps == [] then s
    else Apply(specs, Exec(specs, s, steps[..|steps| - 1]), steps[|steps| - 1])
  }

  lemma Extend(specs: seq<Key>, s: State, steps: seq<Step>, step: Step)
    requires Legal(specs, s, steps) && Enabled(specs, Exec(specs, s, steps), step)
    ensures Legal(specs, s, steps + [step])
    ensures Exec(specs, s, steps + [step]) == Apply(specs, Exec(specs, s, steps), step)
  {
    assert (steps + [step])[..|steps|] == steps;
  }

  /** A draft before its first run: nothing posted, or one command posted for the first parcel by a
      version that saved only the id on the draft. */
  ghost predicate Init(specs: seq<Key>, s: State) {
    && Distinct(specs) && specs != []
    && s.pc.Off? && s.draft.ships == map[]
    && ((s.posted == [] && s.draft.legacy.None?) || (s.posted == [0] && s.draft.legacy == Some(0)))
    && s.polls == seq(|s.posted|, _ => 0) && s.made == seq(|s.posted|, _ => None)
    && s.shipments == 0 && s.gaps == 0 && s.discards == 0
    && s.pends == seq(|specs|, _ => 0)
  }

  /** Any draft nothing was posted for is such a state, and so is one with one saved command and no checkpoint. */
  lemma FreshDraftsAreInit(specs: seq<Key>, status: string, fromPending: bool)
    requires Distinct(specs) && specs != []
    ensures var zeros, empty, saved := seq(|specs|, _ => 0), Draft(status, None, map[]), Draft(status, Some(0), map[]);
            && Init(specs, State(empty, fromPending, None, Off, [], [], [], 0, 0, 0, zeros))
            && Init(specs, State(saved, fromPending, None, Off, [0], [0], [None], 0, 0, 0, zeros))
  {
  }

  // ---- The invariant, on the parts of the state each clause needs -----------------------------------

  type Ships = map<Key, Checkpoint>

  /** Checkpoints fill the parcels in order, only the last may be open, and each holds a command posted
      for its own parcel and, once known, the shipment the provider made for that command. */
  ghost predicate CheckpointsOk(specs: seq<Key>, ships: Ships, posted: seq<nat>, made: seq<Option<nat>>) {
    && |ships| <= |specs|
    && (forall k :: k in ships ==> k in specs)
    && (forall i :: 0 <= i < |specs| ==> (specs[i] in ships <==> i < |ships|))
    && (forall i :: 0 <= i < |ships| - 1 ==> Shipped(specs, ships, i))
    && (forall i :: 0 <= i < |ships| ==> CheckpointOk(ships[specs[i]], i, posted, made))
  }

  predicate CheckpointOk(p: Checkpoint, i: nat, posted: seq<nat>, made: seq<Option<nat>>) {
    p.cmd < |posted| && posted[p.cmd] == i
    && (p.shipment.Some? ==> p.cmd < |made| && made[p.cmd] == p.shipment)
  }

  ghost predicate AllShipped(specs: seq<Key>, ships: Ships, i: nat) {
    i <= |specs| && forall j :: 0 <= j < i ==> Shipped(specs, ships, j)
  }

  /** Command `c` was just posted for parcel `i`, the first one without a checkpoint. */
  ghost predicate Fresh(specs: seq<Key>, ships: Ships, posted: seq<nat>, i: nat, c: Cmd) {
    i == |ships| < |specs| && AllShipped(specs, ships, i) && c < |posted| && posted[c] == i
  }

  ghost predicate PcOk(specs: seq<Key>, ships: Ships, posted: seq<nat>, made: seq<Option<nat>>,
                       legacy: Option<Cmd>, pc: Pc) {
    match pc
    case Off => true
    case At(i) => i <= |ships| && AllShipped(specs, ships, i)
    case Posted(i, c) => Fresh(specs, ships, posted, i, c)
    case Saved(i, c) => Fresh(specs, ships, posted, i, c) && legacy == Some(c)
    case Waiting(i, c, tries) => tries <= ATTEMPTS && Open(specs, ships, i, c)
    case Got(i, c, x) => Open(specs, ships, i, c) && c < |made| && made[c] == Some(x)
    case Leaving(i, c) => Open(specs, ships, i, c)
  }

  /** One shipment per command at most, and never one shipment for two commands. */
  ghost predicate ProviderOk(posted: seq<nat>, polls: seq<nat>, made: seq<Option<nat>>, shipments: nat) {
    && |polls| == |posted| && |made| == |posted|
    && (forall c :: 0 <= c < |made| && made[c].Some? ==> made[c].value < shipments)
    && (forall c, c' :: 0 <= c < c' < |made| && made[c].Some? && made[c'].Some? ==> made[c] != made[c'])
  }

  ghost predicate PostedOk(specs: seq<Key>, posted: seq<nat>) {
    forall c :: 0 <= c < |posted| ==> posted[c] < |specs|
  }

  /** Until the first checkpoint exists, an id saved on the draft belongs to the first parcel. */
  predicate LegacyOk(held: nat, legacy: Option<Cmd>, posted: seq<nat>) {
    held == 0 && legacy.Some? ==> legacy.value < |posted| && posted[legacy.value] == 0
  }

  function InFlight(pc: Pc): nat { if pc.Posted? || pc.Saved? then 1 else 0 }

  /** A command id saved on the draft but in no checkpoint yet, other than the one under way. */
  function Loose(held: nat, legacy: Option<Cmd>, pc: Pc): nat {
    if legacy.Some? && held == 0 && !pc.Saved? then 1 else 0
  }

  /** Every POST is accounted for, exactly once: by a checkpoint, by being under way, by the id saved on the
      draft, by a stop in the gap, or by an overwritten id. */
  predicate Accounted(posts: nat, held: nat, legacy: Option<Cmd>, pc: Pc, lost: nat) {
    posts == held + InFlight(pc) + Loose(held, legacy, pc) + lost
  }

  ghost predicate ParcelsInOrder(posted: seq<nat>) {
    forall c :: 0 <= c < |posted| ==> posted[c] == c
  }

  ghost predicate Inv(specs: seq<Key>, s: State) {
    && Distinct(specs) && specs != [] && |s.pends| == |specs|
    && CheckpointsOk(specs, s.draft.ships, s.posted, s.made)
    && PcOk(specs, s.draft.ships, s.posted, s.made, s.draft.legacy, s.pc)
    && ProviderOk(s.posted, s.polls, s.made, s.shipments)
    && PostedOk(specs, s.posted)
    && LegacyOk(|s.draft.ships|, s.draft.legacy, s.posted)
    && Accounted(|s.posted|, |s.draft.ships|, s.draft.legacy, s.pc, s.gaps + s.discards)
    && (s.gaps + s.discards == 0 && (s.pc.Posted? ==> Loose(|s.draft.ships|, s.draft.legacy, s.pc) == 0)
        ==> ParcelsInOrder(s.posted))
  }

  lemma InitInv(specs: seq<Key>, s: State)
    requires Init(specs, s)
    ensures Inv(specs, s)
  {
  }

  // ---- Each durable change keeps it ---------------------------------------------------------------

  lemma FirstCheckpoint(specs: seq<Key>, ships: Ships, posted: seq<nat>, made: seq<Option<nat>>, i: nat, c: Cmd)
    requires Distinct(specs) && CheckpointsOk(specs, ships, posted, made) && Fresh(specs, ships, posted, i, c)
    ensures var after := ships[specs[i] := Checkpoint(c, None)];
            CheckpointsOk(specs, after, posted, made) && Open(specs, after, i, c)
  {
    var after := ships[specs[i] := Checkpoint(c, None)];
    assert specs[i] !in ships && |after| == |ships| + 1;
    forall j | 0 <= j < |after| - 1 ensures Shipped(specs, after, j) {
      assert Shipped(specs, ships, j) && specs[j] != specs[i];
    }
    forall j | 0 <= j < |specs| ensures specs[j] in after <==> j < |after| {
      assert specs[j] == specs[i] ==> j == i;
    }
    forall j | 0 <= j < |after| ensures CheckpointOk(after[specs[j]], j, posted, made) {
      if j < i { assert CheckpointOk(ships[specs[j]], j, posted, made) && specs[j] != specs[i]; }
    }
  }

  lemma ShipmentSaved(specs: seq<Key>, ships: Ships, posted: seq<nat>, made: seq<Option<nat>>, i: nat, c: Cmd, x: nat)
    requires Distinct(specs) && CheckpointsOk(specs, ships, posted, made) && Open(specs, ships, i, c)
    requires c < |made| && made[c] == Some(x)
    ensures var after := ships[specs[i] := Checkpoint(c, Some(x))];
            CheckpointsOk(specs, after, posted, made) && AllShipped(specs, after, i + 1) && |after| == |ships|
  {
    var after := ships[specs[i] := Checkpoint(c, Some(x))];
    assert after.Keys == ships.Keys;
    assert |after| == |after.Keys| && |ships| == |ships.Keys|;
    assert CheckpointOk(ships[specs[i]], i, posted, made);
    forall j | 0 <= j < i + 1 ensures Shipped(specs, after, j) {
      if j < i { assert Shipped(specs, ships, j) && specs[j] != specs[i]; }
    }
    forall j | 0 <= j < |after| ensures CheckpointOk(after[specs[j]], j, posted, made) {
      if j < i { assert CheckpointOk(ships[specs[j]], j, posted, made) && specs[j] != specs[i]; }
    }
  }

  lemma OnePosted(specs: seq<Key>, ships: Ships, posted: seq<nat>, made: seq<Option<nat>>, i: nat)
    requires CheckpointsOk(specs, ships, posted, made) && |made| == |posted|
    ensures CheckpointsOk(specs, ships, posted + [i], made + [None])
  {
    forall j | 0 <= j < |ships| ensures CheckpointOk(ships[specs[j]], j, posted + [i], made + [None]) {
      assert CheckpointOk(ships[specs[j]], j, posted, made);
    }
  }

  lemma ProviderPosted(
    specs: seq<Key>, posted: seq<nat>, polls: seq<nat>, made: seq<Option<nat>>, shipments: nat, i: nat)
    requires ProviderOk(posted, polls, made, shipments) && PostedOk(specs, posted) && i < |specs|
    ensures ProviderOk(posted + [i], polls + [0], made + [None], shipments) && PostedOk(specs, posted + [i])
    ensures ParcelsInOrder(posted) && i == |posted| ==> ParcelsInOrder(posted + [i])
  {
  }

  lemma OneMade(specs: seq<Key>, ships: Ships, posted: seq<nat>, made: seq<Option<nat>>, c: Cmd, x: nat)
    requires CheckpointsOk(specs, ships, posted, made) && c < |made|
    requires made[c].None? || made[c] == Some(x)
    ensures CheckpointsOk(specs, ships, posted, made[c := Some(x)])
  {
    forall j | 0 <= j < |ships| ensures CheckpointOk(ships[specs[j]], j, posted, made[c := Some(x)]) {
      assert CheckpointOk(ships[specs[j]], j, posted, made);
    }
  }

  /** At the top of the loop, a parcel with no shipment and no usable command is the first without a checkpoint. */
  lemma NextParcel(specs: seq<Key>, s: State)
    requires Inv(specs, s) && s.pc.At? && s.pc.i < |specs| && !Shipped(specs, s.draft.ships, s.pc.i)
    ensures specs[s.pc.i] in s.draft.ships ==> Open(specs, s.draft.ships, s.pc.i, s.draft.ships[specs[s.pc.i]].cmd)
    ensures specs[s.pc.i] !in s.draft.ships ==> s.pc.i == |s.draft.ships|
  {
  }

  lemma PostKeepsInv(specs: seq<Key>, s: State)
    requires Inv(specs, s) && Enabled(specs, s, Post)
    ensures Inv(specs, Apply(specs, s, Post))
  {
    NextParcel(specs, s);
    OnePosted(specs, s.draft.ships, s.posted, s.made, s.pc.i);
    ProviderPosted(specs, s.posted, s.polls, s.made, s.shipments, s.pc.i);
    var t := Apply(specs, s, Post);
    assert Fresh(specs, t.draft.ships, t.posted, s.pc.i, t.pc.c);
    assert LegacyOk(|t.draft.ships|, t.draft.legacy, t.posted);
  }

  lemma SaveCheckpointKeepsInv(specs: seq<Key>, s: State)
    requires Inv(specs, s) && Enabled(specs, s, SaveCheckpoint)
    ensures Inv(specs, Apply(specs, s, SaveCheckpoint))
  {
    var i := s.pc.i;
    if s.pc.At? && specs[i] in s.draft.ships {
      NextParcel(specs, s);
      var c := s.draft.ships[specs[i]].cmd;
      assert s.draft.ships[specs[i] := Checkpoint(c, None)] == s.draft.ships;
    } else if s.pc.At? {
      NextParcel(specs, s);
      FirstCheckpoint(specs, s.draft.ships, s.posted, s.made, i, s.draft.legacy.value);
    } else {
      FirstCheckpoint(specs, s.draft.ships, s.posted, s.made, i, s.pc.c);
    }
  }

  lemma PollSuccessKeepsInv(specs: seq<Key>, s: State)
    requires Inv(specs, s) && Enabled(specs, s, PollSuccess)
    ensures Inv(specs, Apply(specs, s, PollSuccess))
  {
    var x := if s.made[s.pc.c].None? then s.shipments else s.made[s.pc.c].value;
    OneMade(specs, s.draft.ships, s.posted, s.made, s.pc.c, x);
  }

  lemma SaveShipmentKeepsInv(specs: seq<Key>, s: State)
    requires Inv(specs, s) && Enabled(specs, s, SaveShipment)
    ensures Inv(specs, Apply(specs, s, SaveShipment))
  {
    ShipmentSaved(specs, s.draft.ships, s.posted, s.made, s.pc.i, s.pc.c, s.pc.shipment);
  }

  lemma SkipKeepsInv(specs: seq<Key>, s: State)
    requires Inv(specs, s) && Enabled(specs, s, Skip)
    ensures Inv(specs, Apply(specs, s, Skip))
  {
    assert specs[s.pc.i] in s.draft.ships;
  }

  lemma DraftWriteKeepsInv(specs: seq<Key>, s: State, step: Step)
    requires Inv(specs, s) && Enabled(specs, s, step)
    requires step in {SaveCommand, SavePending, SaveCreated} || step.Start? || step.SetStatus?
    ensures Inv(specs, Apply(specs, s, step))
  {
    if step.SaveCreated? { assert s.pc.i == |specs| && Shipped(specs, s.draft.ships, 0); }
  }

  lemma RunStepKeepsInv(specs: seq<Key>, s: State, step: Step)
    requires Inv(specs, s) && Enabled(specs, s, step) && step in {PollPending, GiveUp, Stop}
    ensures Inv(specs, Apply(specs, s, step))
  {
  }

  lemma StepKeepsInv(specs: seq<Key>, s: State, step: Step)
    requires Inv(specs, s) && Enabled(specs, s, step)
    ensures Inv(specs, Apply(specs, s, step))
  {
    match step
    case Post => PostKeepsInv(specs, s);
    case SaveCheckpoint => SaveCheckpointKeepsInv(specs, s);
    case PollSuccess => PollSuccessKeepsInv(specs, s);
    case SaveShipment => SaveShipmentKeepsInv(specs, s);
    case Skip => SkipKeepsInv(specs, s);
    case Start(_) => DraftWriteKeepsInv(specs, s, step);
    case SetStatus(_) => DraftWriteKeepsInv(specs, s, step);
    case SaveCommand => DraftWriteKeepsInv(specs, s, step);
    case SavePending => DraftWriteKeepsInv(specs, s, step);
    case SaveCreated => DraftWriteKeepsInv(specs, s, step);
    case _ => RunStepKeepsInv(specs, s, step);
  }

  lemma {:induction false} RunKeepsInv(specs: seq<Key>, s: State, steps: seq<Step>)
    requires Inv(specs, s) && Legal(specs, s, steps)
    ensures Inv(specs, Exec(specs, s, steps))
    decreases |steps|
  {
    if steps == [] {
    } else {
      RunKeepsInv(specs, s, steps[..|steps| - 1]);
      StepKeepsInv(specs, Exec(specs, s, steps[..|steps| - 1]), steps[|steps| - 1]);
    }
  }

  // ---- Main results ------------------------------------------------------------------------------

  /** How many parcels have their shipment: all with a checkpoint, or all but the open last one. */
  function Done(specs: seq<Key>, ships: Ships): nat {
    if ships != map[] && |ships| <= |specs| && !Shipped(specs, ships, |ships| - 1) then |ships| - 1 else |ships|
  }

  /** Whatever runs, stops and resumes happen: parcels with a shipment form a prefix of the specs, at most
      the next one has an open command, and no later one has anything. */
  lemma CheckpointsFormAPrefix(specs: seq<Key>, s: State, steps: seq<Step>)
    requires Init(specs, s) && Legal(specs, s, steps)
    ensures var ships := Exec(specs, s, steps).draft.ships;
            var done := Done(specs, ships);
            && done <= |specs|
            && (forall i :: 0 <= i < |specs| ==> (Shipped(specs, ships, i) <==> i < done))
            && (forall i :: done < i < |specs| ==> specs[i] !in ships)
  {
    InitInv(specs, s);
    RunKeepsInv(specs, s, steps);
    var t := Exec(specs, s, steps);
    DoneIsPrefix(specs, t.draft.ships, t.posted, t.made);
  }

  lemma DoneIsPrefix(specs: seq<Key>, ships: Ships, posted: seq<nat>, made: seq<Option<nat>>)
    requires CheckpointsOk(specs, ships, posted, made)
    ensures Done(specs, ships) <= |specs|
    ensures forall i :: 0 <= i < |specs| ==> (Shipped(specs, ships, i) <==> i < Done(specs, ships))
    ensures forall i :: Done(specs, ships) < i < |specs| ==> specs[i] !in ships
  {
    forall i | 0 <= i < |specs| ensures Shipped(specs, ships, i) <==> i < Done(specs, ships) {
      assert specs[i] in ships <==> i < |ships|;
      if i < |ships| - 1 { assert Shipped(specs, ships, i); }
    }
  }

  function ShipmentOf(specs: seq<Key>, ships: Ships, i: nat): Option<nat>
    requires i < |specs|
  {
    if specs[i] in ships then ships[specs[i]].shipment else None
  }

  lemma OwnCheckpoint(specs: seq<Key>, ships: Ships, posted: seq<nat>, made: seq<Option<nat>>, i: nat)
    requires CheckpointsOk(specs, ships, posted, made) && i < |specs| && specs[i] in ships
    ensures CheckpointOk(ships[specs[i]], i, posted, made)
  {
    assert i < |ships|;
  }

  lemma OwnShipment(
    specs: seq<Key>, ships: Ships, posted: seq<nat>, polls: seq<nat>, made: seq<Option<nat>>, shipments: nat,
    i: nat, j: nat)
    requires CheckpointsOk(specs, ships, posted, made) && ProviderOk(posted, polls, made, shipments)
    requires i < j < |specs| && ShipmentOf(specs, ships, i).Some?
    ensures ShipmentOf(specs, ships, i) != ShipmentOf(specs, ships, j)
  {
    OwnCheckpoint(specs, ships, posted, made, i);
    if specs[j] in ships { OwnCheckpoint(specs, ships, posted, made, j); }
  }

  /** Every checkpointed command was posted for that very parcel, a recorded shipment is the one the
      provider made for it, and no two parcels share one. */
  lemma ShipmentsAreOwn(specs: seq<Key>, s: State, steps: seq<Step>)
    requires Init(specs, s) && Legal(specs, s, steps)
    ensures var t := Exec(specs, s, steps);
            && (forall i :: 0 <= i < |specs| && specs[i] in t.draft.ships ==>
                  CheckpointOk(t.draft.ships[specs[i]], i, t.posted, t.made))
            && (forall i, j :: 0 <= i < j < |specs| && ShipmentOf(specs, t.draft.ships, i).Some? ==>
                  ShipmentOf(specs, t.draft.ships, i) != ShipmentOf(specs, t.draft.ships, j))
  {
    InitInv(specs, s);
    RunKeepsInv(specs, s, steps);
    var t := Exec(specs, s, steps);
    forall i | 0 <= i < |specs| && specs[i] in t.draft.ships
      ensures CheckpointOk(t.draft.ships[specs[i]], i, t.posted, t.made)
    {
      OwnCheckpoint(specs, t.draft.ships, t.posted, t.made, i);
    }
    forall i, j | 0 <= i < j < |specs| && ShipmentOf(specs, t.draft.ships, i).Some?
      ensures ShipmentOf(specs, t.draft.ships, i) != ShipmentOf(specs, t.draft.ships, j)
    {
      OwnShipment(specs, t.draft.ships, t.posted, t.polls, t.made, t.shipments, i, j);
    }
  }

  /** A legacy id is only ever resumed for the first parcel, the one it was posted for. */
  lemma ResumesItsOwnCommand(specs: seq<Key>, s: State, steps: seq<Step>)
    requires Init(specs, s) && Legal(specs, s, steps)
    requires Enabled(specs, Exec(specs, s, steps), SaveCheckpoint)
    ensures var t := Apply(specs, Exec(specs, s, steps), SaveCheckpoint);
            t.pc.Waiting? && t.pc.c < |t.posted| && t.posted[t.pc.c] == t.pc.i
  {
    InitInv(specs, s);
    RunKeepsInv(specs, s, steps);
    StepKeepsInv(specs, Exec(specs, s, steps), SaveCheckpoint);
    var t := Apply(specs, Exec(specs, s, steps), SaveCheckpoint);
    assert CheckpointOk(t.draft.ships[specs[t.pc.i]], t.pc.i, t.posted, t.made);
  }

  /** The conservation law of commands: every POST ever made is in a checkpoint, under way, saved on the
      draft, lost to a stop in the gap, or overwritten - and in one of these places only. */
  lemma CommandsAreConserved(specs: seq<Key>, s: State, steps: seq<Step>)
    requires Init(specs, s) && Legal(specs, s, steps)
    ensures var t := Exec(specs, s, steps);
            |t.posted| == |t.draft.ships| + InFlight(t.pc) + Loose(|t.draft.ships|, t.draft.legacy, t.pc)
                          + t.gaps + t.discards
  {
    InitInv(specs, s);
    RunKeepsInv(specs, s, steps);
  }

  lemma ConservedBound(specs: seq<Key>, t: State)
    requires Inv(specs, t)
    ensures |t.posted| <= |specs| + t.gaps + t.discards + (if t.pc.Posted? && t.draft.legacy.Some? then 1 else 0)
  {
    if t.pc.Posted? || t.pc.Saved? { assert |t.draft.ships| < |specs|; }
  }

  /** So they never exceed the parcels by more than the stops in the gap, the overwritten ids, and a POST
      under way past a saved id. */
  lemma CommandsAreBounded(specs: seq<Key>, s: State, steps: seq<Step>)
    requires Init(specs, s) && Legal(specs, s, steps)
    ensures var t := Exec(specs, s, steps);
            |t.posted| <= |specs| + t.gaps + t.discards + (if t.pc.Posted? && t.draft.legacy.Some? then 1 else 0)
  {
    InitInv(specs, s);
    RunKeepsInv(specs, s, steps);
    ConservedBound(specs, Exec(specs, s, steps));
  }

  // ---- The bound by parcels and stops, and when exactly it holds -------------------------------------

  /** A draft whose columns show a saved command id and no checkpoint, with a status that keeps a run from
      resuming it. The next run posts the first parcel again. */
  predicate Forgets(d: Draft) {
    d.ships == map[] && d.legacy.Some? && d.status != PENDING_CONFIRMATION
  }

  /** Runs in which no delivery is started on such a draft. */
  ghost predicate Mindful(specs: seq<Key>, s: State, steps: seq<Step>)
    requires Legal(specs, s, steps)
    decreases |steps|
  {
    steps == []
    || (Mindful(specs, s, steps[..|steps| - 1])
        && (steps[|steps| - 1].Start? ==> !Forgets(Exec(specs, s, steps[..|steps| - 1]).draft)))
  }

  /** A run under way resumes the id saved on the draft, if there is one. */
  ghost predicate Remembers(s: State) {
    && (s.pc.At? && s.draft.ships == map[] && s.draft.legacy.Some? ==> s.fromPending)
    && (s.pc.Posted? && s.draft.ships == map[] ==> s.draft.legacy.None?)
  }

  lemma StepRemembers(specs: seq<Key>, s: State, step: Step)
    requires Inv(specs, s) && Remembers(s) && Enabled(specs, s, step)
    requires step.Start? ==> !Forgets(s.draft)
    ensures Remembers(Apply(specs, s, step)) && Apply(specs, s, step).discards == s.discards
  {
    if step == Post { NextParcel(specs, s); }
    if step in {Skip, SaveShipment} { assert specs[s.pc.i] in Apply(specs, s, step).draft.ships; }
  }

  lemma {:induction false} MindfulRunRemembers(specs: seq<Key>, s: State, steps: seq<Step>)
    requires Inv(specs, s) && Remembers(s) && Legal(specs, s, steps) && Mindful(specs, s, steps)
    ensures Inv(specs, Exec(specs, s, steps)) && Remembers(Exec(specs, s, steps))
    ensures Exec(specs, s, steps).discards == s.discards
    decreases |steps|
  {
    if steps == [] {
    } else {
      var before := steps[..|steps| - 1];
      MindfulRunRemembers(specs, s, before);
      StepRemembers(specs, Exec(specs, s, before), steps[|steps| - 1]);
      StepKeepsInv(specs, Exec(specs, s, before), steps[|steps| - 1]);
    }
  }

  lemma RememberedBound(specs: seq<Key>, s: State)
    requires Inv(specs, s) && Remembers(s)
    ensures |s.posted| <= |specs| + s.gaps + s.discards
  {
    ConservedBound(specs, s);
    if s.pc.Posted? { assert s.draft.ships == map[] <==> |s.draft.ships| == 0; }
  }

  /** From a start that remembers, every mindful continuation stays within the bound. */
  lemma MindfulContinuation(specs: seq<Key>, u: State, more: seq<Step>)
    requires Inv(specs, u) && Remembers(u) && Legal(specs, u, more) && Mindful(specs, u, more)
    ensures |Exec(specs, u, more).posted| <= |specs| + Exec(specs, u, more).gaps + u.discards
  {
    MindfulRunRemembers(specs, u, more);
    RememberedBound(specs, Exec(specs, u, more));
  }

  /** Mindful runs post at most one command per parcel and stop in the gap; without such a stop exactly one
      per parcel, in order. */
  lemma MindfulRunsAreBounded(specs: seq<Key>, s: State, steps: seq<Step>)
    requires Init(specs, s) && Legal(specs, s, steps) && Mindful(specs, s, steps)
    ensures var t := Exec(specs, s, steps);
            && t.discards == 0 && |t.posted| <= |specs| + t.gaps
            && (t.gaps == 0 ==> forall c :: 0 <= c < |t.posted| ==> t.posted[c] == c)
  {
    InitInv(specs, s);
    MindfulRunRemembers(specs, s, steps);
    RememberedBound(specs, Exec(specs, s, steps));
  }

  lemma Then(specs: seq<Key>, s: State, steps: seq<Step>, t: State, step: Step) returns (more: seq<Step>, next: State)
    requires Legal(specs, s, steps) && Exec(specs, s, steps) == t && Enabled(specs, t, step)
    ensures more == steps + [step]
    ensures Legal(specs, s, more) && Exec(specs, s, more) == next == Apply(specs, t, step)
  {
    Extend(specs, s, steps, step);
    more, next := steps + [step], Apply(specs, t, step);
  }

  /** The first three steps of a parcel nothing is known of: posted and saved twice ... */
  lemma PostingSteps(specs: seq<Key>, t: State) returns (a: State, b: State, c: State)
    requires Inv(specs, t) && t.pc.At? && t.pc.i == |t.draft.ships| < |specs| && Usable(specs, t, t.pc.i).None?
    ensures Enabled(specs, t, Post) && a == Apply(specs, t, Post)
    ensures Enabled(specs, a, SaveCommand) && b == Apply(specs, a, SaveCommand)
    ensures Enabled(specs, b, SaveCheckpoint) && c == Apply(specs, b, SaveCheckpoint)
    ensures c.pc == Waiting(t.pc.i, |t.posted|, 0) && specs[t.pc.i] in c.draft.ships
    ensures c.draft.ships.Keys == t.draft.ships.Keys + {specs[t.pc.i]} && |c.draft.ships| == t.pc.i + 1
    ensures c.gaps == t.gaps && |c.posted| == |c.polls| == |c.made| == |t.posted| + 1
  {
    assert specs[t.pc.i] !in t.draft.ships;
    a := Apply(specs, t, Post);
    b := Apply(specs, a, SaveCommand);
    c := Apply(specs, b, SaveCheckpoint);
  }

  /** ... and the last two: polled once and shipped. */
  lemma ShippingSteps(specs: seq<Key>, c: State) returns (d: State, e: State)
    requires c.pc.Waiting? && c.pc.tries == 0 && c.pc.i < |specs| && specs[c.pc.i] in c.draft.ships
    requires c.pc.c < |c.polls| && c.pc.c < |c.made|
    ensures Enabled(specs, c, PollSuccess) && d == Apply(specs, c, PollSuccess)
    ensures Enabled(specs, d, SaveShipment) && e == Apply(specs, d, SaveShipment)
    ensures e.pc == At(c.pc.i + 1) && |e.draft.ships| == |c.draft.ships|
    ensures e.gaps == c.gaps && e.posted == c.posted
  {
    d := Apply(specs, c, PollSuccess);
    e := Apply(specs, d, SaveShipment);
    assert e.draft.ships.Keys == c.draft.ships.Keys;
    assert |e.draft.ships| == |e.draft.ships.Keys| && |c.draft.ships| == |c.draft.ships.Keys|;
  }

  lemma OneParcel(specs: seq<Key>, s: State, steps: seq<Step>, t: State) returns (more: seq<Step>, u: State)
    requires Inv(specs, s) && Legal(specs, s, steps) && Mindful(specs, s, steps) && Exec(specs, s, steps) == t
    requires t.pc.At? && t.pc.i == |t.draft.ships| < |specs| && Usable(specs, t, t.pc.i).None?
    ensures Legal(specs, s, more) && Mindful(specs, s, more) && Exec(specs, s, more) == u
    ensures u.pc == At(t.pc.i + 1) && |u.draft.ships| == t.pc.i + 1
    ensures u.gaps == t.gaps && |u.posted| == |t.posted| + 1
  {
    RunKeepsInv(specs, s, steps);
    var _, _, c := PostingSteps(specs, t);
    var _, e := ShippingSteps(specs, c);
    more, u := ThenMindful(specs, s, steps, t, Post);
    more, u := ThenMindful(specs, s, more, u, SaveCommand);
    more, u := ThenMindful(specs, s, more, u, SaveCheckpoint);
    more, u := ThenMindful(specs, s, more, u, PollSuccess);
    more, u := ThenMindful(specs, s, more, u, SaveShipment);
  }

  lemma ThenMindful(specs: seq<Key>, s: State, steps: seq<Step>, t: State, step: Step)
    returns (more: seq<Step>, next: State)
    requires Legal(specs, s, steps) && Mindful(specs, s, steps) && Exec(specs, s, steps) == t
    requires Enabled(specs, t, step) && !step.Start?
    ensures Legal(specs, s, more) && Mindful(specs, s, more) && Exec(specs, s, more) == next == Apply(specs, t, step)
  {
    more, next := Then(specs, s, steps, t, step);
    assert more == steps + [step];
    assert more[..|more| - 1] == steps;
  }

  /** The rest of a delivery, from a parcel nothing is known of to the end. */
  lemma {:induction false} DeliverRest(specs: seq<Key>, s: State, steps: seq<Step>, t: State)
    returns (more: seq<Step>, u: State)
    requires Inv(specs, s) && Legal(specs, s, steps) && Mindful(specs, s, steps) && Exec(specs, s, steps) == t
    requires t.pc.At? && t.pc.i == |t.draft.ships| <= |specs|
    requires t.pc.i < |specs| ==> Usable(specs, t, t.pc.i).None?
    ensures Legal(specs, s, more) && Mindful(specs, s, more) && Exec(specs, s, more) == u
    ensures u.gaps == t.gaps && |u.posted| == |t.posted| + |specs| - t.pc.i
    decreases |specs| - t.pc.i
  {
    if t.pc.i == |specs| {
      more, u := steps, t;
    } else {
      more, u := OneParcel(specs, s, steps, t);
      RunKeepsInv(specs, s, more);
      more, u := DeliverRest(specs, s, more, u);
    }
  }

  /** From every reachable draft that forgets, starting costs a command: the run delivers all parcels, stops
      nowhere, and has posted one more than parcels, earlier stops and earlier overwritten ids explain. */
  lemma ForgetfulStartCostsACommand(specs: seq<Key>, s: State, steps: seq<Step>, claim: bool)
    returns (more: seq<Step>)
    requires Init(specs, s) && Legal(specs, s, steps)
    requires Enabled(specs, Exec(specs, s, steps), Start(claim)) && Forgets(Exec(specs, s, steps).draft)
    ensures var t := Exec(specs, s, steps);
            var u := Apply(specs, t, Start(claim));
            && Legal(specs, u, more) && Mindful(specs, u, more)
            && var v := Exec(specs, u, more);
            v.gaps == t.gaps && |v.posted| == |specs| + v.gaps + t.discards + 1
  {
    InitInv(specs, s);
    RunKeepsInv(specs, s, steps);
    more := DeliverForgotten(specs, Exec(specs, s, steps), claim);
  }

  lemma DeliverForgotten(specs: seq<Key>, t: State, claim: bool) returns (more: seq<Step>)
    requires Inv(specs, t) && Enabled(specs, t, Start(claim)) && Forgets(t.draft)
    ensures var u := Apply(specs, t, Start(claim));
            && Legal(specs, u, more) && Mindful(specs, u, more)
            && var v := Exec(specs, u, more);
            v.gaps == t.gaps && |v.posted| == |specs| + v.gaps + t.discards + 1
  {
    StepKeepsInv(specs, t, Start(claim));
    var u := Apply(specs, t, Start(claim));
    assert Exec(specs, u, []) == u;
    var v: State;
    more, v := DeliverRest(specs, u, [], u);
  }

  /** Main result on POSTs. For any number of parcels and from every reachable state: in all mindful
      continuations a started delivery stays within one command per parcel and stop in the gap (and per id
      overwritten before this start, of which mindful runs have none) if and only if the draft does not
      forget - which its columns show before the start. */
  lemma CommandBoundIsExact(specs: seq<Key>, s: State, steps: seq<Step>, claim: bool)
    requires Init(specs, s) && Legal(specs, s, steps)
    requires Enabled(specs, Exec(specs, s, steps), Start(claim))
    ensures var t := Exec(specs, s, steps);
            var u := Apply(specs, t, Start(claim));
            !Forgets(t.draft)
            <==> forall more :: Legal(specs, u, more) && Mindful(specs, u, more) ==>
                   |Exec(specs, u, more).posted| <= |specs| + Exec(specs, u, more).gaps + t.discards
  {
    InitInv(specs, s);
    RunKeepsInv(specs, s, steps);
    StartIsExact(specs, Exec(specs, s, steps), claim);
  }

  /** The same, from any state the machine keeps. */
  lemma StartIsExact(specs: seq<Key>, t: State, claim: bool)
    requires Inv(specs, t) && Enabled(specs, t, Start(claim))
    ensures var u := Apply(specs, t, Start(claim));
            !Forgets(t.draft)
            <==> forall more :: Legal(specs, u, more) && Mindful(specs, u, more) ==>
                   |Exec(specs, u, more).posted| <= |specs| + Exec(specs, u, more).gaps + t.discards
  {
    var u := Apply(specs, t, Start(claim));
    StepKeepsInv(specs, t, Start(claim));
    if Forgets(t.draft) {
      var more := DeliverForgotten(specs, t, claim);
    } else {
      StepRemembers(specs, t, Start(claim));
      forall more | Legal(specs, u, more) && Mindful(specs, u, more)
        ensures |Exec(specs, u, more).posted| <= |specs| + Exec(specs, u, more).gaps + t.discards
      {
        MindfulContinuation(specs, u, more);
      }
    }
  }

  /** Such drafts are reached, for any parcels: one stop after the id was saved, then a status change (a
      failed confirmation writes `error`), and the next run gives the saved id up. */
  lemma StatusChangeCostsACommand(specs: seq<Key>, s: State) returns (steps: seq<Step>)
    requires Init(specs, s) && s.posted == [] && s.draft.status == "pending"
    ensures Legal(specs, s, steps)
    ensures var t := Exec(specs, s, steps); t.gaps == 0 && t.discards == 1 && t.posted == [0, 0]
  {
    var t := s;
    steps := [];
    steps, t := Then(specs, s, steps, t, Start(true));
    steps, t := Then(specs, s, steps, t, Post);
    steps, t := Then(specs, s, steps, t, SaveCommand);
    steps, t := Then(specs, s, steps, t, Stop);
    steps, t := Then(specs, s, steps, t, SetStatus("error"));
    steps, t := Then(specs, s, steps, t, Start(true));
    steps, t := Then(specs, s, steps, t, Post);
    steps, t := Then(specs, s, steps, t, SaveCommand);
  }

  // ---- Bounded waiting -----------------------------------------------------------------------------

  /** Every command answers SUCCESS by its `patience`-th poll: an unsuccessful poll is an earlier one. */
  ghost predicate Prompt(specs: seq<Key>, s: State, steps: seq<Step>, patience: nat)
    requires Legal(specs, s, steps)
  {
    forall k :: 0 <= k < |steps| && steps[k] == PollPending ==> PromptAt(specs, s, steps, k, patience)
  }

  ghost predicate PromptAt(specs: seq<Key>, s: State, steps: seq<Step>, k: nat, patience: nat)
    requires Legal(specs, s, steps) && k < |steps|
  {
    Prefixes(specs, s, steps, k);
    var t := Exec(specs, s, steps[..k]);
    t.pc.Waiting? && t.pc.c < |t.polls| ==> t.polls[t.pc.c] + 1 < patience
  }

  lemma {:induction false} Prefixes(specs: seq<Key>, s: State, steps: seq<Step>, k: nat)
    requires Legal(specs, s, steps) && k <= |steps|
    ensures Legal(specs, s, steps[..k])
    decreases |steps| - k
  {
    if k == |steps| {
      assert steps[..k] == steps;
    } else {
      Prefixes(specs, s, steps, k + 1);
      assert steps[..k + 1][..k] == steps[..k];
    }
  }

  function Tries(pc: Pc, i: nat): nat { if pc.Waiting? && pc.i == i then pc.tries else 0 }

  /** Three unsuccessful polls stand behind every pending result of a parcel, all of its one command. */
  ghost predicate ParcelWaits(specs: seq<Key>, s: State, i: nat, patience: nat)
    requires i < |specs| == |s.pends|
  {
    && (if specs[i] in s.draft.ships then
          var c := s.draft.ships[specs[i]].cmd;
          c < |s.polls| && ATTEMPTS * s.pends[i] + Tries(s.pc, i) <= s.polls[c]
        else s.pends[i] == 0)
    && (s.pends[i] > 0 ==> ATTEMPTS * s.pends[i] < patience)
  }

  ghost predicate Waits(specs: seq<Key>, s: State, patience: nat) {
    && |s.pends| == |specs|
    && (forall i :: 0 <= i < |specs| ==> ParcelWaits(specs, s, i, patience))
    && (s.pc.Waiting? && s.pc.tries > 0 ==> s.pc.c < |s.polls| && s.polls[s.pc.c] < patience)
  }

  lemma StepKeepsParcelWaits(specs: seq<Key>, s: State, step: Step, patience: nat, i: nat)
    requires Inv(specs, s) && Waits(specs, s, patience) && Enabled(specs, s, step) && i < |specs|
    requires step == PollPending ==> s.polls[s.pc.c] + 1 < patience
    ensures |Apply(specs, s, step).pends| == |specs| && ParcelWaits(specs, Apply(specs, s, step), i, patience)
  {
    assert ParcelWaits(specs, s, i, patience);
    if specs[i] in s.draft.ships { OwnCheckpoint(specs, s.draft.ships, s.posted, s.made, i); }
    if step == SaveCheckpoint && s.pc.At? { NextParcel(specs, s); }
  }

  lemma StepKeepsWaits(specs: seq<Key>, s: State, step: Step, patience: nat)
    requires Inv(specs, s) && Waits(specs, s, patience) && Enabled(specs, s, step)
    requires step == PollPending ==> s.polls[s.pc.c] + 1 < patience
    ensures Waits(specs, Apply(specs, s, step), patience)
  {
    forall i | 0 <= i < |specs| ensures ParcelWaits(specs, Apply(specs, s, step), i, patience) {
      StepKeepsParcelWaits(specs, s, step, patience, i);
    }
  }

  lemma PromptBefore(specs: seq<Key>, s: State, steps: seq<Step>, patience: nat)
    requires Legal(specs, s, steps) && Prompt(specs, s, steps, patience) && steps != []
    ensures Prompt(specs, s, steps[..|steps| - 1], patience)
    ensures steps[|steps| - 1] == PollPending ==>
              var t := Exec(specs, s, steps[..|steps| - 1]);
              t.pc.Waiting? && t.pc.c < |t.polls| ==> t.polls[t.pc.c] + 1 < patience
  {
    var before := steps[..|steps| - 1];
    forall k | 0 <= k < |before| && before[k] == PollPending ensures PromptAt(specs, s, before, k, patience) {
      assert PromptAt(specs, s, steps, k, patience) && before[..k] == steps[..k];
    }
    assert steps[|steps| - 1] == PollPending ==> PromptAt(specs, s, steps, |steps| - 1, patience);
  }

  lemma {:induction false} RunKeepsWaits(specs: seq<Key>, s: State, steps: seq<Step>, patience: nat)
    requires Inv(specs, s) && Waits(specs, s, patience) && Legal(specs, s, steps) && Prompt(specs, s, steps, patience)
    ensures Waits(specs, Exec(specs, s, steps), patience)
    decreases |steps|
  {
    if steps == [] {
    } else {
      var before := steps[..|steps| - 1];
      PromptBefore(specs, s, steps, patience);
      RunKeepsWaits(specs, s, before, patience);
      RunKeepsInv(specs, s, before);
      StepKeepsWaits(specs, Exec(specs, s, before), steps[|steps| - 1], patience);
    }
  }

  /** Main result on resumes: if every command answers SUCCESS by its `patience`-th poll, the draft is
      reported pending at most parcels * floor((patience - 1) / 3) times, over all runs together, however
      often they stop. */
  lemma PendingResultsAreBounded(specs: seq<Key>, s: State, steps: seq<Step>, patience: nat)
    requires Init(specs, s) && Legal(specs, s, steps) && patience > 0 && Prompt(specs, s, steps, patience)
    ensures Sum(Exec(specs, s, steps).pends) <= |specs| * ((patience - 1) / 3)
  {
    InitInv(specs, s);
    RunKeepsWaits(specs, s, steps, patience);
    forall i | 0 <= i < |specs| ensures Exec(specs, s, steps).pends[i] <= (patience - 1) / ATTEMPTS {
      assert ParcelWaits(specs, Exec(specs, s, steps), i, patience);
    }
    SumBound(Exec(specs, s, steps).pends, (patience - 1) / ATTEMPTS);
  }
}
