/**
 The delivery run in the code's own form (zdrovena/api/shipping_execution_composition.py,
 _run_allegro_delivery and confirm_shipping_draft; zdrovena/common/allegro.py,
 wait_for_ship_with_allegro_shipment): loops and callbacks that change the draft and the provider step
 by step. `World.trace` records the steps taken; every method proves that they are steps of the machine
 in AllegroDelivery, so its theorems hold at every point of every run.
 */
module AllegroRun {
  import opened Prelude
  import opened AllegroDelivery
  import ShippingStores

  /** How a call can fail: a business error, a transient or authentication error, or anything else. */
  datatype Fault = Business | Transient | Unexpected

  /** What the provider says to one status request. Once a shipment exists it is the answer, whenever there
      is one. */
  datatype Verdict = InProgress | Ready | Broken(fault: Fault)

  datatype Reply = StillInProgress | Shipment(id: nat) | Refusal(fault: Fault)

  /** What becomes of a POST: it is made and its id saved, it is refused and nothing is made, or it is made
      but the reply or the save is lost. */
  datatype Posting = Accepted | Refused(fault: Fault) | Lost(fault: Fault)

  /** The verdict on the n-th poll of a command. */
  type Provider = (Cmd, nat) -> Verdict

  /** Everything the provider decides during one run: the proposal, the verdicts, the n-th POST, and the
      request for a shipment. */
  datatype Service = Service(
    proposal: Option<Fault>, status: Provider, posting: nat -> Posting, fetching: nat -> Option<Fault>)

  /** One pending result more, for one of the parcels. */
  ghost predicate OnePendingMore(before: seq<nat>, after: seq<nat>) {
    exists i :: 0 <= i < |before| && after == before[i := before[i] + 1]
  }

  class World {
    const specs: seq<Key>
    var s: State
    ghost const origin: State
    ghost var trace: seq<Step>

    ghost predicate Valid()
      reads this
    {
      Init(specs, origin) && Legal(specs, origin, trace) && s == Exec(specs, origin, trace)
    }

    constructor (specs: seq<Key>, s: State)
      requires Init(specs, s)
      ensures Valid() && this.specs == specs && this.s == s && trace == []
    {
      this.specs, this.s, this.origin, this.trace := specs, s, s, [];
    }

    /** What the machine's invariant says while a command is awaited. */
    lemma WaitingFacts()
      requires Valid() && s.pc.Waiting?
      ensures s.pc.c < |s.polls| && s.pc.c < |s.made| && s.pc.i < |s.pends| && s.pc.i < |specs|
      ensures Open(specs, s.draft.ships, s.pc.i, s.pc.c)
    {
      InitInv(specs, origin);
      RunKeepsInv(specs, origin, trace);
      assert CheckpointOk(s.draft.ships[specs[s.pc.i]], s.pc.i, s.posted, s.made);
    }

    lemma LeavingFacts()
      requires Valid() && s.pc.Leaving?
      ensures Open(specs, s.draft.ships, s.pc.i, s.pc.c)
    {
      InitInv(specs, origin);
      RunKeepsInv(specs, origin, trace);
    }

    /** Past the last parcel every one is shipped. */
    lemma DoneFacts()
      requires Valid() && s.pc == At(|specs|)
      ensures AllShipped(specs, s.draft.ships, |specs|)
    {
      InitInv(specs, origin);
      RunKeepsInv(specs, origin, trace);
    }

    /** One step; everything below is made of these. */
    method Take(step: Step)
      requires Valid() && Enabled(specs, s, step)
      modifies this
      ensures Valid() && s == Apply(specs, old(s), step) && trace == old(trace) + [step]
    {
      Extend(specs, origin, trace, step);
      s := Apply(specs, s, step);
      trace := trace + [step];
    }

    /** get_draft, and for an execution the claim. */
    method Begin(claim: bool)
      requires Valid() && s.pc.Off? && Startable(s, claim)
      modifies this
      ensures Valid() && old(trace) <= trace
      ensures s.pc == At(0) && s.active.None? && s.fromPending == (old(s).draft.status == PENDING_CONFIRMATION)
      ensures s.draft == old(s).draft.(status := if claim then EXECUTING else old(s).draft.status)
      ensures s.pends == old(s).pends
    {
      Take(Start(claim));
    }

    method SkipParcel()
      requires Valid() && s.pc.At? && s.pc.i < |specs| && Shipped(specs, s.draft.ships, s.pc.i)
      modifies this
      ensures Valid() && old(trace) <= trace
      ensures s == old(s).(pc := At(old(s).pc.i + 1))
    {
      Take(Skip);
    }

    /** create_ship_with_allegro_shipment and on_command_created. */
    method CreateShipment(posting: Posting) returns (commandId: Option<Cmd>)
      requires Valid() && s.pc.At? && s.pc.i < |specs|
      requires !Shipped(specs, s.draft.ships, s.pc.i) && Usable(specs, s, s.pc.i).None?
      modifies this
      ensures Valid() && old(trace) <= trace && s.active == old(s).active
      ensures s.posted == if posting.Refused? then old(s).posted else old(s).posted + [old(s).pc.i]
      ensures !posting.Refused? ==> s.polls == old(s).polls + [0] && s.made == old(s).made + [None]
      ensures s.pends == old(s).pends
      ensures commandId == if posting.Accepted? then Some(|old(s).posted|) else None
      ensures posting.Accepted? ==>
                s.pc == Saved(old(s).pc.i, |old(s).posted|)
                && s.draft == old(s).draft.(legacy := Some(|old(s).posted|), status := PENDING_CONFIRMATION)
      ensures posting.Refused? ==> s == old(s)
      ensures posting.Lost? ==> s.pc.Posted? && s.draft == old(s).draft
    {
      if posting.Refused? {
        return None;
      }
      Take(Post);
      if posting.Lost? {
        return None;
      }
      commandId := Some(s.pc.c);
      Take(SaveCommand);
    }

    /** on_shipment_checkpoint, before polling. */
    method PersistCommand(key: Key, commandId: Cmd)
      requires Valid() && (s.pc.At? || s.pc.Saved?) && s.pc.i < |specs| && key == specs[s.pc.i]
      requires !Shipped(specs, s.draft.ships, s.pc.i) || s.pc.Saved?
      requires if s.pc.Saved? then s.pc.c == commandId else Usable(specs, s, s.pc.i) == Some(commandId)
      modifies this
      ensures Valid() && old(trace) <= trace
      ensures s.pc == Waiting(old(s).pc.i, commandId, 0) && s.active == Some(commandId)
      ensures s.draft == old(s).draft.(ships := old(s).draft.ships[key := Checkpoint(commandId, None)])
      ensures s.pends == old(s).pends
    {
      Take(SaveCheckpoint);
    }

    /** on_shipment_checkpoint, once the shipment is known. */
    method PersistShipment(key: Key, shipment: nat)
      requires Valid() && s.pc.Got? && s.pc.shipment == shipment && s.pc.i < |specs| && key == specs[s.pc.i]
      modifies this
      ensures Valid() && old(trace) <= trace
      ensures s.pc == At(old(s).pc.i + 1) && s.active == old(s).active
      ensures s.draft == old(s).draft.(ships := old(s).draft.ships[key := Checkpoint(old(s).pc.c, Some(shipment))])
      ensures s.pends == old(s).pends
    {
      Take(SaveShipment);
    }

    method ReturnPending()
      requires Valid() && s.pc.Waiting? && s.pc.tries == ATTEMPTS
      modifies this
      ensures Valid() && old(trace) <= trace
      ensures s.pc == Leaving(old(s).pc.i, old(s).pc.c) && s.draft == old(s).draft && s.active == old(s).active
      ensures OnePendingMore(old(s).pends, s.pends)
    {
      WaitingFacts();
      Take(GiveUp);
    }

    /** The caller writes the returned patch: the pending one ... */
    method WritePending()
      requires Valid() && s.pc.Leaving?
      modifies this
      ensures Valid() && old(trace) <= trace && s.pc.Off?
      ensures s.draft == old(s).draft.(status := PENDING_CONFIRMATION, legacy := Some(old(s).pc.c))
      ensures s.pends == old(s).pends
      ensures Open(specs, s.draft.ships, old(s).pc.i, old(s).pc.c)
    {
      LeavingFacts();
      Take(SavePending);
    }

    /** ... or the created one. */
    method WriteCreated()
      requires Valid() && s.pc == At(|specs|)
      modifies this
      ensures Valid() && old(trace) <= trace && s.pc.Off?
      ensures s.draft == old(s).draft.(status := CREATED, legacy := old(s).active)
      ensures s.pends == old(s).pends
      ensures forall i :: 0 <= i < |specs| ==> Shipped(specs, s.draft.ships, i)
    {
      DoneFacts();
      Take(SaveCreated);
    }

    /** GET create-commands/{c}, seen from the run that is waiting for it. */
    method GetCommandStatus(verdict: Verdict) returns (reply: Reply)
      requires Valid() && s.pc.Waiting? && s.pc.tries < ATTEMPTS
      modifies this
      ensures Valid() && old(trace) <= trace
      ensures s.draft == old(s).draft && s.active == old(s).active && s.pends == old(s).pends
      ensures old(s).pc.c < |old(s).polls| && s.polls == if verdict.Broken? then old(s).polls
                else old(s).polls[old(s).pc.c := old(s).polls[old(s).pc.c] + 1]
      ensures verdict.InProgress? ==> reply.StillInProgress? && s.pc == old(s).pc.(tries := old(s).pc.tries + 1)
      ensures verdict.Ready? ==> reply.Shipment? && s.pc == Got(old(s).pc.i, old(s).pc.c, reply.id)
      ensures verdict.Broken? ==> reply == Refusal(verdict.fault) && s == old(s)
    {
      WaitingFacts();
      match verdict
      case InProgress =>
        Take(PollPending);
        reply := StillInProgress;
      case Ready =>
        Take(PollSuccess);
        reply := Shipment(s.pc.shipment);
      case Broken(fault) =>
        reply := Refusal(fault);
    }
  }

  /** Every command is ready by the last poll of its first waiting loop. */
  ghost predicate ReadyInTime(provider: Provider) {
    forall c, n :: n >= ATTEMPTS ==> provider(c, n).Ready?
  }

  /** No call fails. */
  ghost predicate Calm(service: Service) {
    && service.proposal.None?
    && (forall c, n :: !service.status(c, n).Broken?)
    && (forall n :: service.posting(n).Accepted?)
    && (forall x :: service.fetching(x).None?)
  }

  datatype Waited = Arrived(shipment: nat) | TimedOut | Failed(fault: Fault)

  /** Three polls at most; TimedOut only after three times "in progress". */
  method WaitForShipment(w: World, provider: Provider, ghost i: nat, c: Cmd) returns (result: Waited)
    requires w.Valid() && w.s.pc == Waiting(i, c, 0)
    modifies w
    ensures w.Valid() && old(w.trace) <= w.trace && w.s.draft == old(w.s).draft && w.s.active == old(w.s).active
    ensures w.s.pends == old(w.s).pends
    ensures match result
            case Arrived(x) => w.s.pc == Got(i, c, x)
            case TimedOut => w.s.pc == Waiting(i, c, ATTEMPTS)
            case Failed(_) => w.s.pc.Waiting?
    ensures c < |old(w.s).polls| == |w.s.polls| && old(w.s).polls[c] <= w.s.polls[c] <= old(w.s).polls[c] + 3
    ensures result.TimedOut? ==> w.s.polls[c] == old(w.s).polls[c] + 3
    ensures ReadyInTime(provider) ==> !result.TimedOut?
    ensures (forall k, n :: !provider(k, n).Broken?) ==> !result.Failed?
  {
    w.WaitingFacts();
    for attempt := 0 to ATTEMPTS
      invariant w.Valid() && old(w.trace) <= w.trace && w.s.pc == Waiting(i, c, attempt)
      invariant w.s.draft == old(w.s).draft && w.s.active == old(w.s).active && w.s.pends == old(w.s).pends
      invariant c < |old(w.s).polls| == |w.s.polls| && w.s.polls[c] == old(w.s).polls[c] + attempt
      invariant attempt == ATTEMPTS ==> !ReadyInTime(provider)
    {
      w.WaitingFacts();
      var reply := w.GetCommandStatus(provider(c, w.s.polls[c] + 1));
      match reply
      case Shipment(id) => return Arrived(id);
      case Refusal(fault) => return Failed(fault);
      case StillInProgress =>
    }
    result := TimedOut;
  }

  /** The second half of the loop body: checkpoint the command, poll it, read the shipment and checkpoint
      it. */
  method AwaitParcel(w: World, service: Service, key: Key, c: Cmd) returns (waited: Waited)
    requires w.Valid() && (w.s.pc.At? || w.s.pc.Saved?) && w.s.pc.i < |w.specs| && key == w.specs[w.s.pc.i]
    requires !Shipped(w.specs, w.s.draft.ships, w.s.pc.i) || w.s.pc.Saved?
    requires if w.s.pc.Saved? then w.s.pc.c == c else Usable(w.specs, w.s, w.s.pc.i) == Some(c)
    modifies w
    ensures w.Valid() && old(w.trace) <= w.trace && w.s.active == Some(c)
    ensures w.s.draft.status == old(w.s).draft.status && w.s.draft.legacy == old(w.s).draft.legacy
    ensures match waited
            case Arrived(x) =>
              w.s.pc == At(old(w.s).pc.i + 1)
              && w.s.draft.ships == old(w.s).draft.ships[key := Checkpoint(c, Some(x))]
            case TimedOut => w.s.pc == Leaving(old(w.s).pc.i, c)
            case Failed(_) =>
              (w.s.pc.Waiting? || w.s.pc.Got?)
              && w.s.draft.ships == old(w.s).draft.ships[key := Checkpoint(c, None)]
    ensures if waited.TimedOut? then OnePendingMore(old(w.s).pends, w.s.pends) else w.s.pends == old(w.s).pends
    ensures ReadyInTime(service.status) ==> !waited.TimedOut?
    ensures Calm(service) ==> !waited.Failed?
  {
    ghost var ships := w.s.draft.ships;
    w.PersistCommand(key, c);
    waited := WaitForShipment(w, service.status, w.s.pc.i, c);
    match waited
    case TimedOut => w.ReturnPending();
    case Failed(_) =>
    case Arrived(shipment) =>
      var fault := service.fetching(shipment);
      if fault.Some? {
        return Failed(fault.value);
      }
      w.PersistShipment(key, shipment);
      assert ships[key := Checkpoint(c, None)][key := Checkpoint(c, Some(shipment))]
             == ships[key := Checkpoint(c, Some(shipment))];
  }

  /** What the run returns to its caller, or that it raised. */
  datatype Outcome = CreatedAll(active: Option<Cmd>) | PendingOn(c: Cmd) | Raised(fault: Fault)

  /** The run: the proposal, then the parcel loop. `shipmentsByKey` is the run's own copy of the checkpoints,
      as in the code. */
  method RunAllegroDelivery(w: World, service: Service) returns (outcome: Outcome)
    requires w.Valid() && w.s.pc == At(0) && w.s.active.None?
    modifies w
    ensures w.Valid() && old(w.trace) <= w.trace
    ensures w.s.draft.status in [old(w.s).draft.status, PENDING_CONFIRMATION]
    ensures match outcome
            case CreatedAll(active) => w.s.pc == At(|w.specs|) && w.s.active == active
            case PendingOn(c) => w.s.pc.Leaving? && w.s.pc.c == c && w.s.active == Some(c)
            case Raised(_) => !w.s.pc.Off?
    ensures if outcome.PendingOn? then OnePendingMore(old(w.s).pends, w.s.pends) else w.s.pends == old(w.s).pends
    ensures ReadyInTime(service.status) ==> !outcome.PendingOn?
    ensures Calm(service) ==> !outcome.Raised?
  {
    if service.proposal.Some? {
      return Raised(service.proposal.value);
    }
    var shipmentsByKey := w.s.draft.ships;
    var legacyCommandId := if w.s.fromPending then w.s.draft.legacy else None;
    var activeCommandId: Option<Cmd> := None;
    var index := 0;
    while index < |w.specs|
      invariant index <= |w.specs| && w.Valid() && old(w.trace) <= w.trace
      invariant w.s.pc == At(index) && w.s.active == activeCommandId && shipmentsByKey == w.s.draft.ships
      invariant w.s.draft.status in [old(w.s).draft.status, PENDING_CONFIRMATION] && w.s.pends == old(w.s).pends
      invariant index == 0 ==> legacyCommandId == if w.s.fromPending then w.s.draft.legacy else None
      decreases |w.specs| - index
    {
      var key := w.specs[index];
      if key in shipmentsByKey && shipmentsByKey[key].shipment.Some? {
        w.SkipParcel();
      } else {
        var commandId := if key in shipmentsByKey then Some(shipmentsByKey[key].cmd) else None;
        if commandId.None? && index == 0 {
          commandId := legacyCommandId;
        }
        assert commandId == Usable(w.specs, w.s, index);
        if commandId.None? {
          var posting := service.posting(|w.s.posted|);
          commandId := w.CreateShipment(posting);
          if !posting.Accepted? {
            return Raised(posting.fault);
          }
        }
        activeCommandId := commandId;
        var waited := AwaitParcel(w, service, key, commandId.value);
        match waited
        case TimedOut => return PendingOn(commandId.value);
        case Failed(fault) => return Raised(fault);
        case Arrived(shipment) =>
          shipmentsByKey := shipmentsByKey[key := Checkpoint(commandId.value, Some(shipment))];
      }
      index := index + 1;
    }
    outcome := CreatedAll(activeCommandId);
  }

  datatype Confirmation = NotPending | NoCommand | StillPending(c: Cmd) | Confirmed | Error | Unavailable(fault: Fault)

  /** Resolve one pending draft: refuse it, or drive it to `created`, to `pending_confirmation` again, or on
      a business error to `error`, with the draft written accordingly. Other failures write nothing more and
      leave the draft pending. */
  method ConfirmShippingDraft(w: World, service: Service) returns (answer: Confirmation)
    requires w.Valid() && w.s.pc.Off?
    modifies w
    ensures w.Valid() && w.s.pc.Off? && old(w.trace) <= w.trace
    ensures answer.NotPending? <==> old(w.s).draft.status != "pending_confirmation"
    ensures answer.NoCommand? <==>
            old(w.s).draft.status == "pending_confirmation" && old(w.s).draft.legacy.None?
            && forall k :: k in old(w.s).draft.ships ==> old(w.s).draft.ships[k].shipment.Some?
    ensures answer.NotPending? || answer.NoCommand? ==> w.s == old(w.s)
    ensures answer.Confirmed? ==>
              w.s.draft.status == "created" && forall i :: 0 <= i < |w.specs| ==> Shipped(w.specs, w.s.draft.ships, i)
    ensures answer.StillPending? ==>
              w.s.draft.status == "pending_confirmation" && w.s.draft.legacy == Some(answer.c)
              && exists i: nat :: Open(w.specs, w.s.draft.ships, i, answer.c)
    ensures answer.Error? ==> w.s.draft.status == "error"
    ensures answer.Unavailable? ==> w.s.draft.status == "pending_confirmation" && answer.fault != Business
    ensures if answer.StillPending? then OnePendingMore(old(w.s).pends, w.s.pends) else w.s.pends == old(w.s).pends
    ensures ReadyInTime(service.status) ==> !answer.StillPending?
    ensures Calm(service) ==> !answer.Error? && !answer.Unavailable?
  {
    if w.s.draft.status != PENDING_CONFIRMATION {
      return NotPending;
    }
    if !Startable(w.s, false) {
      return NoCommand;
    }
    w.Begin(false);
    var outcome := RunAllegroDelivery(w, service);
    match outcome
    case CreatedAll(_) =>
      w.WriteCreated();
      answer := Confirmed;
    case PendingOn(c) =>
      w.WritePending();
      answer := StillPending(c);
    case Raised(fault) =>
      w.Take(Stop);
      if fault.Business? {
        w.Take(SetStatus("error"));
        answer := Error;
      } else {
        answer := Unavailable(fault);
      }
  }

  /** Who may start a run: an execution exactly where the store would grant its claim, a confirmation exactly
      on a pending draft that shows a command, saved on it or on a parcel without shipment. */
  lemma StartsWhere(specs: seq<Key>, s: State)
    ensures Enabled(specs, s, Start(true)) <==> s.pc.Off? && ShippingStores.CanExecute(Some(s.draft.status))
    ensures Enabled(specs, s, Start(true)) <==>
            s.pc.Off? && s.draft.status in {"pending", "pending_confirmation", "error"}
    ensures Enabled(specs, s, Start(false)) <==>
            s.pc.Off? && s.draft.status == "pending_confirmation"
            && (s.draft.legacy.Some? || exists k :: k in s.draft.ships && s.draft.ships[k].shipment.None?)
  {
  }

  datatype Execution = NeedsReview | Conflict | Pending(c: Cmd) | Executed | ExecutionFailed(fault: Fault)

  /** Execute one draft under its claim (zdrovena/shipping/application/execution/workflow.py,
      execute_draft and release_execution_claim): a lost claim changes nothing, and a failed run gives the
      claim back only while the draft still shows `executing`, if that write succeeds. */
  method ExecuteDraft(w: World, service: Service, releases: bool) returns (answer: Execution)
    requires w.Valid() && w.s.pc.Off?
    modifies w
    ensures w.Valid() && w.s.pc.Off? && old(w.trace) <= w.trace
    ensures answer.NeedsReview? <==> old(w.s).draft.status == "needs_review"
    ensures answer.Conflict? <==>
            old(w.s).draft.status !in ["pending", "pending_confirmation", "error", "needs_review"]
    ensures answer.NeedsReview? || answer.Conflict? ==> w.s == old(w.s)
    ensures answer.Executed? ==>
              w.s.draft.status == "created" && forall i :: 0 <= i < |w.specs| ==> Shipped(w.specs, w.s.draft.ships, i)
    ensures answer.Pending? ==>
              w.s.draft.status == "pending_confirmation" && w.s.draft.legacy == Some(answer.c)
              && exists i: nat :: Open(w.specs, w.s.draft.ships, i, answer.c)
    ensures answer.ExecutionFailed? ==>
              w.s.draft.status in ["pending_confirmation", if releases then "error" else "executing"]
    ensures if answer.Pending? then OnePendingMore(old(w.s).pends, w.s.pends) else w.s.pends == old(w.s).pends
    ensures ReadyInTime(service.status) ==> !answer.Pending?
    ensures Calm(service) ==> !answer.ExecutionFailed?
  {
    if w.s.draft.status == "needs_review" {
      return NeedsReview;
    }
    if !Startable(w.s, true) {
      return Conflict;
    }
    w.Begin(true);
    var outcome := RunAllegroDelivery(w, service);
    match outcome
    case CreatedAll(_) =>
      w.WriteCreated();
      answer := Executed;
    case PendingOn(c) =>
      w.WritePending();
      answer := Pending(c);
    case Raised(fault) =>
      w.Take(Stop);
      if releases && w.s.draft.status == EXECUTING {
        w.Take(SetStatus("error"));
      }
      answer := ExecutionFailed(fault);
  }
}
