/**
 At most one email per damage case, over every interleaving of send workers, operators, crashes,
 clock ticks and unrelated writes.

 One case row with a version number (the ETag), and any number of processes. A send worker reads the
 row, claims it by compare-and-set, contacts SMTP, and settles with an unversioned merge
 (damage_store.py:228-301, workflow.py:319-390). An operator reads the row and later writes a
 resolution, also unversioned (workflow.py:392-407). A process may crash at any point. The local-file
 claim is the special case in which read and compare-and-set are adjacent.
 */
module EmailProtocol {
  import opened Prelude
  import opened SendAttempts
  import opened CaseMail

  datatype Proc =
    | Deciding(row: MailRow, version: nat)              // row read, claim not yet attempted
    | Sending(own: SendAttempt)                         // claim won, SMTP not contacted yet
    | Answered(own: SendAttempt, reply: Reply)          // SMTP done, nothing written down yet
    | Resolving(verdict: Verdict)

  datatype State = State(row: MailRow, version: nat, procs: map<int, Proc>, accepted: nat, now: int)

  datatype Step =
    | Read(p: int)
    | Claim(p: int, id: string, digest: Text, begun: int)
    | Smtp(p: int, delivered: bool, reply: Reply)
    | Settle(p: int)
    | Open(p: int, delivered: bool, who: Text, note: Text)
    | Decide(p: int)
    | Crash(p: int)
    | Tick(elapsed: nat)
    | Touch

  ghost predicate Enabled(s: State, step: Step) {
    match step
    case Read(p) => p !in s.procs
    case Claim(p, id, _, _) => p in s.procs && s.procs[p].Deciding? && id != ""
    // An acceptance is reported as such or not at all; a refusal means nothing was accepted.
    case Smtp(p, delivered, reply) =>
      p in s.procs && s.procs[p].Sending? && (delivered ==> !reply.Refused?) && (reply.Accepted? ==> delivered)
    case Settle(p) => p in s.procs && s.procs[p].Answered? && s.procs[p].own.state == PENDING
    case Open(p, _, _, _) =>
      p !in s.procs && Unresolved(FromDict(s.row.attempt), s.now)
    case Decide(p) => p in s.procs && s.procs[p].Resolving? && s.procs[p].verdict.seen.state in {UNKNOWN, PENDING}
    case Crash(p) => p in s.procs
    case Tick(_) => true
    case Touch => true
  }

  function Write(s: State, row: MailRow, p: int): State {
    s.(row := row, version := s.version + 1, procs := s.procs - {p})
  }

  ghost function Apply(s: State, step: Step): State
    requires Enabled(s, step)
  {
    match step
    case Read(p) => s.(procs := s.procs[p := Deciding(s.row, s.version)])
    case Claim(p, id, digest, begun) =>
      var own := Begin(Plain(id), digest, begun);
      if CanClaim(s.procs[p].row, s.now) && s.procs[p].version == s.version then
        s.(row := Claimed(s.row, Some(ToDict(own)), s.now), version := s.version + 1,
           procs := s.procs[p := Sending(own)])
      else s.(procs := s.procs - {p})
    case Smtp(p, delivered, reply) =>
      s.(procs := s.procs[p := Answered(s.procs[p].own, reply)],
         accepted := s.accepted + if delivered then 1 else 0)
    case Settle(p) => Write(s, Settled(s.row, s.procs[p].own, s.procs[p].reply, s.now), p)
    case Open(p, delivered, who, note) =>
      s.(procs := s.procs[p := Resolving(
        Verdict(FromDict(s.row.attempt).value, s.row.sentAt, delivered, who, note))])
    case Decide(p) =>
      Write(s, Resolved(s.row, s.procs[p].verdict, s.now), p)
    case Crash(p) => s.(procs := s.procs - {p})
    case Tick(d) => s.(now := s.now + d)
    case Touch => s.(version := s.version + 1)
  }

  // ---- What the machine allows ------------------------------------------------------------------------

  /** Nothing keeps the world from its worst: any process may crash at any point and leaves only what it had
      written; time passes; unrelated writes change the version and nothing else; anybody may read. */
  lemma AnythingMayHappen(s: State, p: int, elapsed: nat)
    ensures p in s.procs ==> Enabled(s, Crash(p)) && Apply(s, Crash(p)) == s.(procs := s.procs - {p})
    ensures Enabled(s, Tick(elapsed)) && Apply(s, Tick(elapsed)) == s.(now := s.now + elapsed)
    ensures Enabled(s, Touch) && Apply(s, Touch).version != s.version
            && Apply(s, Touch) == s.(version := Apply(s, Touch).version)
    ensures p !in s.procs ==>
              Enabled(s, Read(p)) && Apply(s, Read(p)) == s.(procs := s.procs[p := Deciding(s.row, s.version)])
  {
  }

  /** A worker about to send may be accepted, refused, or hear nothing - having been accepted or not. */
  lemma SmtpMayAnswer(s: State, p: int, messageId: Option<Text>, error: Text)
    requires p in s.procs && s.procs[p].Sending?
    ensures Enabled(s, Smtp(p, true, Accepted(messageId))) && Enabled(s, Smtp(p, false, Refused(error)))
    ensures Enabled(s, Smtp(p, true, NoAnswer)) && Enabled(s, Smtp(p, false, NoAnswer))
    ensures forall delivered, reply :: Enabled(s, Smtp(p, delivered, reply)) ==>
              Apply(s, Smtp(p, delivered, reply)).accepted == s.accepted + (if delivered then 1 else 0)
              && Apply(s, Smtp(p, delivered, reply)).row == s.row
  {
  }

  /** An operator may take up any case whose stored attempt is unresolved, and answer either way whenever. */
  lemma OperatorMayAnswer(s: State, p: int, delivered: bool, who: Text, note: Text)
    requires p !in s.procs && FromDict(s.row.attempt).Some?
    requires FromDict(s.row.attempt).value.state in {Plain("pending"), Plain("unknown")}
    ensures Enabled(s, Open(p, delivered, who, note))
    ensures var t := Apply(s, Open(p, delivered, who, note));
            t.row == s.row && Enabled(t, Decide(p))
            && Apply(t, Decide(p)).row
               == Resolved(s.row, Verdict(FromDict(s.row.attempt).value, s.row.sentAt, delivered, who, note), s.now)
  {
  }

  /** A worker that reads and claims with nobody in between is the store's own claim: won exactly on a free
      case, and every write makes the next reader's version a new one. */
  lemma AdjacentClaim(s: State, p: int, id: string, digest: Text, begun: int)
    requires p !in s.procs && id != ""
    ensures Enabled(s, Read(p)) && Enabled(Apply(s, Read(p)), Claim(p, id, digest, begun))
    ensures var t := Apply(Apply(s, Read(p)), Claim(p, id, digest, begun));
            if Free(s.row)
            then t.row == Claimed(s.row, Some(ToDict(Begin(Plain(id), digest, begun))), s.now)
                 && t.procs == s.procs[p := Sending(Begin(Plain(id), digest, begun))] && t.version > s.version
            else t == s
  {
    ClaimIgnoresTheClock(s.row, s.now);
    if !Free(s.row) { assert s.procs[p := Deciding(s.row, s.version)] - {p} == s.procs; }
  }

  /** A claim made after any write since the read is lost, and the worker goes. */
  lemma StaleClaim(s: State, p: int, id: string, digest: Text, begun: int)
    requires Enabled(s, Claim(p, id, digest, begun)) && s.procs[p].version != s.version
    ensures Apply(s, Claim(p, id, digest, begun)) == s.(procs := s.procs - {p})
  {
  }

  /** A settle or a resolution writes the row, under a new version, and ends its process. */
  lemma WritesEnd(s: State, step: Step)
    requires (step.Settle? || step.Decide?) && Enabled(s, step)
    ensures var t := Apply(s, step);
            step.p !in t.procs && t.procs == s.procs - {step.p} && t.version > s.version
            && t.accepted == s.accepted && t.now == s.now
  {
  }

  /** A worker that can still send, or that saw a refusal it has not written down: its next step can
      put a second acceptance on the way. */
  predicate Armed(p: Proc) {
    p.Sending? || (p.Answered? && p.reply.Refused?)
  }

  /** What an operator must know before answering "not delivered": the case is already marked sent, or
      SMTP never accepted anything for it and no worker is armed. */
  ghost predicate Quiet(s: State) {
    Truthy(s.row.sentAt) || (s.accepted == 0 && forall p :: p in s.procs ==> !Armed(s.procs[p]))
  }

  ghost predicate Careful(s: State, step: Step)
    requires Enabled(s, step)
  {
    step.Decide? && !s.procs[step.p].verdict.delivered ==> Quiet(s)
  }

  /** Runs whose "not delivered" answers are all careful. */
  ghost predicate Legal(s: State, steps: seq<Step>)
    decreases |steps|
  {
    steps == [] ||
    (Enabled(s, steps[0]) && Careful(s, steps[0]) && Legal(Apply(s, steps[0]), steps[1..]))
  }

  ghost function Exec(s: State, steps: seq<Step>): State
    requires Legal(s, steps)
    decreases |steps|
  {
    if steps == [] then s else Exec(Apply(s, steps[0]), steps[1..])
  }

  ghost predicate Init(s: State) {
    s.accepted == 0 && s.procs == map[]
  }

  ghost predicate ProcOk(s: State, p: int)
    requires p in s.procs
  {
    match s.procs[p]
    case Deciding(row, v) => v <= s.version && (v == s.version ==> row == s.row)
    case Sending(own) => Own(own)
    case Answered(own, _) => Own(own)
    case Resolving(v) => Storable(v.seen) && v.seen.state in {UNKNOWN, PENDING}
  }

  ghost predicate Inv(s: State) {
    && s.accepted <= 1
    && (Free(s.row) ==> s.accepted == 0 && forall p :: p in s.procs ==> !Armed(s.procs[p]))
    && (forall p :: p in s.procs && Armed(s.procs[p]) ==> s.accepted == 0)
    && (forall p, q :: p in s.procs && q in s.procs && Armed(s.procs[p]) && Armed(s.procs[q]) ==> p == q)
    && (forall p :: p in s.procs ==> ProcOk(s, p))
  }

  lemma UnresolvedIsPendingOrUnknown(d: Dict, now: int)
    requires Unresolved(FromDict(d), now)
    ensures FromDict(d).value.state in {UNKNOWN, PENDING}
    ensures Storable(FromDict(d).value)
  {
    LoadedIsStorable(d);
  }

  lemma ClaimKeepsInv(s: State, p: int, id: string, digest: Text, begun: int)
    requires Inv(s) && Enabled(s, Claim(p, id, digest, begun))
    ensures Inv(Apply(s, Claim(p, id, digest, begun)))
  {
    ClaimIgnoresTheClock(s.row, s.now);
    ClaimBlocks(s.row, Begin(Plain(id), digest, begun), s.now);
    assert ProcOk(s, p);
  }

  lemma SmtpKeepsInv(s: State, p: int, delivered: bool, reply: Reply)
    requires Inv(s) && Enabled(s, Smtp(p, delivered, reply))
    ensures Inv(Apply(s, Smtp(p, delivered, reply)))
  {
    assert ProcOk(s, p) && Armed(s.procs[p]);
  }

  lemma SettleKeepsInv(s: State, p: int)
    requires Inv(s) && Enabled(s, Settle(p))
    ensures Inv(Apply(s, Settle(p)))
  {
    assert ProcOk(s, p);
    OnlyRefusalFrees(s.row, s.procs[p].own, s.procs[p].reply, s.now);
  }

  lemma DecideKeepsInv(s: State, p: int)
    requires Inv(s) && Enabled(s, Decide(p)) && Careful(s, Decide(p))
    ensures Inv(Apply(s, Decide(p)))
  {
    assert ProcOk(s, p);
    OnlyNotDeliveredFrees(s.row, s.procs[p].verdict, s.now);
  }

  lemma OpenKeepsInv(s: State, p: int, delivered: bool, who: Text, note: Text)
    requires Inv(s) && Enabled(s, Open(p, delivered, who, note))
    ensures Inv(Apply(s, Open(p, delivered, who, note)))
  {
    UnresolvedIsPendingOrUnknown(s.row.attempt, s.now);
  }

  /** Every step keeps the invariant; reads, crashes, ticks and foreign writes do by themselves. */
  lemma StepKeepsInv(s: State, step: Step)
    requires Inv(s) && Enabled(s, step) && Careful(s, step)
    ensures Inv(Apply(s, step))
  {
    match step
    case Claim(p, id, digest, begun) => ClaimKeepsInv(s, p, id, digest, begun);
    case Smtp(p, delivered, reply) => SmtpKeepsInv(s, p, delivered, reply);
    case Settle(p) => SettleKeepsInv(s, p);
    case Open(p, delivered, who, note) => OpenKeepsInv(s, p, delivered, who, note);
    case Decide(p) => DecideKeepsInv(s, p);
    case _ =>
  }

  lemma {:induction false} RunKeepsInv(s: State, steps: seq<Step>)
    requires Inv(s) && Legal(s, steps)
    ensures Inv(Exec(s, steps))
    decreases |steps|
  {
    if steps == [] {
    } else {
      StepKeepsInv(s, steps[0]);
      RunKeepsInv(Apply(s, steps[0]), steps[1..]);
    }
  }

  /** A case marked sent stays so, whatever runs on it, so it is never free again. */
  lemma {:induction false} SentStaysSent(s: State, steps: seq<Step>)
    requires Legal(s, steps) && Truthy(s.row.sentAt)
    ensures Truthy(Exec(s, steps).row.sentAt) && !Free(Exec(s, steps).row)
    decreases |steps|
  {
    if steps == [] {
    } else {
      SentStaysSent(Apply(s, steps[0]), steps[1..]);
    }
  }

  /** From the moment a worker has written down an acceptance, every caller at every later time is told the
      mail was sent, until somebody else writes; and in no continuation is the case free again. */
  lemma AcceptanceIsFinal(s: State, p: int, steps: seq<Step>)
    requires Inv(s) && Enabled(s, Settle(p)) && s.procs[p].reply.Accepted?
    requires Legal(Apply(s, Settle(p)), steps)
    ensures var t := Apply(s, Settle(p));
            && t.row.sentAt == Some(Iso(s.now)) && FromDict(t.row.attempt).Some?
            && FromDict(t.row.attempt).value.id == s.procs[p].own.id
            && (forall later :: MaySend(FromDict(t.row.attempt), later).AlreadySent?)
            && !Free(Exec(t, steps).row)
  {
    assert ProcOk(s, p);
    forall later ensures MaySend(FromDict(Apply(s, Settle(p)).row.attempt), later).AlreadySent? {
      AcceptanceRecords(s.row, s.procs[p].own, s.procs[p].reply.messageId, s.now, later);
    }
    AcceptanceRecords(s.row, s.procs[p].own, s.procs[p].reply.messageId, s.now, s.now);
    SentStaysSent(Apply(s, Settle(p)), steps);
  }

  /** Main result: whatever the row held at the start, however many workers and operators run and
      wherever they crash, a case gets at most one SMTP acceptance. */
  lemma AtMostOneAcceptance(s: State, steps: seq<Step>)
    requires Init(s) && Legal(s, steps)
    ensures Exec(s, steps).accepted <= 1
  {
    RunKeepsInv(s, steps);
  }

  /** One more send by a process `q` not seen before, on a row that is free. */
  function SendOnce(q: int): seq<Step> {
    [Read(q), Claim(q, "attempt", Plain(""), 0), Smtp(q, true, Accepted(None))]
  }

  lemma FreeRowSendsAgain(s: State, q: int)
    requires Free(s.row) && q !in s.procs
    ensures Legal(s, SendOnce(q))
    ensures var t := Exec(s, SendOnce(q));
            t.accepted == s.accepted + 1 && t.procs.Keys == s.procs.Keys + {q}
            && (forall p :: p in s.procs ==> t.procs[p] == s.procs[p])
            && !Truthy(t.row.sentAt)
  {
    ClaimIgnoresTheClock(s.row, s.now);
    var a := Apply(s, Read(q));
    var b := Apply(a, SendOnce(q)[1]);
    var c := Apply(b, SendOnce(q)[2]);
    assert SendOnce(q)[1..][1..] == [SendOnce(q)[2]];
    assert [SendOnce(q)[2]][1..] == [];
    assert Legal(c, []);
    assert Legal(b, [SendOnce(q)[2]]);
    assert Legal(a, SendOnce(q)[1..]);
    assert Exec(b, [SendOnce(q)[2]]) == c;
    assert Exec(a, SendOnce(q)[1..]) == c;
  }

  lemma {:induction false} Append(s: State, xs: seq<Step>, ys: seq<Step>)
    requires Legal(s, xs) && Legal(Exec(s, xs), ys)
    ensures Legal(s, xs + ys) && Exec(s, xs + ys) == Exec(Exec(s, xs), ys)
    decreases |xs|
  {
    if xs == [] {
      assert xs + ys == ys;
    } else {
      assert (xs + ys)[1..] == xs[1..] + ys && (xs + ys)[0] == xs[0];
      Append(Apply(s, xs[0]), xs[1..], ys);
    }
  }

  lemma One(s: State, step: Step)
    requires Enabled(s, step) && Careful(s, step)
    ensures Legal(s, [step]) && Exec(s, [step]) == Apply(s, step)
  {
    assert [step][1..] == [];
    assert Legal(Apply(s, step), []);
  }

  /** Answering "not delivered" while the case is not quiet opens a run with two acceptances. */
  lemma UnquietResolutionCanDuplicate(s: State, p: int) returns (steps: seq<Step>)
    requires Inv(s) && Enabled(s, Decide(p)) && !s.procs[p].verdict.delivered && !Quiet(s)
    ensures Legal(Apply(s, Decide(p)), steps)
    ensures Exec(Apply(s, Decide(p)), steps).accepted >= 2
  {
    var t := Apply(s, Decide(p));
    assert ProcOk(s, p);
    OnlyNotDeliveredFrees(s.row, s.procs[p].verdict, s.now);
    var q := FreshInt(t.procs.Keys);
    steps := SendOnce(q);
    FreeRowSendsAgain(t, q);
    if s.accepted == 0 {
      var w :| w in s.procs && Armed(s.procs[w]);
      assert ProcOk(s, w) && w in t.procs && t.procs[w] == s.procs[w];
      var u := Exec(t, steps);
      if s.procs[w].Sending? {
        One(u, Smtp(w, true, Accepted(None)));
        Append(t, steps, [Smtp(w, true, Accepted(None))]);
        steps := steps + [Smtp(w, true, Accepted(None))];
      } else {
        One(u, Settle(w));
        Append(t, steps, [Settle(w)]);
        steps := steps + [Settle(w)];
        OnlyRefusalFrees(u.row, s.procs[w].own, s.procs[w].reply, u.now);
        var v := Exec(t, steps);
        var r := FreshInt(v.procs.Keys);
        FreeRowSendsAgain(v, r);
        Append(t, steps, SendOnce(r));
        steps := steps + SendOnce(r);
      }
    }
  }

  /** The guard is exact. From any state the protocol keeps, a "not delivered" answer is safe for every
      continuation precisely when the case is quiet. In particular "nothing was accepted and the holder
      will not send again" is not enough: a refused holder that has not yet written its refusal can
      still free the row under a later sender. */
  lemma ResolutionGuardIsExact(s: State, p: int)
    requires Inv(s) && Enabled(s, Decide(p)) && !s.procs[p].verdict.delivered
    ensures Quiet(s) <==>
            forall steps :: Legal(Apply(s, Decide(p)), steps) ==> Exec(Apply(s, Decide(p)), steps).accepted <= 1
  {
    if Quiet(s) {
      StepKeepsInv(s, Decide(p));
      forall steps | Legal(Apply(s, Decide(p)), steps)
        ensures Exec(Apply(s, Decide(p)), steps).accepted <= 1
      {
        RunKeepsInv(Apply(s, Decide(p)), steps);
      }
    } else {
      var steps := UnquietResolutionCanDuplicate(s, p);
    }
  }
}
