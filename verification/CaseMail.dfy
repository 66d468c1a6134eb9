/**
 The email columns of a damage case and every write the code makes to them: the claim
 (zdrovena/common/damage_store.py, try_claim_email) and the settle and resolution writes
 (zdrovena/damage/application/workflow.py, send_customer_email and resolve_email_attempt).
 */
module CaseMail {
  import opened Prelude
  import opened SendAttempts

  /** `attempt` is the stored `email_attempt` dict; the empty dict stands for a missing one. */
  datatype MailRow = MailRow(
    sentAt: Option<Text>,
    attempt: Dict,
    sending: bool,
    sendingAt: Option<Text>)

  predicate CanClaim(row: MailRow, now: int) {
    && !Truthy(row.sentAt)
    && MaySend(FromDict(row.attempt), now).Allowed?
    && (row.attempt != map[] || !row.sending)
  }

  /** The claim: flag, time and, when the caller supplies one, the durable attempt in one write. */
  function Claimed(row: MailRow, attempt: Option<Dict>, now: int): MailRow {
    row.(sending := true, sendingAt := Some(Iso(now)),
         attempt := if attempt.Some? then attempt.value else row.attempt)
  }

  /** The three ways a worker writes down what SMTP told it. */
  datatype Reply = Accepted(messageId: Option<Text>) | Refused(error: Text) | NoAnswer

  function Settled(row: MailRow, own: SendAttempt, reply: Reply, now: int): MailRow
    requires own.state == PENDING
  {
    match reply
    case Accepted(messageId) =>
      row.(sentAt := Some(Iso(now)), sending := false, attempt := ToDict(Confirm(own, messageId, now).value))
    case Refused(error) =>
      row.(sending := false, attempt := ToDict(Fail(own, error, now).value))
    case NoAnswer =>
      row.(sending := false, attempt := ToDict(own))
  }

  predicate Unresolved(a: Option<SendAttempt>, now: int) {
    a.Some? && Classify(a, now).value in {UNKNOWN, PENDING}
  }

  /** What the operator read before deciding, and the decision. */
  datatype Verdict = Verdict(
    seen: SendAttempt,
    seenSentAt: Option<Text>,
    delivered: bool,
    who: Text,
    note: Text)

  /** The operator's write, built from the row as read earlier, merged into the row as it is now. */
  function Resolved(row: MailRow, v: Verdict, now: int): MailRow
    requires v.seen.state in {UNKNOWN, PENDING}
  {
    var attempt := ToDict(Resolve(v.seen, v.delivered, v.who, v.note, now).value);
    if v.delivered then
      row.(attempt := attempt, sending := false,
           sentAt := if Truthy(v.seenSentAt) then v.seenSentAt else Some(Iso(now)))
    else
      row.(attempt := attempt, sending := false)
  }

  /** The row as a claimer sees it, with the clock taken out. */
  predicate Free(row: MailRow) {
    && !Truthy(row.sentAt)
    && (row.attempt == map[] ==> !row.sending)
    && (FromDict(row.attempt).Some? ==> FromDict(row.attempt).value.state == FAILED)
  }

  /** No amount of waiting turns a blocked case into a claimable one. */
  lemma ClaimIgnoresTheClock(row: MailRow, now: int)
    ensures CanClaim(row, now) <==> Free(row)
  {
    TimeNeverFrees(FromDict(row.attempt), now, now);
  }

  /** An attempt as `begin` builds it. */
  ghost predicate Own(a: SendAttempt) {
    a.id != Plain("") && a.state == PENDING && a.extra == map[]
  }

  /** A claim carrying its attempt blocks the case until somebody settles or resolves it. A claim that
      carries none blocks nothing when an earlier attempt is on the row: the next caller may claim too. */
  lemma ClaimBlocks(row: MailRow, own: SendAttempt, now: int)
    requires Own(own)
    ensures !Free(Claimed(row, Some(ToDict(own)), now))
    ensures Free(row) ==> (Free(Claimed(row, None, now)) <==> row.attempt != map[])
  {
    DictRoundTrip(own);
  }

  /** The claim, column by column: the attempt it carries loads as a pending one that blocks every other
      send - as in progress for ten minutes, as ambiguous from then on. */
  lemma ClaimRecords(row: MailRow, own: SendAttempt, now: int, later: int)
    requires Own(own)
    ensures var t := Claimed(row, Some(ToDict(own)), now);
            && t.sending && t.sendingAt == Some(Iso(now)) && t.sentAt == row.sentAt
            && FromDict(t.attempt) == Some(own)
            && MaySend(FromDict(t.attempt), later) ==
               if own.startedAt.Iso? && later <= own.startedAt.at + 600_000_000 then InProgress else Ambiguous
  {
    DictRoundTrip(own);
  }

  /** An accepted mail is recorded as confirmed: the case is marked sent now, and the attempt says so at
      every later time. */
  lemma AcceptanceRecords(row: MailRow, own: SendAttempt, messageId: Option<Text>, now: int, later: int)
    requires Own(own)
    ensures var t := Settled(row, own, Accepted(messageId), now);
            && t.sentAt == Some(Iso(now)) && !t.sending && t.sendingAt == row.sendingAt
            && FromDict(t.attempt) == Some(SendAttempt(
                 own.id, Plain("confirmed"), own.fingerprint, own.startedAt, Some(Iso(now)), None,
                 if Truthy(messageId) then messageId else own.providerMessageId,
                 own.resolvedBy, own.resolutionNote, map[]))
            && MaySend(FromDict(t.attempt), later).AlreadySent?
  {
    DictRoundTrip(own.(state := Plain("confirmed"), settledAt := Some(Iso(now)), error := None,
                       providerMessageId := if Truthy(messageId) then messageId else own.providerMessageId));
  }

  /** A refusal is recorded as failed, with the first 500 characters of what was said; a send may start. */
  lemma RefusalRecords(row: MailRow, own: SendAttempt, error: string, now: int, later: int)
    requires Own(own)
    ensures var t := Settled(row, own, Refused(Plain(error)), now);
            && t.sentAt == row.sentAt && !t.sending && t.sendingAt == row.sendingAt
            && FromDict(t.attempt) == Some(SendAttempt(
                 own.id, Plain("failed"), own.fingerprint, own.startedAt, Some(Iso(now)),
                 Some(Plain(if |error| <= 500 then error else error[..500])), own.providerMessageId,
                 own.resolvedBy, own.resolutionNote, map[]))
            && MaySend(FromDict(t.attempt), later).Allowed?
  {
    DictRoundTrip(own.(state := Plain("failed"), settledAt := Some(Iso(now)),
                       error := Some(Plain(if |error| <= 500 then error else error[..500]))));
  }

  /** With no answer the attempt stays as it was: pending, and never free again by itself. */
  lemma SilenceRecords(row: MailRow, own: SendAttempt, now: int, later: int)
    requires Own(own)
    ensures var t := Settled(row, own, NoAnswer, now);
            && t.sentAt == row.sentAt && !t.sending && t.sendingAt == row.sendingAt
            && FromDict(t.attempt) == Some(own) && !MaySend(FromDict(t.attempt), later).Allowed?
  {
    DictRoundTrip(own);
  }

  /** The operator's two answers: confirmed and marked sent if delivered, failed if not, attributed, with
      the first 500 characters of the note or a default one, and nothing else of the attempt changed. */
  lemma VerdictRecords(row: MailRow, v: Verdict, note: string, now: int, later: int)
    requires Storable(v.seen) && v.seen.state in {Plain("unknown"), Plain("pending")} && v.note == Plain(note)
    ensures var t := Resolved(row, v, now);
            && !t.sending && t.sendingAt == row.sendingAt
            && t.sentAt == (if !v.delivered then row.sentAt
                            else if Truthy(v.seenSentAt) then v.seenSentAt else Some(Iso(now)))
            && FromDict(t.attempt) == Some(SendAttempt(
                 v.seen.id, if v.delivered then Plain("confirmed") else Plain("failed"),
                 v.seen.fingerprint, v.seen.startedAt, Some(Iso(now)), v.seen.error, v.seen.providerMessageId,
                 Some(v.who),
                 Some(Plain(if note == "" then
                              (if v.delivered then "operator potwierdził dostarczenie"
                               else "operator potwierdził brak wysyłki")
                            else if |note| <= 500 then note else note[..500])),
                 v.seen.extra))
            && MaySend(FromDict(t.attempt), later) == (if v.delivered then AlreadySent else Allowed)
  {
    DictRoundTrip(Resolve(v.seen, v.delivered, v.who, v.note, now).value);
  }

  /** Which settle write frees the case: only a refusal, and only while the case is not marked sent. */
  lemma OnlyRefusalFrees(row: MailRow, own: SendAttempt, reply: Reply, now: int)
    requires Own(own)
    ensures Free(Settled(row, own, reply, now)) <==> reply.Refused? && !Truthy(row.sentAt)
  {
    match reply
    case Accepted(messageId) => DictRoundTrip(Confirm(own, messageId, now).value);
    case Refused(error) => DictRoundTrip(Fail(own, error, now).value);
    case NoAnswer => DictRoundTrip(own);
  }

  lemma OnlyNotDeliveredFrees(row: MailRow, v: Verdict, now: int)
    requires Storable(v.seen) && v.seen.state in {UNKNOWN, PENDING}
    ensures Free(Resolved(row, v, now)) <==> !v.delivered && !Truthy(row.sentAt)
  {
    DictRoundTrip(Resolve(v.seen, v.delivered, v.who, v.note, now).value);
  }
}
