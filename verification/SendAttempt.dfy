/**
 The durable record of one irreversible email send, and the rules that move it
 (zdrovena/common/send_attempt.py). Every transition returns a new value; clock
 readings, fresh ids and digests are parameters.
 */
module SendAttempts {
  import opened Prelude

  /** A Python string. `Iso(t)` is the text isoformat() writes for instant t (microseconds, UTC);
      `Plain(s)` is any other text, so only `Iso` can be read back as a time. */
  datatype Text = Plain(s: string) | Iso(at: int)

  /** A JSON object whose values are texts or null. */
  type Dict = map<string, Option<Text>>

  const PENDING := Plain("pending")
  const UNKNOWN := Plain("unknown")
  const CONFIRMED := Plain("confirmed")
  const FAILED := Plain("failed")

  const STALE_AFTER: int := 600_000_000  // ten minutes

  const KNOWN_KEYS: set<string> := {
    "id", "state", "fingerprint", "started_at", "settled_at", "error",
    "provider_message_id", "resolved_by", "resolution_note"
  }

  datatype SendAttempt = SendAttempt(
    id: Text,
    state: Text,
    fingerprint: Text,
    startedAt: Text,
    settledAt: Option<Text>,
    error: Option<Text>,
    providerMessageId: Option<Text>,
    resolvedBy: Option<Text>,
    resolutionNote: Option<Text>,
    extra: Dict)

  predicate Truthy(t: Option<Text>) { t.Some? && t.value != Plain("") }

  function Get(d: Dict, key: string): Option<Text> { if key in d then d[key] else None }

  /** Python's `x or default` followed by str(). */
  function OrElse(t: Option<Text>, default: Text): Text { if Truthy(t) then t.value else default }

  function Clip(t: Text): Text {
    if t.Plain? && |t.s| > 500 then Plain(t.s[..500]) else t
  }

  function ToDict(a: SendAttempt): Dict {
    map[
      "id" := Some(a.id),
      "state" := Some(a.state),
      "fingerprint" := Some(a.fingerprint),
      "started_at" := Some(a.startedAt),
      "settled_at" := a.settledAt,
      "error" := a.error,
      "provider_message_id" := a.providerMessageId,
      "resolved_by" := a.resolvedBy,
      "resolution_note" := a.resolutionNote
    ] + a.extra
  }

  /** The empty dict stands for Python's None and {} alike: both are falsy. */
  function FromDict(d: Dict): Option<SendAttempt> {
    if !Truthy(Get(d, "id")) then None
    else Some(SendAttempt(
                d["id"].value,
                OrElse(Get(d, "state"), UNKNOWN),
                OrElse(Get(d, "fingerprint"), Plain("")),
                OrElse(Get(d, "started_at"), Plain("")),
                Get(d, "settled_at"),
                Get(d, "error"),
                Get(d, "provider_message_id"),
                Get(d, "resolved_by"),
                Get(d, "resolution_note"),
                map k | k in d && k !in KNOWN_KEYS :: d[k]))
  }

  ghost predicate Storable(a: SendAttempt) {
    a.id != Plain("") && a.state != Plain("") && a.extra.Keys !! KNOWN_KEYS
  }

  /** Storing and reloading gives the same attempt exactly when it has an id, a state, and no extra
      field that shadows a known one. */
  lemma DictRoundTrip(a: SendAttempt)
    ensures FromDict(ToDict(a)) == Some(a) <==> Storable(a)
  {
    var d := ToDict(a);
    if Storable(a) {
      assert forall k :: k in KNOWN_KEYS ==> k !in a.extra;
      assert Get(d, "id") == Some(a.id);
      assert (map k | k in d && k !in KNOWN_KEYS :: d[k]) == a.extra;
    } else if a.extra.Keys !! KNOWN_KEYS {
      assert "id" in KNOWN_KEYS && "state" in KNOWN_KEYS;
      assert d["id"] == Some(a.id) && d["state"] == Some(a.state);
    } else {
      var k :| k in a.extra && k in KNOWN_KEYS;
      if FromDict(d).Some? {
        assert k !in FromDict(d).value.extra;
      }
    }
  }

  /** The columns an attempt is stored in. */
  lemma StoredColumns(a: SendAttempt)
    requires Storable(a)
    ensures var d := ToDict(a);
            && d.Keys == a.extra.Keys + KNOWN_KEYS && (forall k :: k in a.extra ==> d[k] == a.extra[k])
            && d["id"] == Some(a.id) && d["state"] == Some(a.state) && d["fingerprint"] == Some(a.fingerprint)
            && d["started_at"] == Some(a.startedAt) && d["settled_at"] == a.settledAt && d["error"] == a.error
            && d["provider_message_id"] == a.providerMessageId && d["resolved_by"] == a.resolvedBy
            && d["resolution_note"] == a.resolutionNote
  {
    assert forall k :: k in KNOWN_KEYS ==> k !in a.extra;
    var d := ToDict(a);
    assert d.Keys == a.extra.Keys + KNOWN_KEYS;
  }

  /** A dict without an id holds no attempt; any other one is loaded as it stands, except that a missing or
      empty state reads "unknown" and a missing fingerprint or start reads empty. */
  lemma LoadedAsStored(d: Dict)
    ensures FromDict(d).None? <==> !Truthy(Get(d, "id"))
    ensures FromDict(d).Some? ==>
              var back := ToDict(FromDict(d).value);
              && back.Keys == d.Keys + KNOWN_KEYS
              && (forall k :: k in back && k !in {"state", "fingerprint", "started_at"} ==> back[k] == Get(d, k))
              && back["state"] == Some(if Truthy(Get(d, "state")) then d["state"].value else Plain("unknown"))
              && back["fingerprint"]
                 == Some(if Truthy(Get(d, "fingerprint")) then d["fingerprint"].value else Plain(""))
              && back["started_at"] == Some(if Truthy(Get(d, "started_at")) then d["started_at"].value else Plain(""))
  {
    if FromDict(d).Some? {
      var a := FromDict(d).value;
      LoadedIsStorable(d);
      StoredColumns(a);
      assert d.Keys + KNOWN_KEYS == a.extra.Keys + KNOWN_KEYS;
      forall k | k in ToDict(a) && k !in {"state", "fingerprint", "started_at"} ensures ToDict(a)[k] == Get(d, k) {
        if k !in KNOWN_KEYS { assert k in a.extra; }
      }
    }
  }

  /** So only a record that says "failed", or no record at all, lets a send start. */
  lemma LoadedPermission(d: Dict, now: int)
    ensures MaySend(FromDict(d), now).Allowed? <==> !Truthy(Get(d, "id")) || Get(d, "state") == Some(Plain("failed"))
  {
  }

  lemma LoadedIsStorable(d: Dict)
    ensures FromDict(d).Some? ==> Storable(FromDict(d).value)
  {
  }

  function Begin(id: Text, digest: Text, now: int): SendAttempt {
    SendAttempt(id, PENDING, digest, Iso(now), None, None, None, None, None, map[])
  }

  function Confirm(a: SendAttempt, messageId: Option<Text>, now: int): Result<SendAttempt> {
    if a.state !in {PENDING, UNKNOWN} then Err("cannot confirm")
    else Ok(a.(state := CONFIRMED, settledAt := Some(Iso(now)), error := None,
               providerMessageId := if Truthy(messageId) then messageId else a.providerMessageId))
  }

  function Fail(a: SendAttempt, error: Text, now: int): Result<SendAttempt> {
    if a.state != PENDING then Err("cannot fail")
    else Ok(a.(state := FAILED, settledAt := Some(Iso(now)), error := Some(Clip(error))))
  }

  function Resolve(a: SendAttempt, delivered: bool, who: Text, note: Text, now: int): Result<SendAttempt> {
    if a.state !in {UNKNOWN, PENDING} then Err("cannot resolve")
    else Ok(a.(state := if delivered then CONFIRMED else FAILED,
               settledAt := Some(Iso(now)),
               resolvedBy := Some(who),
               resolutionNote := Some(if note != Plain("") then Clip(note)
                                      else if delivered then Plain("operator potwierdził dostarczenie")
                                      else Plain("operator potwierdził brak wysyłki"))))
  }

  /** The effective state: a stranded `pending` reads as `unknown`. */
  function Classify(a: Option<SendAttempt>, now: int): Option<Text> {
    if a.None? then None
    else if a.value.state != PENDING then Some(a.value.state)
    else match a.value.startedAt
      case Plain(_) => Some(UNKNOWN)
      case Iso(started) => if now - started > STALE_AFTER then Some(UNKNOWN) else Some(PENDING)
  }

  /** A begun attempt carries its id and fingerprint, and blocks other sends from this instant. */
  lemma BegunBlocks(id: Text, digest: Text, now: int, later: int)
    ensures Begin(id, digest, now).id == id && Begin(id, digest, now).fingerprint == digest
    ensures MaySend(Some(Begin(id, digest, now)), later)
            == if later <= now + 600_000_000 then InProgress else Ambiguous
  {
  }

  datatype Permission = Allowed | AlreadySent | InProgress | Ambiguous

  function MaySend(a: Option<SendAttempt>, now: int): Permission {
    var state := Classify(a, now);
    if state.None? || state.value == FAILED then Allowed
    else if state.value == CONFIRMED then AlreadySent
    else if state.value == PENDING then InProgress
    else Ambiguous
  }

  /** What each answer means, in the texts the record holds. */
  lemma PermissionMeans(a: Option<SendAttempt>, now: int)
    ensures MaySend(a, now).Allowed? <==> a.None? || a.value.state == Plain("failed")
    ensures MaySend(a, now).AlreadySent? <==> a.Some? && a.value.state == Plain("confirmed")
    ensures MaySend(a, now).InProgress? <==>
            a.Some? && a.value.state == Plain("pending") && a.value.startedAt.Iso?
            && now <= a.value.startedAt.at + 600_000_000
  {
  }

  /** Whether a send may start depends on the record alone: waiting never frees an attempt, and the
      one thing time does is turn "in progress" into "ambiguous", once and for good. */
  lemma TimeNeverFrees(a: Option<SendAttempt>, now: int, later: int)
    requires now <= later
    ensures MaySend(a, now).Allowed? <==> a.None? || a.value.state == FAILED
    ensures MaySend(a, later) != MaySend(a, now)
            <==> a.Some? && a.value.state == PENDING && a.value.startedAt.Iso?
                 && now <= a.value.startedAt.at + STALE_AFTER < later
    ensures MaySend(a, later) != MaySend(a, now)
            ==> MaySend(a, now).InProgress? && MaySend(a, later).Ambiguous?
  {
  }

  datatype Move =
    | ConfirmMove(messageId: Option<Text>)
    | FailMove(error: Text)
    | ResolveMove(delivered: bool, who: Text, note: Text)

  function Move1(a: SendAttempt, m: Move, now: int): Result<SendAttempt> {
    match m
    case ConfirmMove(messageId) => Confirm(a, messageId, now)
    case FailMove(error) => Fail(a, error, now)
    case ResolveMove(delivered, who, note) => Resolve(a, delivered, who, note, now)
  }

  /** Any sequence of transitions, refused ones leaving the attempt as it was. */
  function Moves(a: SendAttempt, ms: seq<(Move, int)>): SendAttempt
    decreases |ms|
  {
    if ms == [] then a
    else match Move1(a, ms[0].0, ms[0].1)
      case Ok(b) => Moves(b, ms[1..])
      case Err(_) => Moves(a, ms[1..])
  }

  /** Which transitions are refused: a confirmation and a resolution of anything but a pending or unknown
      attempt, a failure of anything but a pending one. */
  lemma RefusedExactly(a: SendAttempt, m: Move, now: int)
    ensures Move1(a, m, now).Ok? <==>
            a.state == Plain("pending") || (a.state == Plain("unknown") && !m.FailMove?)
    ensures Move1(a, m, now).Ok? ==>
              Move1(a, m, now).value.state in {Plain("confirmed"), Plain("failed")}
              && Move1(a, m, now).value.settledAt == Some(Iso(now))
              && (Move1(a, m, now).value.state == Plain("confirmed") <==>
                  m.ConfirmMove? || (m.ResolveMove? && m.delivered))
  {
  }

  /** A sequence of transitions is one after the other; a refused one changes nothing. */
  lemma {:induction false} MovesConcat(a: SendAttempt, ms: seq<(Move, int)>, more: seq<(Move, int)>)
    ensures Moves(a, ms + more) == Moves(Moves(a, ms), more)
    decreases |ms|
  {
    if ms == [] {
      assert ms + more == more;
    } else {
      assert (ms + more)[0] == ms[0] && (ms + more)[1..] == ms[1..] + more;
      match Move1(a, ms[0].0, ms[0].1)
      case Ok(b) => MovesConcat(b, ms[1..], more);
      case Err(_) => MovesConcat(a, ms[1..], more);
    }
  }

  lemma MovesOne(a: SendAttempt, m: Move, now: int)
    ensures Moves(a, [(m, now)]) == if Move1(a, m, now).Ok? then Move1(a, m, now).value else a
  {
    assert [(m, now)][1..] == [];
  }

  /** Once settled an attempt never changes again, and what was being sent and when is never rewritten. */
  lemma {:induction false} SettledIsFinal(a: SendAttempt, ms: seq<(Move, int)>)
    ensures Moves(a, ms).id == a.id && Moves(a, ms).fingerprint == a.fingerprint
    ensures Moves(a, ms).startedAt == a.startedAt && Moves(a, ms).extra == a.extra
    ensures a.state !in {PENDING, UNKNOWN} ==> Moves(a, ms) == a
    ensures Moves(a, ms) != a ==> Moves(a, ms).state in {CONFIRMED, FAILED}
    decreases |ms|
  {
    if ms == [] {
    } else {
      match Move1(a, ms[0].0, ms[0].1)
      case Ok(b) => SettledIsFinal(b, ms[1..]);
      case Err(_) => SettledIsFinal(a, ms[1..]);
    }
  }
}
