/**
 The damage-case store in its locked local form (zdrovena/common/damage_store.py): two maps, each
 method one load-change-save under the lock.
 */
module DamageStores {
  import opened Prelude
  import opened SendAttempts
  import opened CaseMail
  import opened DetectedCases

  datatype Case = Case(mail: MailRow, facts: Facts)

  /** The email columns of a case nobody has written to yet. */
  const NO_MAIL := MailRow(None, map[], false, None)

  class DamageStore {
    var cases: map<string, Case>
    var state: map<string, int>

    constructor ()
      ensures cases == map[] && state == map[]
    {
      cases, state := map[], map[];
    }

    /** The detection half of every case, as the fold in DetectedCases sees it. */
    ghost function FactsById(): Cases
      reads this
    {
      map id | id in cases :: cases[id].facts
    }

    ghost function MailById(): map<string, MailRow>
      reads this
    {
      map id | id in cases :: cases[id].mail
    }

    method UpsertCase(id: string, record: Case)
      modifies this`cases
      ensures cases == old(cases)[id := record]
    {
      cases := cases[id := record];
    }

    /** Merge into an existing case; a missing case is reported and nothing is written. */
    method UpdateCase(id: string, merge: Case -> Case) returns (found: bool)
      modifies this`cases
      ensures found <==> id in old(cases)
      ensures cases == if found then old(cases)[id := merge(old(cases)[id])] else old(cases)
    {
      found := id in cases;
      if found {
        cases := cases[id := merge(cases[id])];
      }
    }

    method GetCase(id: string) returns (stored: Option<Case>)
      ensures stored == if id in cases then Some(cases[id]) else None
    {
      stored := if id in cases then Some(cases[id]) else None;
    }

    /** The claim: won exactly when the case exists and is free, and then the attempt is on the row in
        the same write; a lost claim writes nothing, and nobody's detection facts change. */
    method TryClaimEmail(id: string, attempt: Option<Dict>, now: int) returns (won: bool)
      modifies this`cases
      ensures won <==> id in old(cases) && Free(old(cases)[id].mail)
      ensures MailById() == if won then old(MailById())[id := Claimed(old(cases)[id].mail, attempt, now)]
                            else old(MailById())
      ensures won ==> id in cases
                      && cases[id].mail.sending && cases[id].mail.sendingAt == Some(Iso(now))
                      && cases[id].mail.sentAt == old(cases)[id].mail.sentAt
                      && cases[id].mail.attempt == if attempt.Some? then attempt.value
                                                   else old(cases)[id].mail.attempt
      ensures FactsById() == old(FactsById())
    {
      won := false;
      if id in cases {
        ClaimIgnoresTheClock(cases[id].mail, now);
        if CanClaim(cases[id].mail, now) {
          var mail := cases[id].mail;
          mail := mail.(sending := true, sendingAt := Some(Iso(now)));
          if attempt.Some? {
            mail := mail.(attempt := attempt.value);
          }
          cases := cases[id := cases[id].(mail := mail)];
          won := true;
        }
      }
    }

    method GetState(key: string, default: int) returns (value: int)
      ensures value == if key in state then state[key] else default
    {
      value := if key in state then state[key] else default;
    }

    method SetState(key: string, value: int)
      modifies this`state
      ensures state == old(state)[key := value]
    {
      state := state[key := value];
    }

    /** The loop over context items: it sets what is missing and nothing else, whatever the order. */
    static method FillContext(have: Context, add: Context) returns (context: Context)
      ensures context == Filled(have, add)
    {
      context := have;
      var keys := add.Keys;
      ghost var done: set<string> := {};
      FilledNone(have, add);
      while keys != {}
        invariant done !! keys && done + keys == add.Keys
        invariant context == Filled(have, Only(add, done))
        decreases |keys|
      {
        var key :| key in keys;
        FilledOneMore(have, add, done, key);
        if Present(add, key) && !Present(have, key) {
          context := context[key := add[key]];
        }
        keys := keys - {key};
        done := done + {key};
      }
      OnlyAll(add);
    }

    /** zdrovena/api/damage_detection.py, _upsert_detected_case: folds one event into its case. A new case
        has no mail; the email columns of an existing one are not touched. */
    method UpsertDetectedCase(e: Event, now: string) returns (created: bool)
      modifies this`cases
      ensures created <==> e.caseId !in old(cases)
      ensures FactsById() == Upsert(old(FactsById()), e, now)
      ensures MailById() == if created then old(MailById())[e.caseId := NO_MAIL] else old(MailById())
    {
      var existing := GetCase(e.caseId);
      if existing.Some? {
        var facts := existing.value.facts;
        var isNewEvidence := e.fingerprint !in facts.fingerprints;
        var fingerprints, evidence := facts.fingerprints, facts.evidence;
        if isNewEvidence {
          fingerprints := fingerprints + [e.fingerprint];
          evidence := evidence + [e.evidence];
        }
        var sources := facts.sources;
        if e.source !in sources {
          sources := sources + [e.source];
        }
        var context := FillContext(facts.context, e.context);
        var classification, confidence := facts.classification, facts.confidence;
        if e.classification == "damage" && facts.classification != "damage" {
          classification, confidence := "damage", "high";
        }
        var extended := facts.(
          updatedAt := now, sources := sources, lastFingerprint := e.fingerprint, fingerprints := fingerprints,
          evidence := LastKept(evidence), context := context, classification := classification,
          confidence := confidence);
        assert extended == Extended(facts, e, now);
        var found := UpdateCase(e.caseId, (c: Case) => c.(facts := extended));
        created := false;
      } else {
        UpsertCase(e.caseId, Case(NO_MAIL, Opened(e, now)));
        created := true;
      }
    }
  }
}
