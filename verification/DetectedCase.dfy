/**
 What one detected damage event does to a case (zdrovena/api/damage_detection.py,
 _upsert_detected_case), and why reading the same events again changes nothing.

 The scanners overlap their windows on purpose, so replays are the normal case, not the exception.
 */
module DetectedCases {
  import opened Prelude

  /** Context values; None and "" are Python-falsy. */
  type Context = map<string, Option<string>>

  predicate Present(c: Context, key: string) {
    key in c && c[key].Some? && c[key].value != ""
  }

  datatype Event = Event(
    caseId: string,
    trackingNumber: string,
    source: string,
    classification: string,
    detectedAt: string,
    fingerprint: string,
    evidence: string,
    context: Context)

  datatype Facts = Facts(
    trackingNumber: string,
    createdAt: string,
    updatedAt: string,
    detectedAt: string,
    status: string,
    classification: string,
    confidence: string,
    sources: seq<string>,
    lastFingerprint: string,
    fingerprints: seq<string>,
    evidence: seq<string>,
    context: Context)

  const EVIDENCE_KEPT: nat := 20

  function LastKept(xs: seq<string>): seq<string> {
    if |xs| <= EVIDENCE_KEPT then xs else xs[|xs| - EVIDENCE_KEPT..]
  }

  /** `add` fills the keys `have` lacks a value for; a present value is never replaced. */
  function Filled(have: Context, add: Context): Context {
    have + map k | k in add && Present(add, k) && !Present(have, k) :: add[k]
  }

  function Only(c: Context, keys: set<string>): Context {
    map k | k in c && k in keys :: c[k]
  }

  lemma FilledOneMore(have: Context, add: Context, done: set<string>, key: string)
    requires key in add && key !in done
    ensures Filled(have, Only(add, done + {key})) ==
            if Present(add, key) && !Present(have, key)
            then Filled(have, Only(add, done))[key := add[key]]
            else Filled(have, Only(add, done))
  {
    var before, after := Filled(have, Only(add, done)), Filled(have, Only(add, done + {key}));
    var want := if Present(add, key) && !Present(have, key) then before[key := add[key]] else before;
    forall k ensures (k in after <==> k in want) && (k in after ==> after[k] == want[k]) {
      FilledAt(have, Only(add, done), k);
      FilledAt(have, Only(add, done + {key}), k);
    }
    assert after == want;
  }

  lemma FilledAt(have: Context, add: Context, k: string)
    ensures k in Filled(have, add) <==> k in have || Present(add, k)
    ensures k in Filled(have, add) ==>
              Filled(have, add)[k] == if Present(have, k) || !Present(add, k) then have[k] else add[k]
  {
  }

  lemma FilledNone(have: Context, add: Context)
    ensures Filled(have, Only(add, {})) == have
  {
    assert Only(add, {}) == map[];
  }

  lemma OnlyAll(add: Context)
    ensures Only(add, add.Keys) == add
  {
  }

  function Appended(xs: seq<string>, x: string): seq<string> {
    if x in xs then xs else xs + [x]
  }

  function Opened(e: Event, now: string): Facts {
    Facts(
      e.trackingNumber, now, now,
      if e.detectedAt == "" then now else e.detectedAt,
      "needs_review",
      e.classification,
      if e.classification == "damage" then "high" else "medium",
      [e.source], e.fingerprint, [e.fingerprint], [e.evidence], e.context)
  }

  function Extended(f: Facts, e: Event, now: string): Facts {
    var upgraded := e.classification == "damage" && f.classification != "damage";
    f.(updatedAt := now,
       sources := Appended(f.sources, e.source),
       lastFingerprint := e.fingerprint,
       fingerprints := Appended(f.fingerprints, e.fingerprint),
       evidence := LastKept(if e.fingerprint in f.fingerprints then f.evidence else f.evidence + [e.evidence]),
       context := Filled(f.context, e.context),
       classification := if upgraded then "damage" else f.classification,
       confidence := if upgraded then "high" else f.confidence)
  }

  type Cases = map<string, Facts>

  function Upsert(cases: Cases, e: Event, now: string): Cases {
    cases[e.caseId := if e.caseId in cases then Extended(cases[e.caseId], e, now) else Opened(e, now)]
  }

  /** A read of events, each with the clock value observed while handling it. */
  type Reading = seq<(Event, string)>

  function Fold(cases: Cases, reading: Reading): Cases
    decreases |reading|
  {
    if reading == [] then cases
    else Fold(Upsert(cases, reading[0].0, reading[0].1), reading[1..])
  }

  // ---- Replays -------------------------------------------------------------------------------

  /** Everything a case says except which event was read last and when. */
  function Settled(f: Facts): Facts { f.(updatedAt := "", lastFingerprint := "") }

  /** Two case maps that differ at most in those two fields. */
  ghost predicate SameCases(a: Cases, b: Cases) {
    a.Keys == b.Keys && forall id :: id in a ==> Settled(a[id]) == Settled(b[id])
  }

  ghost predicate Bounded(cases: Cases) {
    forall id :: id in cases ==> |cases[id].evidence| <= EVIDENCE_KEPT
  }

  ghost predicate Absorbed(cases: Cases, e: Event) {
    e.caseId in cases
    && var f := cases[e.caseId];
    && e.fingerprint in f.fingerprints
    && e.source in f.sources
    && (e.classification == "damage" ==> f.classification == "damage")
    && (forall k :: Present(e.context, k) ==> Present(f.context, k))
  }

  lemma UpsertAbsorbs(cases: Cases, e: Event, now: string, other: Event)
    ensures Absorbed(Upsert(cases, e, now), e)
    ensures Absorbed(cases, other) ==> Absorbed(Upsert(cases, e, now), other)
    ensures Bounded(cases) ==> Bounded(Upsert(cases, e, now))
  {
  }

  /** Re-reading an absorbed event leaves every case as it was, up to the last-seen marks. */
  lemma AbsorbedIsHarmless(cases: Cases, e: Event, now: string)
    requires Absorbed(cases, e) && Bounded(cases)
    ensures SameCases(Upsert(cases, e, now), cases)
  {
    var f := cases[e.caseId];
    assert Filled(f.context, e.context) == f.context;
  }

  lemma {:induction false} FoldAbsorbs(cases: Cases, reading: Reading)
    ensures forall i :: 0 <= i < |reading| ==> Absorbed(Fold(cases, reading), reading[i].0)
    ensures forall e :: Absorbed(cases, e) ==> Absorbed(Fold(cases, reading), e)
    ensures Bounded(cases) ==> Bounded(Fold(cases, reading))
    decreases |reading|
  {
    if reading == [] {
    } else {
      var first := Upsert(cases, reading[0].0, reading[0].1);
      forall e ensures Absorbed(cases, e) ==> Absorbed(first, e) {
        UpsertAbsorbs(cases, reading[0].0, reading[0].1, e);
      }
      UpsertAbsorbs(cases, reading[0].0, reading[0].1, reading[0].0);
      FoldAbsorbs(first, reading[1..]);
      forall i | 0 <= i < |reading| ensures Absorbed(Fold(cases, reading), reading[i].0) {
        if i > 0 { assert reading[i] == reading[1..][i - 1]; }
      }
    }
  }

  lemma {:induction false} ReadingAbsorbedEvents(cases: Cases, reading: Reading)
    requires Bounded(cases)
    requires forall i :: 0 <= i < |reading| ==> Absorbed(cases, reading[i].0)
    ensures SameCases(Fold(cases, reading), cases)
    decreases |reading|
  {
    if reading == [] {
    } else {
      var first := Upsert(cases, reading[0].0, reading[0].1);
      AbsorbedIsHarmless(cases, reading[0].0, reading[0].1);
      forall e ensures Absorbed(cases, e) ==> Absorbed(first, e) {
        UpsertAbsorbs(cases, reading[0].0, reading[0].1, e);
      }
      UpsertAbsorbs(cases, reading[0].0, reading[0].1, reading[0].0);
      forall i | 0 <= i < |reading[1..]| ensures Absorbed(first, reading[1..][i].0) {
        assert reading[1..][i] == reading[i + 1];
      }
      ReadingAbsorbedEvents(first, reading[1..]);
    }
  }

  /** Main result: after any reading, a second reading of any of its events — all or some, in any
      order, any number of times, at any later clock — changes no case except its last-seen marks. */
  lemma ReplayIsHarmless(cases: Cases, first: Reading, again: Reading)
    requires Bounded(cases)
    requires forall i :: 0 <= i < |again| ==> exists j :: 0 <= j < |first| && first[j].0 == again[i].0
    ensures SameCases(Fold(Fold(cases, first), again), Fold(cases, first))
  {
    FoldAbsorbs(cases, first);
    ReadingAbsorbedEvents(Fold(cases, first), again);
  }

  /** The fingerprint of the last event of case `id` in a reading. */
  function LastOf(reading: Reading, id: string): Option<string>
    decreases |reading|
  {
    if reading == [] then None
    else
      var later := LastOf(reading[1..], id);
      if later.Some? then later
      else if reading[0].0.caseId == id then Some(reading[0].0.fingerprint)
      else None
  }

  lemma {:induction false} FoldMarksLast(cases: Cases, reading: Reading, id: string)
    ensures id in Fold(cases, reading) <==> id in cases || LastOf(reading, id).Some?
    ensures id in Fold(cases, reading) ==>
              Fold(cases, reading)[id].lastFingerprint ==
              if LastOf(reading, id).Some? then LastOf(reading, id).value else cases[id].lastFingerprint
    decreases |reading|
  {
    if reading == [] {
    } else {
      FoldMarksLast(Upsert(cases, reading[0].0, reading[0].1), reading[1..], id);
    }
  }

  /** Reading a whole list twice gives the very cases reading it once gives, clock apart. */
  lemma TwiceIsOnce(cases: Cases, first: Reading, again: Reading)
    requires Bounded(cases)
    requires |first| == |again| && forall i :: 0 <= i < |first| ==> first[i].0 == again[i].0
    ensures var once := Fold(cases, first);
            var twice := Fold(once, again);
            twice.Keys == once.Keys
            && forall id :: id in once ==> twice[id].(updatedAt := "") == once[id].(updatedAt := "")
  {
    var once := Fold(cases, first);
    var twice := Fold(once, again);
    forall i | 0 <= i < |again| ensures exists j :: 0 <= j < |first| && first[j].0 == again[i].0 {
      assert first[i].0 == again[i].0;
    }
    ReplayIsHarmless(cases, first, again);
    forall id | id in once ensures twice[id].(updatedAt := "") == once[id].(updatedAt := "") {
      FoldMarksLast(cases, first, id);
      FoldMarksLast(once, again, id);
      SameEventsSameLast(first, again, id);
      assert Settled(twice[id]) == Settled(once[id]);
    }
  }

  lemma {:induction false} SameEventsSameLast(a: Reading, b: Reading, id: string)
    requires |a| == |b| && forall i :: 0 <= i < |a| ==> a[i].0 == b[i].0
    ensures LastOf(a, id) == LastOf(b, id)
    decreases |a|
  {
    if a == [] {
    } else {
      forall i | 0 <= i < |a[1..]| ensures a[1..][i].0 == b[1..][i].0 {
        assert a[1..][i] == a[i + 1] && b[1..][i] == b[i + 1];
      }
      SameEventsSameLast(a[1..], b[1..], id);
    }
  }

  // ---- What a case accumulates ---------------------------------------------------------------

  /** The events of case `id` whose fingerprint is new when they are read. */
  function NewEvents(reading: Reading, id: string, known: seq<string>): seq<Event>
    decreases |reading|
  {
    if reading == [] then []
    else
      var e := reading[0].0;
      if e.caseId == id && e.fingerprint !in known
      then [e] + NewEvents(reading[1..], id, known + [e.fingerprint])
      else NewEvents(reading[1..], id, known)
  }

  function Fingerprints(es: seq<Event>): seq<string> { seq(|es|, i requires 0 <= i < |es| => es[i].fingerprint) }

  function Evidence(es: seq<Event>): seq<string> { seq(|es|, i requires 0 <= i < |es| => es[i].evidence) }

  lemma KeptOfKept(hist: seq<string>, x: string)
    ensures LastKept(LastKept(hist) + [x]) == LastKept(hist + [x])
    ensures LastKept(LastKept(hist)) == LastKept(hist)
  {
  }

  predicate IsNew(e: Event, id: string, known: seq<string>) { e.caseId == id && e.fingerprint !in known }

  /** What one event adds to case `id`. */
  lemma UpsertAdds(cases: Cases, e: Event, now: string, id: string, hist: seq<string>)
    requires id in cases && cases[id].evidence == LastKept(hist)
    ensures id in Upsert(cases, e, now)
    ensures var known := cases[id].fingerprints;
            var f := Upsert(cases, e, now)[id];
            if IsNew(e, id, known)
            then f.fingerprints == known + [e.fingerprint] && f.evidence == LastKept(hist + [e.evidence])
            else f.fingerprints == known && f.evidence == LastKept(hist)
  {
    KeptOfKept(hist, e.evidence);
  }

  lemma OneMoreNew(e: Event, rest: seq<Event>, known: seq<string>, hist: seq<string>)
    ensures known + Fingerprints([e] + rest) == (known + [e.fingerprint]) + Fingerprints(rest)
    ensures hist + Evidence([e] + rest) == (hist + [e.evidence]) + Evidence(rest)
  {
  }

  /** A case keeps every fingerprint it was ever given, in first-seen order, and of the evidence the
      twenty newest of exactly those events. */
  lemma {:induction false} EvidenceIsTwentyNewest(cases: Cases, reading: Reading, id: string, hist: seq<string>)
    requires id in cases && cases[id].evidence == LastKept(hist)
    ensures id in Fold(cases, reading)
    ensures var news := NewEvents(reading, id, cases[id].fingerprints);
            Fold(cases, reading)[id].fingerprints == cases[id].fingerprints + Fingerprints(news)
            && Fold(cases, reading)[id].evidence == LastKept(hist + Evidence(news))
    decreases |reading|
  {
    var known := cases[id].fingerprints;
    if reading == [] {
      assert known + Fingerprints([]) == known && hist + Evidence([]) == hist;
    } else {
      var (e, now) := reading[0];
      UpsertAdds(cases, e, now, id, hist);
      if IsNew(e, id, known) {
        EvidenceIsTwentyNewest(Upsert(cases, e, now), reading[1..], id, hist + [e.evidence]);
        OneMoreNew(e, NewEvents(reading[1..], id, known + [e.fingerprint]), known, hist);
      } else {
        EvidenceIsTwentyNewest(Upsert(cases, e, now), reading[1..], id, hist);
      }
    }
  }

  /** What no reading can undo, for any case already there. */
  ghost predicate Keeps(before: Facts, after: Facts) {
    && (before.classification == "damage" ==> after.classification == "damage")
    && (forall k :: Present(before.context, k) ==> k in after.context && after.context[k] == before.context[k])
    && before.fingerprints <= after.fingerprints
    && before.sources <= after.sources
    && (Distinct(before.fingerprints) ==> Distinct(after.fingerprints))
    && (Distinct(before.sources) ==> Distinct(after.sources))
    && after.status == before.status && after.detectedAt == before.detectedAt && after.createdAt == before.createdAt
  }

  lemma {:induction false} FoldKeeps(cases: Cases, reading: Reading, id: string)
    requires id in cases
    ensures id in Fold(cases, reading) && Keeps(cases[id], Fold(cases, reading)[id])
    decreases |reading|
  {
    if reading == [] {
    } else {
      var next := Upsert(cases, reading[0].0, reading[0].1);
      assert Keeps(cases[id], next[id]);
      FoldKeeps(next, reading[1..], id);
    }
  }

  /** A case is classified as damage exactly when it was, or when some event of it says so. */
  lemma {:induction false} DamageIsSticky(cases: Cases, reading: Reading, id: string)
    requires id in Fold(cases, reading)
    ensures Fold(cases, reading)[id].classification == "damage" <==>
            (id in cases && cases[id].classification == "damage")
            || exists i :: 0 <= i < |reading| && reading[i].0.caseId == id && reading[i].0.classification == "damage"
    decreases |reading|
  {
    if reading == [] {
    } else {
      var e := reading[0].0;
      DamageIsSticky(Upsert(cases, e, reading[0].1), reading[1..], id);
      if i :| 0 <= i < |reading[1..]|
              && reading[1..][i].0.caseId == id && reading[1..][i].0.classification == "damage"
      {
        assert reading[i + 1] == reading[1..][i];
      }
      if i :| 0 <= i < |reading| && reading[i].0.caseId == id && reading[i].0.classification == "damage" {
        if i > 0 { assert reading[1..][i - 1] == reading[i]; }
      }
    }
  }

  // ---- A case, field by field ------------------------------------------------------------------

  /** The sources of the events of case `id`, in reading order. */
  function Sources(reading: Reading, id: string): seq<string> {
    if reading == [] then []
    else (if reading[0].0.caseId == id then [reading[0].0.source] else []) + Sources(reading[1..], id)
  }

  /** The values the events of case `id` have for a context key, in reading order. */
  function Values(reading: Reading, id: string, key: string): seq<string> {
    if reading == [] then []
    else
      var e := reading[0].0;
      (if e.caseId == id && key in e.context && e.context[key].Some? && e.context[key].value != ""
       then [e.context[key].value] else [])
      + Values(reading[1..], id, key)
  }

  function First(reading: Reading, id: string): Option<(Event, string)> {
    if reading == [] then None else if reading[0].0.caseId == id then Some(reading[0]) else First(reading[1..], id)
  }

  /** The clock at the last event of case `id`. */
  function LastClock(reading: Reading, id: string): Option<string> {
    if reading == [] then None
    else if LastClock(reading[1..], id).Some? then LastClock(reading[1..], id)
    else if reading[0].0.caseId == id then Some(reading[0].1) else None
  }

  /** What a reading may not touch, and what it may touch only to say "damage". */
  lemma {:induction false} FoldLeaves(cases: Cases, reading: Reading, id: string)
    requires id in cases
    ensures id in Fold(cases, reading)
    ensures var f, g := cases[id], Fold(cases, reading)[id];
            && g.trackingNumber == f.trackingNumber && g.status == f.status
            && g.createdAt == f.createdAt && g.detectedAt == f.detectedAt
            && g.updatedAt == (if LastClock(reading, id).Some? then LastClock(reading, id).value else f.updatedAt)
            && (g.classification == f.classification
                || (g.classification == "damage" && f.classification != "damage"))
            && g.confidence == if g.classification == f.classification then f.confidence else "high"
    decreases |reading|
  {
    if reading == [] {
    } else {
      FoldLeaves(Upsert(cases, reading[0].0, reading[0].1), reading[1..], id);
    }
  }

  /** Sources are added in first-seen order, each once. */
  lemma {:induction false} FoldSources(cases: Cases, reading: Reading, id: string)
    requires id in cases
    ensures id in Fold(cases, reading)
    ensures Fold(cases, reading)[id].sources ==
            cases[id].sources + FirstOccurrences(Sources(reading, id), set x | x in cases[id].sources)
    decreases |reading|
  {
    var have := cases[id].sources;
    if reading == [] {
      assert have + [] == have;
    } else {
      var (e, now) := reading[0];
      var next := Upsert(cases, e, now);
      FoldSources(next, reading[1..], id);
      if e.caseId == id {
        AddSource(have, e.source, Sources(reading[1..], id));
      } else {
        assert Sources(reading, id) == Sources(reading[1..], id);
      }
    }
  }

  lemma AddSource(have: seq<string>, x: string, rest: seq<string>)
    ensures Appended(have, x) + FirstOccurrences(rest, set y | y in Appended(have, x))
            == have + FirstOccurrences([x] + rest, set y | y in have)
  {
    var seen := set y | y in have;
    assert ([x] + rest)[1..] == rest;
    if x !in have {
      assert (set y | y in have + [x]) == seen + {x};
      assert (have + [x]) + FirstOccurrences(rest, seen + {x}) == have + ([x] + FirstOccurrences(rest, seen + {x}));
    }
  }

  /** A context key keeps the value it has, or takes the first one an event brings; nothing else changes. */
  lemma {:induction false} FoldContext(cases: Cases, reading: Reading, id: string, key: string)
    requires id in cases
    ensures id in Fold(cases, reading)
    ensures var c, d, news := cases[id].context, Fold(cases, reading)[id].context, Values(reading, id, key);
            if (key in c && c[key].Some? && c[key].value != "") || news == []
            then (key in d <==> key in c) && (key in c ==> d[key] == c[key])
            else key in d && d[key] == Some(news[0])
    decreases |reading|
  {
    if reading == [] {
    } else {
      var (e, now) := reading[0];
      FoldContext(Upsert(cases, e, now), reading[1..], id, key);
      if e.caseId == id { FilledAt(cases[id].context, e.context, key); }
    }
  }

  /** The case a reading opens, from its first event on: only that event's part of the reading matters for
      what the opening fixes, and every later one only adds. */
  lemma {:induction false} OpenedCase(cases: Cases, reading: Reading, id: string)
    requires id !in cases && First(reading, id).Some?
    ensures id in Fold(cases, reading)
    ensures var (e, now), g := First(reading, id).value, Fold(cases, reading)[id];
            && g.status == "needs_review" && g.trackingNumber == e.trackingNumber && g.createdAt == now
            && g.detectedAt == (if e.detectedAt == "" then now else e.detectedAt)
            && LastClock(reading, id) == Some(g.updatedAt)
            && (g.classification == e.classification || g.classification == "damage")
            && g.confidence == (if g.classification == "damage" then "high" else "medium")
            && g.sources == FirstOccurrences(Sources(reading, id), {})
    decreases |reading|
  {
    var (e, now) := reading[0];
    var next := Upsert(cases, e, now);
    if e.caseId == id {
      FoldLeaves(next, reading[1..], id);
      FoldSources(next, reading[1..], id);
      assert Sources(reading, id) == [e.source] + Sources(reading[1..], id);
      assert ([e.source] + Sources(reading[1..], id))[1..] == Sources(reading[1..], id);
      assert (set x | x in [e.source]) == {} + {e.source};
    } else {
      OpenedCase(next, reading[1..], id);
      assert Sources(reading, id) == Sources(reading[1..], id);
    }
  }

  /** Of a case the reading opens: every fingerprint in first-seen order, and the evidence of the twenty
      newest of exactly those events, the first one included. */
  lemma {:induction false} OpenedEvidence(cases: Cases, reading: Reading, id: string)
    requires id !in cases && First(reading, id).Some?
    ensures id in Fold(cases, reading)
    ensures Fold(cases, reading)[id].fingerprints == Fingerprints(NewEvents(reading, id, []))
    ensures Fold(cases, reading)[id].evidence == LastKept(Evidence(NewEvents(reading, id, [])))
    decreases |reading|
  {
    var (e, now) := reading[0];
    var next := Upsert(cases, e, now);
    if e.caseId == id {
      EvidenceIsTwentyNewest(next, reading[1..], id, [e.evidence]);
      var rest := NewEvents(reading[1..], id, [e.fingerprint]);
      assert [] + [e.fingerprint] == [e.fingerprint];
      assert NewEvents(reading, id, []) == [e] + rest;
      OneMoreNew(e, rest, [], []);
      assert [] + [e.evidence] == [e.evidence];
      assert [] + Fingerprints([e] + rest) == Fingerprints([e] + rest);
      assert [] + Evidence([e] + rest) == Evidence([e] + rest);
    } else {
      OpenedEvidence(next, reading[1..], id);
    }
  }

  /** And each context key has the first value an event brings, or what the first event said. */
  lemma {:induction false} OpenedContext(cases: Cases, reading: Reading, id: string, key: string)
    requires id !in cases && First(reading, id).Some?
    ensures id in Fold(cases, reading)
    ensures var d, c := Fold(cases, reading)[id].context, First(reading, id).value.0.context;
            var values := Values(reading, id, key);
            if values != [] then key in d && d[key] == Some(values[0])
            else (key in d <==> key in c) && (key in c ==> d[key] == c[key])
    decreases |reading|
  {
    var (e, now) := reading[0];
    var next := Upsert(cases, e, now);
    if e.caseId == id {
      FoldContext(next, reading[1..], id, key);
    } else {
      OpenedContext(next, reading[1..], id, key);
    }
  }

  /** A case appears if and only if it was there or an event names it; without one it is as it was. */
  lemma {:induction false} OthersUntouched(cases: Cases, reading: Reading, id: string)
    ensures id in Fold(cases, reading) <==> id in cases || First(reading, id).Some?
    ensures First(reading, id).None? && id in cases ==> Fold(cases, reading)[id] == cases[id]
    decreases |reading|
  {
    if reading == [] {
    } else {
      OthersUntouched(Upsert(cases, reading[0].0, reading[0].1), reading[1..], id);
    }
  }

  /** The evidence limit. */
  lemma TwentyAtMost(xs: seq<string>)
    ensures |LastKept(xs)| == (if |xs| <= 20 then |xs| else 20)
    ensures forall i :: 0 <= i < |LastKept(xs)| ==> LastKept(xs)[i] == xs[|xs| - |LastKept(xs)| + i]
  {
  }
}
