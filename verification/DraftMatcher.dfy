/**
 Matching a provider's parcel record to one of our drafts (zdrovena/api/damage_detection.py,
 _match_provider_to_draft). Identity fields come already normalized; times are microseconds.
 */
module DraftMatchers {
  import opened Prelude
  import StableSort

  datatype Identity = Identity(
    email: string, phone: string, name: string, postalCode: string, city: string, street: string)

  datatype Draft = Draft(id: int, orderNumber: string, externalOrderId: string, orderTime: Option<int>, who: Identity)

  datatype Record = Record(reference: string, who: Identity)

  const DAY: int := 86_400_000_000

  predicate Agrees(a: string, b: string) { a != "" && b != "" && a == b }

  function Field(agrees: bool, weight: int, anchor: bool): seq<(int, bool)> {
    if agrees then [(weight, anchor)] else []
  }

  /** Which of the six fields agree, as (weight, is an anchor). */
  function Matched(r: Identity, d: Identity): seq<(int, bool)> {
    Field(Agrees(r.email, d.email), 8, true)
    + Field(Agrees(r.phone, d.phone), 7, true)
    + Field(Agrees(r.name, d.name), 4, false)
    + Field(Agrees(r.postalCode, d.postalCode), 2, false)
    + Field(Agrees(r.city, d.city), 1, false)
    + Field(Agrees(r.street, d.street), 2, false)
  }

  function Weight(fields: seq<(int, bool)>): int {
    if fields == [] then 0 else fields[0].0 + Weight(fields[1..])
  }

  predicate Anchored(fields: seq<(int, bool)>) { exists i :: 0 <= i < |fields| && fields[i].1 }

  /** Distance from the event; an undated draft is infinitely far away. */
  datatype Age = Finite(micros: nat) | Infinite

  datatype Candidate = Candidate(score: int, age: Age, draft: Draft)

  function AgeOf(d: Draft, event: int): Option<Age> {
    match d.orderTime
    case None => Some(Infinite)
    case Some(t) =>
      var age := event - t;
      if age < -2 * DAY || age > 90 * DAY then None
      else Some(Finite(if age >= 0 then age else -age))
  }

  function CandidateOf(r: Identity, d: Draft, event: int): Option<Candidate> {
    var age := AgeOf(d, event);
    var fields := Matched(r, d.who);
    if age.None? then None
    else if !Anchored(fields) || |fields| < 2 then None
    else if Weight(fields) >= 10 then Some(Candidate(Weight(fields), age.value, d))
    else None
  }

  lemma {:induction false} WeightOfBoth(a: seq<(int, bool)>, b: seq<(int, bool)>)
    ensures Weight(a + b) == Weight(a) + Weight(b)
    ensures Anchored(a + b) <==> Anchored(a) || Anchored(b)
  {
    if a == [] {
      assert a + b == b;
    } else {
      assert (a + b)[1..] == a[1..] + b;
      WeightOfBoth(a[1..], b);
    }
    if Anchored(a) {
      var i :| 0 <= i < |a| && a[i].1;
      assert (a + b)[i].1;
    }
    if Anchored(b) {
      var i :| 0 <= i < |b| && b[i].1;
      assert (a + b)[|a| + i].1;
    }
  }

  lemma FieldWeighs(agrees: bool, weight: int, anchor: bool)
    ensures Weight(Field(agrees, weight, anchor)) == if agrees then weight else 0
    ensures Anchored(Field(agrees, weight, anchor)) <==> agrees && anchor
  {
    if agrees { assert Field(agrees, weight, anchor)[0].1 == anchor; }
  }

  predicate Same(a: string, b: string) { a != "" && a == b }

  /** Ordered no more than two days after and ninety days before the event, if dated; and agreeing on the
      email and any of phone, name, postal code or street, or on the phone and either the name or two of the
      three address fields. */
  predicate Eligible(r: Identity, d: Draft, event: int) {
    var email, phone := Same(r.email, d.who.email), Same(r.phone, d.who.phone);
    var name, post := Same(r.name, d.who.name), Same(r.postalCode, d.who.postalCode);
    var city, street := Same(r.city, d.who.city), Same(r.street, d.who.street);
    && (d.orderTime.Some? ==> -2 * 86_400_000_000 <= event - d.orderTime.value <= 90 * 86_400_000_000)
    && ((email && (phone || name || post || street))
        || (phone && (name || (post && city) || (post && street) || (city && street))))
  }

  function Abs(x: int): int { if x >= 0 then x else -x }

  /** The weights of the fields in which a draft agrees with the record. */
  function Score(r: Identity, d: Identity): int {
    (if Same(r.email, d.email) then 8 else 0) + (if Same(r.phone, d.phone) then 7 else 0)
    + (if Same(r.name, d.name) then 4 else 0) + (if Same(r.postalCode, d.postalCode) then 2 else 0)
    + (if Same(r.city, d.city) then 1 else 0) + (if Same(r.street, d.street) then 2 else 0)
  }

  lemma MatchedWeighs(r: Identity, d: Identity)
    ensures Weight(Matched(r, d)) == Score(r, d)
    ensures Anchored(Matched(r, d)) <==> Same(r.email, d.email) || Same(r.phone, d.phone)
  {
    var a, b := Field(Agrees(r.email, d.email), 8, true), Field(Agrees(r.phone, d.phone), 7, true);
    var c, e := Field(Agrees(r.name, d.name), 4, false), Field(Agrees(r.postalCode, d.postalCode), 2, false);
    var f, g := Field(Agrees(r.city, d.city), 1, false), Field(Agrees(r.street, d.street), 2, false);
    FieldWeighs(Agrees(r.email, d.email), 8, true);
    FieldWeighs(Agrees(r.phone, d.phone), 7, true);
    FieldWeighs(Agrees(r.name, d.name), 4, false);
    FieldWeighs(Agrees(r.postalCode, d.postalCode), 2, false);
    FieldWeighs(Agrees(r.city, d.city), 1, false);
    FieldWeighs(Agrees(r.street, d.street), 2, false);
    WeightOfBoth(a, b);
    WeightOfBoth(a + b, c);
    WeightOfBoth(a + b + c, e);
    WeightOfBoth(a + b + c + e, f);
    WeightOfBoth(a + b + c + e + f, g);
    assert Matched(r, d) == a + b + c + e + f + g;
  }

  /** The weights, the anchor rule and the threshold together accept exactly the eligible drafts. */
  lemma AcceptanceRule(r: Identity, d: Draft, event: int)
    ensures CandidateOf(r, d, event).Some? <==> Eligible(r, d, event)
  {
    MatchedWeighs(r, d.who);
  }

  /** A candidate is its draft, with the weights of the agreeing fields for a score, and for an age the
      distance from the event, infinite exactly for an undated draft. */
  lemma CandidateMeans(r: Identity, d: Draft, event: int)
    requires CandidateOf(r, d, event).Some?
    ensures var c := CandidateOf(r, d, event).value;
            && c.draft == d && c.score == Score(r, d.who)
            && c.age == if d.orderTime.None? then Infinite else Finite(Abs(event - d.orderTime.value))
  {
    MatchedWeighs(r, d.who);
  }

  function Candidates(r: Identity, drafts: seq<Draft>, event: int): seq<Candidate> {
    if drafts == [] then []
    else
      var rest := Candidates(r, drafts[1..], event);
      match CandidateOf(r, drafts[0], event)
      case Some(c) => [c] + rest
      case None => rest
  }

  // ---- The sort --------------------------------------------------------------------------------

  predicate AgeBefore(a: Age, b: Age) { a.Finite? && (b.Infinite? || a.micros < b.micros) }

  /** The sort key order: higher score first, then nearer first. */
  predicate Before(a: Candidate, b: Candidate) {
    a.score > b.score || (a.score == b.score && AgeBefore(a.age, b.age))
  }

  function Sorted(cs: seq<Candidate>): seq<Candidate> { StableSort.Sorted(Before, cs) }

  ghost predicate InOrder(cs: seq<Candidate>) {
    forall i, j :: 0 <= i < j < |cs| ==> !Before(cs[j], cs[i])
  }

  lemma SortSorts(cs: seq<Candidate>)
    ensures InOrder(Sorted(cs)) && multiset(Sorted(cs)) == multiset(cs) && |Sorted(cs)| == |cs|
  {
    assert StableSort.WeakOrder(Before);
    StableSort.SortSorts(Before, cs);
  }

  // ---- The decision ----------------------------------------------------------------------------

  /** The float comparison `second - best < 86 400 s`; inf - inf is NaN and compares false. */
  predicate TooClose(second: Age, best: Age) {
    second.Finite? && best.Finite? && second.micros - best.micros < DAY
  }

  /** `candidates[0]` unless an equally good second is within a day. */
  function Decide(sorted: seq<Candidate>): Option<Candidate> {
    if sorted == [] then None
    else if |sorted| > 1 && sorted[0].score == sorted[1].score && TooClose(sorted[1].age, sorted[0].age) then None
    else Some(sorted[0])
  }

  /** The best-effort half of the match, on the candidate list. */
  function Choose(cs: seq<Candidate>): Option<Candidate> { Decide(Sorted(cs)) }

  /** `b` stands clear of `c`: a higher score, or the same score and at least a day nearer. */
  predicate Clear(b: Candidate, c: Candidate) {
    b.score > c.score
    || (b.score == c.score && b.age.Finite? && (c.age.Infinite? || c.age.micros - b.age.micros >= DAY))
  }

  ghost predicate ClearOf(b: Candidate, others: multiset<Candidate>) {
    forall c :: c in others ==> Clear(b, c)
  }

  /** An undated candidate that nothing is before. */
  ghost predicate Foremost(x: Candidate, cs: multiset<Candidate>) {
    x in cs && x.age.Infinite? && forall c :: c in cs ==> !Before(c, x)
  }

  ghost predicate TiedPair(cs: multiset<Candidate>, b: Candidate, c: Candidate) {
    Foremost(b, cs) && c in cs - multiset{b} && c.score == b.score
  }

  /** Two undated candidates share the best score and no dated one has it. */
  ghost predicate UndatedTie(cs: multiset<Candidate>) { exists b, c :: TiedPair(cs, b, c) }

  lemma SplitFirst(sorted: seq<Candidate>, ms: multiset<Candidate>)
    requires sorted != [] && multiset(sorted) == ms
    ensures ms - multiset{sorted[0]} == multiset(sorted[1..])
  {
    assert sorted == [sorted[0]] + sorted[1..];
  }

  lemma OrderedHead(sorted: seq<Candidate>, c: Candidate)
    requires InOrder(sorted) && sorted != []
    ensures c in multiset(sorted) ==> !Before(c, sorted[0])
    ensures |sorted| > 1 && c in multiset(sorted[1..]) ==> !Before(c, sorted[1])
  {
    if c in multiset(sorted) {
      var i :| 0 <= i < |sorted| && sorted[i] == c;
      assert i > 0 ==> !Before(sorted[i], sorted[0]);
      assert !Before(c, c);
    }
    if |sorted| > 1 && c in multiset(sorted[1..]) {
      var i :| 0 <= i < |sorted[1..]| && sorted[1..][i] == c;
      assert i > 0 ==> !Before(sorted[i + 1], sorted[1]);
      assert !Before(c, c);
    }
  }

  lemma InfiniteHeadTie(sorted: seq<Candidate>, c: Candidate)
    requires InOrder(sorted) && sorted != [] && sorted[0].age.Infinite?
    requires c in multiset(sorted[1..]) && c.score == sorted[0].score
    ensures UndatedTie(multiset(sorted))
  {
    var b := sorted[0];
    forall x | x in multiset(sorted) ensures !Before(x, b) { OrderedHead(sorted, x); }
    SplitFirst(sorted, multiset(sorted));
    assert TiedPair(multiset(sorted), b, c);
  }

  lemma HeadIsClear(sorted: seq<Candidate>, b: Candidate)
    requires InOrder(sorted) && !UndatedTie(multiset(sorted)) && Decide(sorted) == Some(b)
    ensures b in multiset(sorted) && ClearOf(b, multiset(sorted) - multiset{b})
  {
    SplitFirst(sorted, multiset(sorted));
    forall c | c in multiset(sorted[1..]) ensures Clear(b, c) {
      OrderedHead(sorted, c);
      if b.age.Infinite? && c.score == b.score { InfiniteHeadTie(sorted, c); }
    }
  }

  lemma ClearIsHead(sorted: seq<Candidate>, b: Candidate)
    requires InOrder(sorted) && b in multiset(sorted) && ClearOf(b, multiset(sorted) - multiset{b})
    ensures Decide(sorted) == Some(b)
  {
    OrderedHead(sorted, b);
    var head := sorted[0];
    assert head in multiset(sorted);
    assert head == b || head in multiset(sorted) - multiset{b};
    SplitFirst(sorted, multiset(sorted));
    if |sorted| > 1 { assert sorted[1] == sorted[1..][0] && sorted[1] in multiset(sorted[1..]); }
  }

  /** Never guesses: without an undated tie, a chosen candidate stands clear of every other one, and a
      candidate that stands clear of every other one is chosen. */
  lemma ChoiceIsClear(cs: seq<Candidate>, b: Candidate)
    requires !UndatedTie(multiset(cs))
    ensures Choose(cs) == Some(b) <==> b in multiset(cs) && ClearOf(b, multiset(cs) - multiset{b})
  {
    SortSorts(cs);
    if Choose(cs) == Some(b) { HeadIsClear(Sorted(cs), b); }
    if b in multiset(cs) && ClearOf(b, multiset(cs) - multiset{b}) { ClearIsHead(Sorted(cs), b); }
  }

  lemma TiedHead(sorted: seq<Candidate>, b: Candidate, c: Candidate) returns (rival: Candidate)
    requires InOrder(sorted) && TiedPair(multiset(sorted), b, c)
    ensures sorted != [] && sorted[0].score == b.score && sorted[0].age.Infinite?
    ensures rival in multiset(sorted) - multiset{sorted[0]} && rival.score == b.score
  {
    assert sorted != [];
    var head := sorted[0];
    assert head in multiset(sorted);
    OrderedHead(sorted, b);
    rival := if head == b then c else b;
  }

  /** With an undated tie the code still returns one of them, and which one depends on the order of the
      draft list: the comment "require at least a full day of separation" does not hold there. */
  lemma UndatedTieGuesses(cs: seq<Candidate>)
    requires UndatedTie(multiset(cs))
    ensures Choose(cs).Some? && Choose(cs).value.age.Infinite?
    ensures !ClearOf(Choose(cs).value, multiset(cs) - multiset{Choose(cs).value})
  {
    SortSorts(cs);
    var sorted := Sorted(cs);
    var b, c :| TiedPair(multiset(cs), b, c);
    var rival := TiedHead(sorted, b, c);
    assert Decide(sorted) == Some(sorted[0]);
    assert !Clear(sorted[0], rival);
  }

  /** Main result: a choice stands clear of every other candidate, for every draft list, exactly when
      the list has no undated tie. */
  lemma NeverGuessesExactly(cs: seq<Candidate>)
    ensures (Choose(cs).Some? ==> ClearOf(Choose(cs).value, multiset(cs) - multiset{Choose(cs).value}))
            <==> !UndatedTie(multiset(cs))
  {
    if UndatedTie(multiset(cs)) {
      UndatedTieGuesses(cs);
    } else if Choose(cs).Some? {
      ChoiceIsClear(cs, Choose(cs).value);
    }
  }

  // ---- The whole match -------------------------------------------------------------------------

  predicate Referenced(r: Record, d: Draft) {
    LStrip(d.orderNumber) == LStrip(r.reference) || d.externalOrderId == r.reference
  }

  function LStrip(s: string): string { if s != "" && s[0] == '#' then LStrip(s[1..]) else s }

  function ReferencedBy(r: Record, drafts: seq<Draft>): seq<Draft> {
    if drafts == [] then []
    else (if Referenced(r, drafts[0]) then [drafts[0]] else []) + ReferencedBy(r, drafts[1..])
  }

  datatype Outcome = ByReference(draft: Draft) | ByScore(candidate: Candidate) | NoMatch

  /** A reference naming exactly one draft decides; anything else falls through to scoring. */
  function Match(r: Record, drafts: seq<Draft>, event: int): Outcome {
    var referenced := if r.reference != "" then ReferencedBy(r, drafts) else [];
    if |referenced| == 1 then ByReference(referenced[0])
    else match Choose(Candidates(r.who, drafts, event))
      case Some(c) => ByScore(c)
      case None => NoMatch
  }

  /** The candidate and reference lists as the code builds them, one draft at a time. */
  method CollectReferenced(r: Record, drafts: seq<Draft>) returns (referenced: seq<Draft>)
    ensures referenced == ReferencedBy(r, drafts)
  {
    referenced := [];
    for i := 0 to |drafts|
      invariant referenced + ReferencedBy(r, drafts[i..]) == ReferencedBy(r, drafts)
    {
      assert drafts[i..][0] == drafts[i] && drafts[i..][1..] == drafts[i + 1..];
      if Referenced(r, drafts[i]) {
        referenced := referenced + [drafts[i]];
      }
    }
  }

  lemma CandidatesStep(out: seq<Candidate>, who: Identity, drafts: seq<Draft>, event: int)
    requires drafts != []
    ensures out + Candidates(who, drafts, event) ==
            (match CandidateOf(who, drafts[0], event) case Some(c) => out + [c] case None => out)
            + Candidates(who, drafts[1..], event)
  {
    var rest := Candidates(who, drafts[1..], event);
    if CandidateOf(who, drafts[0], event).Some? {
      var c := CandidateOf(who, drafts[0], event).value;
      assert out + ([c] + rest) == (out + [c]) + rest;
    }
  }

  method CollectCandidates(who: Identity, drafts: seq<Draft>, event: int) returns (candidates: seq<Candidate>)
    ensures candidates == Candidates(who, drafts, event)
  {
    candidates := [];
    for i := 0 to |drafts|
      invariant candidates + Candidates(who, drafts[i..], event) == Candidates(who, drafts, event)
    {
      CandidatesStep(candidates, who, drafts[i..], event);
      assert drafts[i..][0] == drafts[i] && drafts[i..][1..] == drafts[i + 1..];
      var c := CandidateOf(who, drafts[i], event);
      if c.Some? {
        candidates := candidates + [c.value];
      }
    }
  }

  method MatchProviderToDraft(r: Record, drafts: seq<Draft>, event: int) returns (outcome: Outcome)
    ensures outcome == Match(r, drafts, event)
  {
    if r.reference != "" {
      var referenced := CollectReferenced(r, drafts);
      if |referenced| == 1 {
        return ByReference(referenced[0]);
      }
    }
    var candidates := CollectCandidates(r.who, drafts, event);
    if candidates == [] {
      return NoMatch;
    }
    SortSorts(candidates);
    var sorted := Sorted(candidates);
    var best := sorted[0];
    if |sorted| > 1 {
      var second := sorted[1];
      if best.score == second.score && TooClose(second.age, best.age) {
        return NoMatch;
      }
    }
    outcome := ByScore(best);
  }

  function Found(c: Option<Candidate>): multiset<Candidate> { if c.Some? then multiset{c.value} else multiset{} }

  function NamedBy(r: Record, d: Draft): multiset<Draft> { if Referenced(r, d) then multiset{d} else multiset{} }

  function Without(drafts: seq<Draft>, k: nat): seq<Draft>
    requires k < |drafts|
  {
    drafts[..k] + drafts[k + 1..]
  }

  lemma WithoutLater(drafts: seq<Draft>, k: nat)
    requires 0 < k < |drafts|
    ensures Without(drafts, k) != [] && Without(drafts, k)[0] == drafts[0]
    ensures Without(drafts, k)[1..] == Without(drafts[1..], k - 1) && drafts[1..][k - 1] == drafts[k]
  {
  }

  /** Removing one draft from anywhere in the list takes exactly its own contribution away. */
  lemma {:induction false} CandidateContribution(who: Identity, drafts: seq<Draft>, event: int, k: nat)
    requires k < |drafts|
    ensures multiset(Candidates(who, drafts, event)) ==
            multiset(Candidates(who, Without(drafts, k), event)) + Found(CandidateOf(who, drafts[k], event))
  {
    if k == 0 {
      assert Without(drafts, 0) == drafts[1..];
    } else {
      WithoutLater(drafts, k);
      CandidateContribution(who, drafts[1..], event, k - 1);
    }
  }

  lemma {:induction false} ReferenceContribution(r: Record, drafts: seq<Draft>, k: nat)
    requires k < |drafts|
    ensures multiset(ReferencedBy(r, drafts)) == multiset(ReferencedBy(r, Without(drafts, k))) + NamedBy(r, drafts[k])
  {
    if k == 0 {
      assert Without(drafts, 0) == drafts[1..];
    } else {
      WithoutLater(drafts, k);
      ReferenceContribution(r, drafts[1..], k - 1);
    }
  }

  lemma WithoutBag(b: seq<Draft>, k: nat)
    requires k < |b|
    ensures multiset(b) == multiset(Without(b, k)) + multiset{b[k]}
  {
    assert b == b[..k] + [b[k]] + b[k + 1..];
  }

  lemma MoveToFront(a: seq<Draft>, b: seq<Draft>) returns (k: nat)
    requires multiset(a) == multiset(b) && a != []
    ensures k < |b| && b[k] == a[0] && multiset(a[1..]) == multiset(Without(b, k))
  {
    assert a[0] in multiset(b);
    k :| 0 <= k < |b| && b[k] == a[0];
    WithoutBag(b, k);
    WithoutBag(a, 0);
    assert Without(a, 0) == a[1..];
    assert multiset(a[1..]) == multiset(a) - multiset{a[0]} == multiset(Without(b, k));
  }

  /** Permuted draft lists give the same candidates and the same references. */
  lemma {:induction false} PermutationsAgree(r: Record, a: seq<Draft>, b: seq<Draft>, event: int)
    requires multiset(a) == multiset(b)
    ensures multiset(Candidates(r.who, a, event)) == multiset(Candidates(r.who, b, event))
    ensures multiset(ReferencedBy(r, a)) == multiset(ReferencedBy(r, b))
    decreases |a|
  {
    if a == [] {
      assert |multiset(b)| == 0;
    } else {
      var k := MoveToFront(a, b);
      PermutationsAgree(r, a[1..], Without(b, k), event);
      assert Without(a, 0) == a[1..];
      CandidateContribution(r.who, b, event, k);
      CandidateContribution(r.who, a, event, 0);
      ReferenceContribution(r, b, k);
      ReferenceContribution(r, a, 0);
    }
  }

  lemma SingletonBag<T>(a: seq<T>, b: seq<T>)
    requires multiset(a) == multiset(b) && |a| == 1
    ensures a == b
  {
    assert |multiset(b)| == 1;
    assert a[0] in multiset(b);
  }

  // ---- Order dependence, exactly -------------------------------------------------------------------

  /** Two different undated candidates, neither of them - nor anything - before the other. */
  ghost predicate TwoTied(cs: multiset<Candidate>) {
    exists x, y :: Foremost(x, cs) && Foremost(y, cs) && x != y
  }

  predicate NamesOne(r: Record, drafts: seq<Draft>) {
    r.reference != "" && |ReferencedBy(r, drafts)| == 1
  }

  /** A foremost candidate that is listed first is chosen. */
  lemma FirstIsChosen(x: Candidate, rest: seq<Candidate>)
    requires Foremost(x, multiset([x] + rest))
    ensures Choose([x] + rest) == Some(x)
  {
    var cs := [x] + rest;
    assert cs[1..] == rest;
    SortSorts(rest);
    var sorted := Sorted(rest);
    if sorted != [] {
      assert sorted[0] in multiset(sorted);
      assert sorted[0] in multiset(cs);
    }
    assert Sorted(cs) == [x] + sorted;
  }

  lemma {:induction false} CandidateOrigin(who: Identity, drafts: seq<Draft>, event: int, x: Candidate)
    returns (k: nat)
    requires x in Candidates(who, drafts, event)
    ensures k < |drafts| && CandidateOf(who, drafts[k], event) == Some(x)
  {
    if CandidateOf(who, drafts[0], event) == Some(x) {
      k := 0;
    } else {
      k := CandidateOrigin(who, drafts[1..], event, x);
      k := k + 1;
    }
  }

  /** The drafts in another order, with a foremost one first, give that one. */
  lemma SomeOrderPicks(r: Record, a: seq<Draft>, event: int, x: Candidate) returns (b: seq<Draft>)
    requires Foremost(x, multiset(Candidates(r.who, a, event))) && !NamesOne(r, a)
    ensures multiset(b) == multiset(a) && Match(r, b, event) == ByScore(x)
  {
    var k := CandidateOrigin(r.who, a, event, x);
    b := [a[k]] + Without(a, k);
    WithoutBag(a, k);
    PermutationsAgree(r, a, b, event);
    SameCount(ReferencedBy(r, a), ReferencedBy(r, b));
    var rest := Candidates(r.who, Without(a, k), event);
    assert b[1..] == Without(a, k);
    assert Candidates(r.who, b, event) == [x] + rest;
    FirstIsChosen(x, rest);
  }

  lemma SameCount<T>(a: seq<T>, b: seq<T>)
    requires multiset(a) == multiset(b)
    ensures |a| == |b|
  {
    assert |a| == |multiset(a)| && |b| == |multiset(b)|;
  }

  /** What scoring returns under an undated tie is one of the foremost candidates. */
  lemma TiedChoiceIsForemost(cs: seq<Candidate>)
    requires UndatedTie(multiset(cs))
    ensures Choose(cs).Some? && Foremost(Choose(cs).value, multiset(cs))
  {
    UndatedTieGuesses(cs);
    SortSorts(cs);
    var head := Sorted(cs)[0];
    assert head in multiset(Sorted(cs));
    forall c | c in multiset(cs) ensures !Before(c, head) { OrderedHead(Sorted(cs), c); }
  }

  lemma SameChoice(a: seq<Candidate>, b: seq<Candidate>)
    requires multiset(a) == multiset(b) && !TwoTied(multiset(a))
    ensures Choose(a) == Choose(b)
  {
    if UndatedTie(multiset(a)) {
      TiedChoiceIsForemost(a);
      TiedChoiceIsForemost(b);
    } else {
      if Choose(a).Some? {
        ChoiceIsClear(a, Choose(a).value);
        ChoiceIsClear(b, Choose(a).value);
      } else if Choose(b).Some? {
        ChoiceIsClear(b, Choose(b).value);
        ChoiceIsClear(a, Choose(b).value);
      }
    }
  }

  /** Main result: the answer does not depend on the order of the draft list, when the reference decides or
      no two different undated candidates are tied. */
  lemma OrderIndependent(r: Record, a: seq<Draft>, b: seq<Draft>, event: int)
    requires multiset(a) == multiset(b)
    requires NamesOne(r, a) || !TwoTied(multiset(Candidates(r.who, a, event)))
    ensures Match(r, a, event) == Match(r, b, event)
  {
    PermutationsAgree(r, a, b, event);
    SameCount(ReferencedBy(r, a), ReferencedBy(r, b));
    if NamesOne(r, a) {
      SingletonBag(ReferencedBy(r, a), ReferencedBy(r, b));
    } else {
      SameChoice(Candidates(r.who, a, event), Candidates(r.who, b, event));
    }
  }

  /** With two different ones tied, the order decides: two arrangements of the same drafts, two answers. */
  lemma TwoTiedDependOnOrder(r: Record, a: seq<Draft>, event: int) returns (b: seq<Draft>, c: seq<Draft>)
    requires !NamesOne(r, a) && TwoTied(multiset(Candidates(r.who, a, event)))
    ensures multiset(b) == multiset(a) == multiset(c) && Match(r, b, event) != Match(r, c, event)
  {
    var cs := multiset(Candidates(r.who, a, event));
    var x, y :| Foremost(x, cs) && Foremost(y, cs) && x != y;
    b := SomeOrderPicks(r, a, event, x);
    c := SomeOrderPicks(r, a, event, y);
  }

  /** Main result: for every record, list and event, the answer is the same in every order of the list if
      and only if the reference names one draft or no two different undated candidates are tied. */
  lemma OrderMattersExactly(r: Record, a: seq<Draft>, event: int)
    ensures (forall b :: multiset(b) == multiset(a) ==> Match(r, b, event) == Match(r, a, event))
            <==> NamesOne(r, a) || !TwoTied(multiset(Candidates(r.who, a, event)))
  {
    if NamesOne(r, a) || !TwoTied(multiset(Candidates(r.who, a, event))) {
      forall b | multiset(b) == multiset(a) ensures Match(r, b, event) == Match(r, a, event) {
        OrderIndependent(r, a, b, event);
      }
    } else {
      var b, c := TwoTiedDependOnOrder(r, a, event);
    }
  }

  lemma TwoCandidates(who: Identity, x: Draft, y: Draft)
    requires CandidateOf(who, x, 0) == Some(Candidate(15, Infinite, x))
    requires CandidateOf(who, y, 0) == Some(Candidate(15, Infinite, y))
    ensures Match(Record("", who), [x, y], 0) == ByScore(Candidate(15, Infinite, x))
  {
    var cx, cy := Candidate(15, Infinite, x), Candidate(15, Infinite, y);
    assert [x, y][1..] == [y] && [y][1..] == [];
    assert Candidates(who, [y], 0) == [cy];
    assert Candidates(who, [x, y], 0) == [cx, cy];
    assert [cx, cy][1..] == [cy] && [cy][1..] == [];
    assert StableSort.Sorted(Before, []) == [];
    assert Sorted([cy]) == StableSort.Insert(Before, cy, []) == [cy];
    assert Sorted([cx, cy]) == StableSort.Insert(Before, cx, [cy]) == [cx, cy];
  }

  /** The smallest instance: two undated drafts of one customer, listed both ways round. */
  lemma UndatedTieDependsOnOrder()
    ensures var who := Identity("a@b.pl", "600700800", "", "", "", "");
            var x, y := Draft(1, "", "", None, who), Draft(2, "", "", None, who);
            Match(Record("", who), [x, y], 0) != Match(Record("", who), [y, x], 0)
  {
    var who := Identity("a@b.pl", "600700800", "", "", "", "");
    var x, y := Draft(1, "", "", None, who), Draft(2, "", "", None, who);
    var fields := Matched(who, who);
    assert fields == [(8, true), (7, true)];
    assert fields[0].1 && fields[1..] == [(7, true)] && fields[1..][1..] == [];
    assert Weight([(7, true)]) == 7;
    assert Weight(fields) == 15;
    forall d | d in {x, y} ensures CandidateOf(who, d, 0) == Some(Candidate(15, Infinite, d)) {}
    TwoCandidates(who, x, y);
    TwoCandidates(who, y, x);
  }

  // ---- The whole match, in terms of the drafts ------------------------------------------------------

  lemma {:induction false} CandidateBag(who: Identity, drafts: seq<Draft>, event: int, c: Candidate)
    ensures multiset(Candidates(who, drafts, event))[c] ==
            if CandidateOf(who, c.draft, event) == Some(c) then multiset(drafts)[c.draft] else 0
  {
    if drafts == [] {
    } else {
      CandidateBag(who, drafts[1..], event, c);
      assert drafts == [drafts[0]] + drafts[1..];
      if CandidateOf(who, drafts[0], event).Some? { CandidateMeans(who, drafts[0], event); }
    }
  }

  /** `b` beats `d`: more weight, or as much and nearer to the event by a day at least. */
  predicate Ahead(who: Identity, event: int, b: Draft, d: Draft) {
    || Score(who, b.who) > Score(who, d.who)
    || (Score(who, b.who) == Score(who, d.who) && b.orderTime.Some?
        && (d.orderTime.None?
            || Abs(event - d.orderTime.value) - Abs(event - b.orderTime.value) >= 86_400_000_000))
  }

  /** Two eligible undated entries of the list with the same weight, which no eligible draft exceeds and no
      dated one reaches. */
  ghost predicate UndatedRivals(who: Identity, drafts: multiset<Draft>, event: int) {
    exists x, y :: RivalPair(who, drafts, event, x, y)
  }

  ghost predicate RivalPair(who: Identity, drafts: multiset<Draft>, event: int, x: Draft, y: Draft) {
    UndatedBest(who, drafts, event, x) && y in drafts - multiset{x}
    && Eligible(who, y, event) && Score(who, y.who) == Score(who, x.who)
  }

  ghost predicate UndatedBest(who: Identity, drafts: multiset<Draft>, event: int, x: Draft) {
    && x in drafts && Eligible(who, x, event) && x.orderTime.None?
    && forall d :: d in drafts && Eligible(who, d, event) ==>
         Score(who, d.who) < Score(who, x.who) || (Score(who, d.who) == Score(who, x.who) && d.orderTime.None?)
  }

  /** The candidate of an eligible draft. */
  function Cand(who: Identity, d: Draft, event: int): (c: Candidate)
    requires Eligible(who, d, event)
    ensures c.draft == d
  {
    AcceptanceRule(who, d, event);
    CandidateMeans(who, d, event);
    CandidateOf(who, d, event).value
  }

  lemma InBags(who: Identity, drafts: seq<Draft>, event: int, c: Candidate, b: Candidate)
    ensures var cs := multiset(Candidates(who, drafts, event));
            && (c in cs <==> c.draft in multiset(drafts) && CandidateOf(who, c.draft, event) == Some(c))
            && (b in cs ==>
                  (c in cs - multiset{b} <==>
                   c.draft in multiset(drafts) - multiset{b.draft} && CandidateOf(who, c.draft, event) == Some(c)))
  {
    CandidateBag(who, drafts, event, c);
    CandidateBag(who, drafts, event, b);
  }

  lemma ClearIsAhead(who: Identity, event: int, b: Draft, d: Draft)
    requires Eligible(who, b, event) && Eligible(who, d, event)
    ensures Clear(Cand(who, b, event), Cand(who, d, event)) <==> Ahead(who, event, b, d)
    ensures Before(Cand(who, d, event), Cand(who, b, event)) <==>
            Score(who, d.who) > Score(who, b.who)
            || (Score(who, d.who) == Score(who, b.who) && d.orderTime.Some?
                && (b.orderTime.None? || Abs(event - d.orderTime.value) < Abs(event - b.orderTime.value)))
  {
    AcceptanceRule(who, b, event);
    AcceptanceRule(who, d, event);
    CandidateMeans(who, b, event);
    CandidateMeans(who, d, event);
  }

  /** What stands clear among the candidates is what is ahead among the drafts. */
  lemma ClearOfIsAhead(who: Identity, drafts: seq<Draft>, event: int, b: Draft)
    requires b in multiset(drafts) && Eligible(who, b, event)
    ensures Cand(who, b, event) in multiset(Candidates(who, drafts, event))
    ensures ClearOf(Cand(who, b, event), multiset(Candidates(who, drafts, event)) - multiset{Cand(who, b, event)})
            <==> forall d :: d in multiset(drafts) - multiset{b} && Eligible(who, d, event) ==> Ahead(who, event, b, d)
  {
    var cs, cb := multiset(Candidates(who, drafts, event)), Cand(who, b, event);
    AcceptanceRule(who, b, event);
    InBags(who, drafts, event, cb, cb);
    if ClearOf(cb, cs - multiset{cb}) {
      forall d | d in multiset(drafts) - multiset{b} && Eligible(who, d, event) ensures Ahead(who, event, b, d) {
        AcceptanceRule(who, d, event);
        InBags(who, drafts, event, Cand(who, d, event), cb);
        ClearIsAhead(who, event, b, d);
      }
    }
    if forall d :: d in multiset(drafts) - multiset{b} && Eligible(who, d, event) ==> Ahead(who, event, b, d) {
      forall c | c in cs - multiset{cb} ensures Clear(cb, c) {
        InBags(who, drafts, event, c, cb);
        AcceptanceRule(who, c.draft, event);
        ClearIsAhead(who, event, b, c.draft);
      }
    }
  }

  lemma BestIsBest(who: Identity, drafts: seq<Draft>, event: int, x: Draft)
    requires x in multiset(drafts) && Eligible(who, x, event)
    ensures Foremost(Cand(who, x, event), multiset(Candidates(who, drafts, event)))
            <==> UndatedBest(who, multiset(drafts), event, x)
  {
    var cs, cx := multiset(Candidates(who, drafts, event)), Cand(who, x, event);
    AcceptanceRule(who, x, event);
    CandidateMeans(who, x, event);
    InBags(who, drafts, event, cx, cx);
    if Foremost(cx, cs) {
      forall d | d in multiset(drafts) && Eligible(who, d, event)
        ensures Score(who, d.who) < Score(who, x.who) || (Score(who, d.who) == Score(who, x.who) && d.orderTime.None?)
      {
        AcceptanceRule(who, d, event);
        InBags(who, drafts, event, Cand(who, d, event), cx);
        ClearIsAhead(who, event, x, d);
      }
    }
    if UndatedBest(who, multiset(drafts), event, x) {
      forall c | c in cs ensures !Before(c, cx) {
        InBags(who, drafts, event, c, cx);
        AcceptanceRule(who, c.draft, event);
        ClearIsAhead(who, event, x, c.draft);
      }
    }
  }

  lemma RivalsTie(who: Identity, drafts: seq<Draft>, event: int, x: Draft, y: Draft)
    requires RivalPair(who, multiset(drafts), event, x, y)
    ensures TiedPair(multiset(Candidates(who, drafts, event)), Cand(who, x, event), Cand(who, y, event))
  {
    BestIsBest(who, drafts, event, x);
    AcceptanceRule(who, x, event);
    AcceptanceRule(who, y, event);
    CandidateMeans(who, x, event);
    CandidateMeans(who, y, event);
    InBags(who, drafts, event, Cand(who, x, event), Cand(who, x, event));
    InBags(who, drafts, event, Cand(who, y, event), Cand(who, x, event));
  }

  lemma TieRivals(who: Identity, drafts: seq<Draft>, event: int, b: Candidate, c: Candidate)
    requires TiedPair(multiset(Candidates(who, drafts, event)), b, c)
    ensures RivalPair(who, multiset(drafts), event, b.draft, c.draft)
  {
    InBags(who, drafts, event, c, b);
    InBags(who, drafts, event, b, b);
    AcceptanceRule(who, b.draft, event);
    AcceptanceRule(who, c.draft, event);
    CandidateMeans(who, b.draft, event);
    CandidateMeans(who, c.draft, event);
    BestIsBest(who, drafts, event, b.draft);
  }

  /** A tie among the candidates is a pair of undated rivals among the drafts. */
  lemma TieIsRivals(who: Identity, drafts: seq<Draft>, event: int)
    ensures UndatedTie(multiset(Candidates(who, drafts, event))) <==> UndatedRivals(who, multiset(drafts), event)
  {
    if UndatedTie(multiset(Candidates(who, drafts, event))) {
      var b, c :| TiedPair(multiset(Candidates(who, drafts, event)), b, c);
      TieRivals(who, drafts, event, b, c);
    }
    if UndatedRivals(who, multiset(drafts), event) {
      var x, y :| RivalPair(who, multiset(drafts), event, x, y);
      RivalsTie(who, drafts, event, x, y);
    }
  }

  lemma ChosenIsAhead(who: Identity, drafts: seq<Draft>, event: int, c: Candidate)
    requires !UndatedTie(multiset(Candidates(who, drafts, event)))
    requires Choose(Candidates(who, drafts, event)) == Some(c)
    ensures c.draft in multiset(drafts) && Eligible(who, c.draft, event)
    ensures forall d :: d in multiset(drafts) - multiset{c.draft} && Eligible(who, d, event)
              ==> Ahead(who, event, c.draft, d)
  {
    ChoiceIsClear(Candidates(who, drafts, event), c);
    InBags(who, drafts, event, c, c);
    AcceptanceRule(who, c.draft, event);
    ClearOfIsAhead(who, drafts, event, c.draft);
  }

  lemma AheadIsChosen(who: Identity, drafts: seq<Draft>, event: int, b: Draft)
    requires !UndatedTie(multiset(Candidates(who, drafts, event)))
    requires b in multiset(drafts) && Eligible(who, b, event)
    requires forall d :: d in multiset(drafts) - multiset{b} && Eligible(who, d, event) ==> Ahead(who, event, b, d)
    ensures Choose(Candidates(who, drafts, event)) == Some(Cand(who, b, event))
  {
    ClearOfIsAhead(who, drafts, event, b);
    ChoiceIsClear(Candidates(who, drafts, event), Cand(who, b, event));
  }

  /** Main result on the match, in terms of agreeing fields and order times alone. Where no reference decides
      and no undated rivals are listed, a draft is matched if and only if it is eligible and ahead of every
      other eligible entry of the list. */
  lemma ScoredMatchExactly(r: Record, drafts: seq<Draft>, event: int, b: Draft)
    requires !NamesOne(r, drafts) && !UndatedRivals(r.who, multiset(drafts), event)
    ensures (Match(r, drafts, event).ByScore? && Match(r, drafts, event).candidate.draft == b)
            <==> b in multiset(drafts) && Eligible(r.who, b, event)
                 && forall d :: d in multiset(drafts) - multiset{b} && Eligible(r.who, d, event)
                      ==> Ahead(r.who, event, b, d)
  {
    TieIsRivals(r.who, drafts, event);
    var m := Match(r, drafts, event);
    if m.ByScore? && m.candidate.draft == b {
      ChosenIsAhead(r.who, drafts, event, m.candidate);
    }
    if b in multiset(drafts) && Eligible(r.who, b, event)
       && forall d :: d in multiset(drafts) - multiset{b} && Eligible(r.who, d, event) ==> Ahead(r.who, event, b, d)
    {
      AheadIsChosen(r.who, drafts, event, b);
    }
  }

  /** What the reference names: the order number without leading hash signs, or the external id verbatim. */
  lemma {:induction false} HashesOnly(s: string) returns (k: nat)
    ensures k <= |s| && (forall i :: 0 <= i < k ==> s[i] == '#')
    ensures LStrip(s) == s[k..] && (k < |s| ==> s[k] != '#')
  {
    if s == "" || s[0] != '#' {
      k := 0;
    } else {
      k := HashesOnly(s[1..]);
      k := k + 1;
    }
  }

  lemma {:induction false} ReferenceBag(r: Record, drafts: seq<Draft>, d: Draft)
    ensures multiset(ReferencedBy(r, drafts))[d] == if Referenced(r, d) then multiset(drafts)[d] else 0
  {
    if drafts == [] {
    } else {
      ReferenceBag(r, drafts[1..], d);
      assert drafts == [drafts[0]] + drafts[1..];
    }
  }

  predicate Named(r: Record, d: Draft) {
    d.externalOrderId == r.reference || LStrip(d.orderNumber) == LStrip(r.reference)
  }

  /** The reference decides if and only if it names exactly one entry of the list, and then for that one. */
  lemma ReferenceMatchExactly(r: Record, drafts: seq<Draft>, event: int, b: Draft)
    ensures Match(r, drafts, event) == ByReference(b)
            <==> r.reference != "" && b in multiset(drafts) && Named(r, b)
                 && forall d :: d in multiset(drafts) - multiset{b} ==> !Named(r, d)
  {
    var named := ReferencedBy(r, drafts);
    forall d ensures multiset(named)[d] == if Named(r, d) then multiset(drafts)[d] else 0 {
      ReferenceBag(r, drafts, d);
    }
    if Match(r, drafts, event) == ByReference(b) {
      assert named == [b] && multiset(named) == multiset{b};
      forall d | d in multiset(drafts) - multiset{b} ensures !Named(r, d) {
        assert multiset(named)[d] == if d == b then 1 else 0;
      }
    }
    if r.reference != "" && b in multiset(drafts) && Named(r, b)
       && forall d :: d in multiset(drafts) - multiset{b} ==> !Named(r, d)
    {
      assert multiset(drafts)[b] == 1;
      assert multiset(named) == multiset{b};
      assert |named| == |multiset(named)| && b in multiset(named);
    }
  }
}
