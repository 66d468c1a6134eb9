/**
 Shipping drafts in the locked local form (zdrovena/common/shipping_store.py), with the claim guard of
 zdrovena/common/shipping_state.py, and the law behind its write-time deduplication: one live draft per
 external order.
 */
module ShippingStores {
  import opened Prelude

  /** A stored column: absent, Python None, or a text. */
  datatype Field = Missing | Null | Text(s: string)

  datatype Draft = Draft(
    id: string,
    source: Field,
    externalOrderId: Field,
    shopifyOrderId: Field,
    isReplacement: bool,
    status: Option<string>,
    pickupOrdered: bool,
    executionStartedAt: Field,
    rest: map<string, string>)

  predicate Truthy(f: Field) { f.Text? && f.s != "" }

  /** str(record.get(key, "")): an absent column reads "", but a stored None reads "None". */
  function Str(f: Field): string {
    match f case Missing => "" case Null => "None" case Text(s) => s
  }

  const EXECUTING := "executing"
  const EXECUTABLE_STATES: set<string> := {"pending", "pending_confirmation", "error"}

  predicate CanExecute(status: Option<string>) { status.Some? && status.value in EXECUTABLE_STATES }

  function ExecutionClaimed(d: Draft, now: string): Draft {
    d.(status := Some(EXECUTING),
       executionStartedAt := if Truthy(d.executionStartedAt) then d.executionStartedAt else Text(now))
  }

  type Drafts = map<string, Draft>

  /** `existing` is the same external order as the record being written, as the local branch sees it. */
  predicate SameOrder(record: Draft, existing: Draft) {
    (Truthy(record.source) && Truthy(record.externalOrderId)
     && existing.source == record.source && Str(existing.externalOrderId) == Str(record.externalOrderId))
    || (Truthy(record.shopifyOrderId) && existing.shopifyOrderId == record.shopifyOrderId)
  }

  predicate Superseded(record: Draft, existingId: string, existing: Draft) {
    !record.isReplacement && existingId != record.id && !existing.isReplacement && SameOrder(record, existing)
  }

  function Upserted(drafts: Drafts, record: Draft): Drafts {
    (map id | id in drafts && !Superseded(record, id, drafts[id]) :: drafts[id])[record.id := record]
  }

  class ShippingStore {
    var drafts: Drafts

    method LocalDuplicateIds(record: Draft) returns (ids: set<string>)
      ensures ids == set id | id in drafts && Superseded(record, id, drafts[id])
    {
      ids := {};
      if record.isReplacement {
        return;
      }
      var rest := drafts.Keys;
      while rest != {}
        invariant rest <= drafts.Keys
        invariant ids == set id | id in drafts && id !in rest && Superseded(record, id, drafts[id])
        decreases |rest|
      {
        var id :| id in rest;
        if id != record.id && !drafts[id].isReplacement && SameOrder(record, drafts[id]) {
          ids := ids + {id};
        }
        rest := rest - {id};
      }
    }

    method UpsertDraft(record: Draft)
      modifies this
      ensures drafts == Upserted(old(drafts), record)
    {
      var duplicates := LocalDuplicateIds(record);
      var before := drafts;
      var data := drafts;
      while duplicates != {}
        invariant data == before - ((set id | id in before && Superseded(record, id, before[id])) - duplicates)
        invariant duplicates <= set id | id in before && Superseded(record, id, before[id])
        decreases |duplicates|
      {
        var id :| id in duplicates;
        data := data - {id};
        duplicates := duplicates - {id};
      }
      drafts := data[record.id := record];
    }

    method UpdateDraft(id: string, merge: Draft -> Draft) returns (found: bool)
      modifies this
      ensures found <==> id in old(drafts)
      ensures drafts == if found then old(drafts)[id := merge(old(drafts)[id])] else old(drafts)
    {
      found := id in drafts;
      if found {
        drafts := drafts[id := merge(drafts[id])];
      }
    }

    method DeleteDraft(id: string)
      modifies this
      ensures drafts == old(drafts) - {id}
    {
      drafts := drafts - {id};
    }

    /** Won exactly when the draft is there in an executable state; a lost claim writes nothing. */
    method TryClaimExecution(id: string, now: string) returns (won: bool)
      modifies this
      ensures won <==> id in old(drafts)
                       && old(drafts)[id].status in [Some("pending"), Some("pending_confirmation"), Some("error")]
      ensures won ==> id in drafts && drafts[id].status == Some("executing")
                      && drafts[id].executionStartedAt == if Truthy(old(drafts)[id].executionStartedAt)
                                                          then old(drafts)[id].executionStartedAt else Text(now)
      ensures drafts == if won then old(drafts)[id := ExecutionClaimed(old(drafts)[id], now)] else old(drafts)
      ensures won ==> !CanExecute(drafts[id].status)
    {
      if id !in drafts || !CanExecute(drafts[id].status) {
        return false;
      }
      var record := drafts[id];
      record := record.(status := Some(EXECUTING));
      if !Truthy(record.executionStartedAt) {
        record := record.(executionStartedAt := Text(now));
      }
      drafts := drafts[id := record];
      won := true;
    }

    method TryClaimPickup(id: string) returns (won: bool)
      modifies this
      ensures won <==> id in old(drafts) && !old(drafts)[id].pickupOrdered
      ensures drafts == if won then old(drafts)[id := old(drafts)[id].(pickupOrdered := true)] else old(drafts)
    {
      if id !in drafts || drafts[id].pickupOrdered {
        return false;
      }
      drafts := drafts[id := drafts[id].(pickupOrdered := true)];
      won := true;
    }
  }

  // ---- One live draft per order --------------------------------------------------------------------

  /** Two drafts carry the same truthy order key. */
  predicate Share(a: Draft, b: Draft) {
    (Truthy(a.source) && a.source == b.source && Truthy(a.externalOrderId) && a.externalOrderId == b.externalOrderId)
    || (Truthy(a.shopifyOrderId) && a.shopifyOrderId == b.shopifyOrderId)
  }

  ghost predicate OneLive(drafts: Drafts) {
    forall i, j :: i in drafts && j in drafts && i != j && !drafts[i].isReplacement && !drafts[j].isReplacement
                   ==> !Share(drafts[i], drafts[j])
  }

  datatype Op =
    | Upsert(record: Draft)
    | Delete(id: string)
    | Update(id: string, merge: Draft -> Draft)
    | ClaimExecution(id: string, now: string)
    | ClaimPickup(id: string)

  function After(drafts: Drafts, op: Op): Drafts {
    match op
    case Upsert(record) => Upserted(drafts, record)
    case Delete(id) => drafts - {id}
    case Update(id, merge) => if id in drafts then drafts[id := merge(drafts[id])] else drafts
    case ClaimExecution(id, now) =>
      if id in drafts && CanExecute(drafts[id].status) then drafts[id := ExecutionClaimed(drafts[id], now)] else drafts
    case ClaimPickup(id) =>
      if id in drafts && !drafts[id].pickupOrdered then drafts[id := drafts[id].(pickupOrdered := true)] else drafts
  }

  function AfterAll(drafts: Drafts, ops: seq<Op>): Drafts
    decreases |ops|
  {
    if ops == [] then drafts else AfterAll(After(drafts, ops[0]), ops[1..])
  }

  /** Operations follow one another. */
  lemma {:induction false} AfterAllConcat(drafts: Drafts, ops: seq<Op>, more: seq<Op>)
    ensures AfterAll(drafts, ops + more) == AfterAll(AfterAll(drafts, ops), more)
    decreases |ops|
  {
    if ops == [] {
      assert ops + more == more;
    } else {
      assert (ops + more)[0] == ops[0] && (ops + more)[1..] == ops[1..] + more;
      AfterAllConcat(After(drafts, ops[0]), ops[1..], more);
    }
  }

  lemma AfterAllOne(drafts: Drafts, record: Draft, id: string, now: string)
    ensures AfterAll(drafts, [Upsert(record)]) == Upserted(drafts, record)
    ensures AfterAll(drafts, [Delete(id)]) == drafts - {id}
    ensures AfterAll(drafts, [ClaimExecution(id, now)]) ==
            if id in drafts && CanExecute(drafts[id].status)
            then drafts[id := ExecutionClaimed(drafts[id], now)] else drafts
    ensures AfterAll(drafts, [ClaimPickup(id)]) ==
            if id in drafts && !drafts[id].pickupOrdered
            then drafts[id := drafts[id].(pickupOrdered := true)] else drafts
  {
    assert [Upsert(record)][1..] == [] && [Delete(id)][1..] == [];
    assert [ClaimExecution(id, now)][1..] == [] && [ClaimPickup(id)][1..] == [];
  }

  predicate SameIdentity(a: Draft, b: Draft) {
    a.source == b.source && a.externalOrderId == b.externalOrderId
    && a.shopifyOrderId == b.shopifyOrderId && a.isReplacement == b.isReplacement
  }

  /** Merge patches leave the order keys and the replacement mark alone. */
  ghost predicate KeepIdentity(ops: seq<Op>) {
    forall i, d :: 0 <= i < |ops| && ops[i].Update? ==> SameIdentity(ops[i].merge(d), d)
  }

  lemma StepKeepsOneLive(drafts: Drafts, op: Op)
    requires OneLive(drafts)
    requires op.Update? ==> forall d :: SameIdentity(op.merge(d), d)
    ensures OneLive(After(drafts, op))
  {
    var after := After(drafts, op);
    forall i, j | i in after && j in after && i != j && !after[i].isReplacement && !after[j].isReplacement
      ensures !Share(after[i], after[j])
    {
      if op.Upsert? {
        if i == op.record.id { assert !Superseded(op.record, j, drafts[j]); }
        if j == op.record.id { assert !Superseded(op.record, i, drafts[i]); }
      } else {
        assert SameIdentity(after[i], drafts[i]) && SameIdentity(after[j], drafts[j]);
      }
    }
  }

  /** Main result: no sequence of upserts, deletes, claims and identity-preserving updates ever leaves
      two live drafts for one external order. */
  lemma {:induction false} OneLiveDraftPerOrder(drafts: Drafts, ops: seq<Op>)
    requires OneLive(drafts) && KeepIdentity(ops)
    ensures OneLive(AfterAll(drafts, ops))
    decreases |ops|
  {
    if ops == [] {
    } else {
      assert forall d :: ops[0].Update? ==> SameIdentity(ops[0].merge(d), d);
      StepKeepsOneLive(drafts, ops[0]);
      forall i, d | 0 <= i < |ops[1..]| && ops[1..][i].Update? ensures SameIdentity(ops[1..][i].merge(d), d) {
        assert ops[1..][i] == ops[i + 1];
      }
      OneLiveDraftPerOrder(After(drafts, ops[0]), ops[1..]);
    }
  }

  /** Deduplication never removes a replacement: it goes only when it is itself deleted or overwritten. */
  lemma {:induction false} ReplacementsSurvive(drafts: Drafts, ops: seq<Op>, id: string)
    requires id in drafts && drafts[id].isReplacement && KeepIdentity(ops)
    requires forall i :: 0 <= i < |ops| ==> ops[i] != Delete(id) && !(ops[i].Upsert? && ops[i].record.id == id)
    ensures id in AfterAll(drafts, ops) && AfterAll(drafts, ops)[id].isReplacement
    ensures SameIdentity(AfterAll(drafts, ops)[id], drafts[id])
    decreases |ops|
  {
    if ops == [] {
    } else {
      var next := After(drafts, ops[0]);
      assert ops[0].Update? ==> SameIdentity(ops[0].merge(drafts[id]), drafts[id]);
      assert id in next && SameIdentity(next[id], drafts[id]);
      forall i, d | 0 <= i < |ops[1..]| && ops[1..][i].Update? ensures SameIdentity(ops[1..][i].merge(d), d) {
        assert ops[1..][i] == ops[i + 1];
      }
      forall i | 0 <= i < |ops[1..]| ensures ops[1..][i] == ops[i + 1] {}
      ReplacementsSurvive(next, ops[1..], id);
    }
  }

  // ---- The table branch ------------------------------------------------------------------------------

  /** What the stored column compares equal to in an equality filter: None is stored as "". */
  predicate ColumnEquals(column: Field, literal: string) {
    match column case Missing => false case Null => literal == "" case Text(s) => s == literal
  }

  /** The two query filters for a record, evaluated by the table on one row. */
  predicate FilteredIn(record: Draft, existing: Draft) {
    (Truthy(record.source) && Truthy(record.externalOrderId)
     && ColumnEquals(existing.source, Str(record.source))
     && ColumnEquals(existing.externalOrderId, Str(record.externalOrderId)))
    || (Truthy(record.shopifyOrderId) && ColumnEquals(existing.shopifyOrderId, Str(record.shopifyOrderId)))
  }

  /** One upsert on the table, all lookups and deletes succeeding. */
  function TableUpserted(drafts: Drafts, record: Draft): Drafts {
    if record.isReplacement then drafts[record.id := record]
    else
      var rows := set id | id in drafts && FilteredIn(record, drafts[id]);
      var deleted := set id | id in rows && id != record.id && !drafts[id].isReplacement;
      (drafts - deleted)[record.id := record]
  }

  /** The one row on which the branches disagree: an order literally called "None" against a row whose
      order id is a stored None. */
  ghost predicate NoneClash(drafts: Drafts, record: Draft, id: string)
    requires id in drafts
  {
    var existing := drafts[id];
    && !record.isReplacement && id != record.id && !existing.isReplacement
    && Truthy(record.source) && existing.source == record.source
    && record.externalOrderId == Text("None") && existing.externalOrderId == Null
    && !(Truthy(record.shopifyOrderId) && existing.shopifyOrderId == record.shopifyOrderId)
  }

  /** The table branch reaches the same map as the local branch exactly when no such row exists. */
  lemma BranchesAgreeExactly(drafts: Drafts, record: Draft)
    ensures TableUpserted(drafts, record) == Upserted(drafts, record)
            <==> forall id :: id in drafts ==> !NoneClash(drafts, record, id)
  {
    var table, locally := TableUpserted(drafts, record), Upserted(drafts, record);
    forall id | id in drafts && id != record.id
      ensures id in locally <==> !Superseded(record, id, drafts[id])
      ensures NoneClash(drafts, record, id) <==> !(id in table <==> id in locally)
    {
      FilterMeaning(record, drafts[id]);
    }
    if forall id :: id in drafts ==> !NoneClash(drafts, record, id) {
      assert forall id :: id in table <==> id in locally;
      assert table == locally;
    } else {
      var id :| id in drafts && NoneClash(drafts, record, id);
      assert !(id in table <==> id in locally);
    }
  }

  lemma FilterMeaning(record: Draft, existing: Draft)
    ensures FilteredIn(record, existing) ==> SameOrder(record, existing)
    ensures SameOrder(record, existing) && !FilteredIn(record, existing) <==>
              Truthy(record.source) && existing.source == record.source
              && record.externalOrderId == Text("None") && existing.externalOrderId == Null
              && !(Truthy(record.shopifyOrderId) && existing.shopifyOrderId == record.shopifyOrderId)
  {
  }

  /** What an upsert removes: live drafts of the same order, told by either key, and in the local branch also
      one whose missing order id is taken for the text "None"; nothing else. */
  lemma UpsertRemovesExactly(drafts: Drafts, record: Draft, id: string)
    requires id in drafts && id != record.id
    ensures id in Upserted(drafts, record) <==>
            record.isReplacement || drafts[id].isReplacement
            || !(Share(record, drafts[id]) || NoneClash(drafts, record, id))
    ensures id in Upserted(drafts, record) ==> Upserted(drafts, record)[id] == drafts[id]
    ensures record.id in Upserted(drafts, record) && Upserted(drafts, record)[record.id] == record
    ensures Upserted(drafts, record).Keys <= drafts.Keys + {record.id}
  {
  }

  /** Either way the result keeps one live draft per order: the disagreement removes too much locally,
      never too little on the table. */
  lemma TableKeepsOneLive(drafts: Drafts, record: Draft)
    requires OneLive(drafts)
    ensures OneLive(TableUpserted(drafts, record))
  {
    var after := TableUpserted(drafts, record);
    forall i, j | i in after && j in after && i != j && !after[i].isReplacement && !after[j].isReplacement
      ensures !Share(after[i], after[j])
    {
      if i == record.id { assert !FilteredIn(record, drafts[j]); }
      if j == record.id { assert !FilteredIn(record, drafts[i]); }
    }
  }
}
