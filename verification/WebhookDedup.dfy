/**
 Webhook delivery deduplication (zdrovena/common/shopify_dedup_store.py): the locked local file, and
 how far apart two winning calls for one id must be. Times are microseconds.
 */
module WebhookDedup {
  import opened Prelude

  /** A stored timestamp text; None when it does not parse. */
  type Stamp = Option<int>

  const TTL: int := 86_400_000_000

  predicate IsExpired(seenAt: Stamp, now: int) {
    seenAt.None? || now - seenAt.value >= TTL
  }

  type Seen = map<string, Stamp>

  function Pruned(seen: Seen, now: int): Seen {
    map id | id in seen && !IsExpired(seen[id], now) :: seen[id]
  }

  /** The id counts as seen at `now`: recorded, and not expired. */
  predicate Live(seen: Seen, id: string, now: int) {
    id in seen && !IsExpired(seen[id], now)
  }

  /** The record is younger than a day: recorded at a time that can be read, less than 24 hours ago. */
  predicate Young(seenAt: Stamp, now: int) { seenAt.Some? && now - seenAt.value < 24 * 3_600_000_000 }

  class DedupStore {
    var seen: Seen

    /** True exactly for a live id; a stale record of this id is dropped, nothing else changes. */
    method IsDuplicate(id: string, now: int) returns (duplicate: bool)
      modifies this
      ensures duplicate <==> id != "" && id in old(seen) && Young(old(seen)[id], now)
      ensures seen == if id != "" && id in old(seen) && !Young(old(seen)[id], now) then old(seen) - {id} else old(seen)
      ensures seen == After(old(seen), Check, id, now)
    {
      if id == "" || id !in seen {
        return false;
      }
      if IsExpired(seen[id], now) {
        seen := seen - {id};
        return false;
      }
      duplicate := true;
    }

    method MarkSeen(id: string, now: int)
      modifies this
      ensures seen == After(old(seen), Mark, id, now)
      ensures id == "" ==> seen == old(seen)
      ensures id != "" ==> id in seen && seen[id] == Some(now)
      ensures forall k :: id != "" && k != id ==> (k in seen <==> k in old(seen) && Young(old(seen)[k], now))
      ensures forall k :: k in seen && k != id ==> k in old(seen) && seen[k] == old(seen)[k]
    {
      if id != "" {
        var data := Pruned(seen, now);
        seen := data[id := Some(now)];
      }
    }

    /** True exactly for the call that records the id; a losing call writes nothing. */
    method MarkSeenIfNew(id: string, now: int) returns (isNew: bool)
      modifies this
      ensures isNew <==> id != "" && !(id in old(seen) && Young(old(seen)[id], now))
      ensures !isNew ==> seen == old(seen)
      ensures isNew ==> id in seen && seen[id] == Some(now)
      ensures forall k :: isNew && k != id ==> (k in seen <==> k in old(seen) && Young(old(seen)[k], now))
      ensures forall k :: k in seen && k != id ==> k in old(seen) && seen[k] == old(seen)[k]
      ensures seen == After(old(seen), MarkIfNew, id, now)
      ensures isNew ==> Live(seen, id, now)
    {
      if id == "" {
        return false;
      }
      if id in seen && !IsExpired(seen[id], now) {
        return false;
      }
      var data := Pruned(seen, now);
      seen := data[id := Some(now)];
      isNew := true;
    }
  }

  datatype Op = Check | Mark | MarkIfNew

  function After(seen: Seen, op: Op, id: string, now: int): Seen {
    if id == "" then seen
    else match op
      case Check => if id in seen && IsExpired(seen[id], now) then seen - {id} else seen
      case Mark => Pruned(seen, now)[id := Some(now)]
      case MarkIfNew => if Live(seen, id, now) then seen else Pruned(seen, now)[id := Some(now)]
  }

  /** One call: the clock it read on entry, and when it got the lock afterwards. */
  datatype Call = Call(op: Op, id: string, now: int, locked: int)

  function SeenAfter(seen: Seen, calls: seq<Call>): Seen {
    if calls == [] then seen
    else
      var last := calls[|calls| - 1];
      After(SeenAfter(seen, calls[..|calls| - 1]), last.op, last.id, last.now)
  }

  predicate Wins(seen: Seen, calls: seq<Call>, k: nat)
    requires k < |calls|
  {
    calls[k].op.MarkIfNew? && calls[k].id != "" && !Live(SeenAfter(seen, calls[..k]), calls[k].id, calls[k].now)
  }

  /** Calls in the order they held the lock, none waiting for it longer than `wait`. */
  ghost predicate LockOrder(calls: seq<Call>, wait: nat) {
    && (forall i :: 0 <= i < |calls| ==> calls[i].now <= calls[i].locked <= calls[i].now + wait)
    && (forall i, j :: 0 <= i < j < |calls| ==> calls[i].locked <= calls[j].locked)
  }

  ghost predicate NeverMarked(calls: seq<Call>, id: string) {
    forall i :: 0 <= i < |calls| ==> !(calls[i].op.Mark? && calls[i].id == id)
  }

  /** After a win the record stays until the clock under the lock is a full TTL past it. */
  lemma {:induction false} WinIsRemembered(seen: Seen, calls: seq<Call>, i: nat, k: nat, wait: nat)
    requires i < k <= |calls| && Wins(seen, calls, i)
    requires LockOrder(calls, wait) && NeverMarked(calls, calls[i].id)
    ensures var s := SeenAfter(seen, calls[..k]);
            (calls[i].id in s && s[calls[i].id] == Some(calls[i].now))
            || calls[k - 1].locked >= calls[i].now + TTL
    decreases k
  {
    var last := calls[k - 1];
    assert calls[..k][..k - 1] == calls[..k - 1] && calls[..k][k - 1] == last;
    if k > i + 1 {
      WinIsRemembered(seen, calls, i, k - 1, wait);
      assert calls[k - 2].locked <= last.locked;
    }
  }

  /** What any one call leaves on record: a marked id its own stamp, and of the others what they had. */
  lemma AfterMeans(seen: Seen, op: Op, id: string, now: int, k: string)
    ensures var after := After(seen, op, id, now);
            && (k in after && k != id ==> k in seen && after[k] == seen[k])
            && (id != "" && op.Mark? ==> id in after && after[id] == Some(now))
            && (id != "" && op.MarkIfNew? ==>
                  id in after && after[id] == if id in seen && Young(seen[id], now) then seen[id] else Some(now))
            && (id != "" && op.Check? ==> (id in after <==> id in seen && Young(seen[id], now)))
            && (k in seen && k != id && Young(seen[k], now) ==> k in after)
  {
  }

  /** Main result for the lock branch: two wins for one id carry clock readings at least the TTL minus
      the longest lock wait apart, because the clock is read before the lock is taken. */
  lemma WinsAreFarApart(seen: Seen, calls: seq<Call>, i: nat, j: nat, wait: nat)
    requires i < j < |calls| && Wins(seen, calls, i) && Wins(seen, calls, j) && calls[i].id == calls[j].id
    requires LockOrder(calls, wait) && NeverMarked(calls, calls[i].id)
    ensures calls[j].now - calls[i].now >= TTL - wait
  {
    WinIsRemembered(seen, calls, i, j, wait);
    assert calls[j - 1].locked <= calls[j].locked;
  }

  function EarlyWin(wait: nat): seq<Call> {
    [Call(MarkIfNew, "a", 0, 0), Call(MarkIfNew, "b", TTL, TTL), Call(MarkIfNew, "a", TTL - wait, TTL)]
  }

  /** The bound is attained: a pruning call in between lets a waiting caller win early. */
  lemma BoundIsAttained(wait: nat)
    requires wait <= TTL
    ensures var calls := EarlyWin(wait);
            LockOrder(calls, wait) && NeverMarked(calls, "a")
            && Wins(map[], calls, 0) && Wins(map[], calls, 2)
            && calls[2].now - calls[0].now == TTL - wait
  {
    var calls := EarlyWin(wait);
    assert calls[..0] == [];
    assert calls[..1] == [calls[0]] && [calls[0]][..0] == [];
    assert calls[..2] == [calls[0], calls[1]] && [calls[0], calls[1]][..1] == [calls[0]];
    assert SeenAfter(map[], [calls[0]]) == map["a" := Some(0)];
    assert SeenAfter(map[], calls[..2]) == map["b" := Some(TTL)];
  }
}
