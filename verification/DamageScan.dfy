/**
 The two damage scanners (zdrovena/api/damage_detection.py): the mailbox cursor of
 scan_zoho_damage_cases, and the discovery rotation and tracking batches of
 scan_allegro_damage_cases.
 */
module DamageScans {
  import opened Prelude
  import opened DamageStores

  // ---- Mailbox cursor --------------------------------------------------------------------------

  const DAY: int := 86_400_000
  const INDEXING_MARGIN: int := 120_000
  const CURSOR_KEY := "zoho_received_cursor_ms"

  /** A notification: when it arrived, and from when on the search finds it (milliseconds). */
  datatype Message = Message(received: int, indexed: int)

  function Max(a: int, b: int): int { if a >= b then a else b }

  /** The messages found by a search at `now`: all that are indexed and not older than `since`. */
  function Search(mailbox: seq<Message>, since: int, now: int): seq<Message> {
    if mailbox == [] then []
    else if mailbox[0].received >= since && mailbox[0].indexed <= now
    then [mailbox[0]] + Search(mailbox[1..], since, now)
    else Search(mailbox[1..], since, now)
  }

  lemma {:induction false} SearchFinds(mailbox: seq<Message>, since: int, now: int, m: Message)
    ensures m in Search(mailbox, since, now) <==> m in mailbox && m.received >= since && m.indexed <= now
  {
    if mailbox == [] {
    } else {
      SearchFinds(mailbox[1..], since, now, m);
      assert mailbox == [mailbox[0]] + mailbox[1..];
    }
  }

  function Cursor(stored: Option<int>, now: int): int {
    if stored.Some? then stored.value else now - 30 * DAY
  }

  function Since(stored: Option<int>, now: int): int {
    Max(0, Cursor(stored, now) - DAY)
  }

  function Latest(messages: seq<Message>, floor: int): int {
    if messages == [] then floor else Latest(messages[1..], Max(floor, messages[0].received))
  }

  function NextCursor(stored: Option<int>, mailbox: seq<Message>, now: int): int {
    Max(Latest(Search(mailbox, Since(stored, now), now), Cursor(stored, now)), now - INDEXING_MARGIN)
  }

  /** The cursor part of one scan. */
  method ScanMailbox(store: DamageStore, mailbox: seq<Message>, now: int) returns (messages: seq<Message>)
    modifies store`state
    ensures var stored := if CURSOR_KEY in old(store.state) then Some(old(store.state)[CURSOR_KEY]) else None;
            messages == Search(mailbox, Since(stored, now), now)
            && store.state == old(store.state)[CURSOR_KEY := NextCursor(stored, mailbox, now)]
  {
    var cursor := store.GetState(CURSOR_KEY, now - 30 * DAY);
    var since := if cursor - DAY >= 0 then cursor - DAY else 0;
    messages := Search(mailbox, since, now);
    var maxReceived := cursor;
    for i := 0 to |messages|
      invariant Latest(messages[i..], maxReceived) == Latest(messages, cursor)
    {
      maxReceived := Max(maxReceived, messages[i].received);
    }
    store.SetState(CURSOR_KEY, Max(maxReceived, now - INDEXING_MARGIN));
  }

  /** The stored cursor after completed scans at the given times; a scan that fails writes none. */
  function CursorAfter(stored: Option<int>, mailbox: seq<Message>, times: seq<int>): Option<int>
    decreases |times|
  {
    if times == [] then stored
    else CursorAfter(Some(NextCursor(stored, mailbox, times[0])), mailbox, times[1..])
  }

  ghost predicate InOrder(times: seq<int>) {
    forall i, j :: 0 <= i < j < |times| ==> times[i] <= times[j]
  }

  lemma {:induction false} LatestBounds(messages: seq<Message>, floor: int, cap: int)
    ensures Latest(messages, floor) >= floor
    ensures floor <= cap && (forall m :: m in messages ==> m.received <= cap) ==> Latest(messages, floor) <= cap
    ensures forall m :: m in messages ==> Latest(messages, floor) >= m.received
  {
    if messages == [] {
    } else {
      LatestBounds(messages[1..], Max(floor, messages[0].received), cap);
      assert messages == [messages[0]] + messages[1..];
    }
  }

  /** One scan never moves the cursor back, never past its own search instant, and always past every
      message it returned. */
  lemma CursorMoves(stored: Option<int>, mailbox: seq<Message>, now: int)
    requires forall m :: m in mailbox ==> m.received <= m.indexed
    requires Cursor(stored, now) <= now
    ensures Cursor(stored, now) <= NextCursor(stored, mailbox, now) <= now
    ensures now - INDEXING_MARGIN <= NextCursor(stored, mailbox, now)
    ensures forall m :: m in Search(mailbox, Since(stored, now), now) ==> m.received <= NextCursor(stored, mailbox, now)
  {
    var found := Search(mailbox, Since(stored, now), now);
    forall m | m in found ensures m.received <= now { SearchFinds(mailbox, Since(stored, now), now, m); }
    LatestBounds(found, Cursor(stored, now), now);
  }

  lemma {:induction false} CursorStaysBehind(stored: Option<int>, mailbox: seq<Message>, times: seq<int>)
    requires forall m :: m in mailbox ==> m.received <= m.indexed
    requires times != [] && InOrder(times) && Cursor(stored, times[0]) <= times[0]
    ensures CursorAfter(stored, mailbox, times).Some?
    ensures CursorAfter(stored, mailbox, times).value <= times[|times| - 1]
    decreases |times|
  {
    CursorMoves(stored, mailbox, times[0]);
    if |times| == 1 {
      assert times[1..] == [];
    } else {
      assert times[1..][0] == times[1] && times[1..][|times| - 2] == times[|times| - 1];
      forall i, j | 0 <= i < j < |times[1..]| ensures times[1..][i] <= times[1..][j] {
        assert times[1..][i] == times[i + 1] && times[1..][j] == times[j + 1];
      }
      CursorStaysBehind(Some(NextCursor(stored, mailbox, times[0])), mailbox, times[1..]);
    }
  }

  /** The next cursor is the latest of the old one, two minutes before the search, and what was received. */
  lemma CursorIsLatest(stored: Option<int>, mailbox: seq<Message>, now: int)
    ensures var next, found := NextCursor(stored, mailbox, now), Search(mailbox, Since(stored, now), now);
            && next >= now - 120_000 && next >= (if stored.Some? then stored.value else now - 30 * 86_400_000)
            && (forall m :: m in found ==> m.received <= next)
            && (next == now - 120_000 || next == (if stored.Some? then stored.value else now - 30 * 86_400_000)
                || exists m :: m in found && m.received == next)
  {
    var found := Search(mailbox, Since(stored, now), now);
    LatestBounds(found, Cursor(stored, now), now);
    LatestIsOne(found, Cursor(stored, now));
  }

  lemma {:induction false} LatestIsOne(messages: seq<Message>, floor: int)
    ensures Latest(messages, floor) == floor || exists m :: m in messages && m.received == Latest(messages, floor)
  {
    if messages == [] {
    } else {
      LatestIsOne(messages[1..], Max(floor, messages[0].received));
      assert messages == [messages[0]] + messages[1..] && messages[0] in messages;
    }
  }

  /** What one search returns: with a stored cursor everything searchable from a day before it, without one
      everything searchable of the last 31 days. */
  lemma SearchWindow(stored: Option<int>, mailbox: seq<Message>, now: int, m: Message)
    requires m.received >= 0
    ensures m in Search(mailbox, Since(stored, now), now) <==>
            m in mailbox && m.indexed <= now
            && m.received >= if stored.Some? then stored.value - 86_400_000 else now - 31 * 86_400_000
  {
    SearchFinds(mailbox, Since(stored, now), now, m);
  }

  /** `m` becomes searchable at most `delay` after it arrived, and scan `k` is the first completed scan
      from then on; it arrived within 31 days before the first scan. */
  ghost predicate DueAt(mailbox: seq<Message>, times: seq<int>, k: nat, m: Message, delay: int) {
    && k < |times| && InOrder(times)
    && (forall x :: x in mailbox ==> 0 <= x.received <= x.indexed)
    && m in mailbox && m.indexed <= m.received + delay
    && m.received >= times[0] - 31 * DAY
    && m.indexed <= times[k] && (forall j :: 0 <= j < k ==> times[j] < m.indexed)
  }

  ghost predicate ReturnedBy(mailbox: seq<Message>, times: seq<int>, k: nat, m: Message)
    requires k < |times|
  {
    m in Search(mailbox, Since(CursorAfter(None, mailbox, times[..k]), times[k]), times[k])
  }

  /** Main result: a message searchable no later than a day (and a millisecond) after it arrived is
      returned by the first completed scan that could find it. */
  lemma NoLostNotification(mailbox: seq<Message>, times: seq<int>, k: nat, m: Message, delay: int)
    requires DueAt(mailbox, times, k, m, delay) && delay <= DAY + 1
    ensures ReturnedBy(mailbox, times, k, m)
  {
    var before := times[..k];
    if k > 0 {
      assert before[0] == times[0] && before[k - 1] == times[k - 1];
      CursorStaysBehind(None, mailbox, before);
    }
    var stored := CursorAfter(None, mailbox, before);
    SearchFinds(mailbox, Since(stored, times[k]), times[k], m);
  }

  /** Scans one after the other. */
  lemma {:induction false} CursorAfterConcat(stored: Option<int>, mailbox: seq<Message>, a: seq<int>, b: seq<int>)
    ensures CursorAfter(stored, mailbox, a + b) == CursorAfter(CursorAfter(stored, mailbox, a), mailbox, b)
    decreases |a|
  {
    if a == [] {
      assert a + b == b;
    } else {
      assert (a + b)[0] == a[0] && (a + b)[1..] == a[1..] + b;
      CursorAfterConcat(Some(NextCursor(stored, mailbox, a[0])), mailbox, a[1..], b);
    }
  }

  /** Whatever scans follow, and at whatever clock, a stored cursor never goes back. */
  lemma {:induction false} CursorNeverGoesBack(cursor: int, mailbox: seq<Message>, times: seq<int>)
    ensures CursorAfter(Some(cursor), mailbox, times).Some?
    ensures CursorAfter(Some(cursor), mailbox, times).value >= cursor
    decreases |times|
  {
    if times == [] {
    } else {
      var next := NextCursor(Some(cursor), mailbox, times[0]);
      LatestBounds(Search(mailbox, Since(Some(cursor), times[0]), times[0]), cursor, cursor);
      CursorNeverGoesBack(next, mailbox, times[1..]);
    }
  }

  /** Once the cursor is more than a day past a message, no later scan returns it. */
  lemma LostForGood(mailbox: seq<Message>, times: seq<int>, k: nat, later: nat, m: Message)
    requires k <= later < |times| && CursorAfter(None, mailbox, times[..k]).Some?
    requires m.received < CursorAfter(None, mailbox, times[..k]).value - DAY
    ensures !ReturnedBy(mailbox, times, later, m)
  {
    var cursor := CursorAfter(None, mailbox, times[..k]).value;
    assert times[..later] == times[..k] + times[k..later];
    CursorAfterConcat(None, mailbox, times[..k], times[k..later]);
    CursorNeverGoesBack(cursor, mailbox, times[k..later]);
    var stored := CursorAfter(None, mailbox, times[..later]);
    SearchFinds(mailbox, Since(stored, times[later]), times[later], m);
  }

  /** `m` was due at scan `k` and neither that scan nor any after it, however the run goes on, returns it. */
  ghost predicate NeverReturned(mailbox: seq<Message>, times: seq<int>, k: nat, m: Message)
    requires k < |times|
  {
    forall more: seq<int>, later: nat :: k <= later < |times + more| ==> !ReturnedBy(mailbox, times + more, later, m)
  }

  /** A late message, a scan that meets a younger one first, and the scan that should have seen it: from
      then on the message is lost, whatever scans follow. */
  lemma SlowIndexingLoses(delay: int)
    requires delay >= DAY + 2
    ensures exists mailbox, times, k: nat, m ::
              DueAt(mailbox, times, k, m, delay) && NeverReturned(mailbox, times, k, m)
  {
    var r := 40 * DAY;
    var late, other := Message(r, r + delay), Message(r + delay - 1, r + delay - 1);
    var mailbox, times := [late, other], [r, r + delay - 1, r + delay];
    assert DueAt(mailbox, times, 2, late, delay);
    TwoScansPass(late, other, r, delay);
    forall more: seq<int>, later: nat | 2 <= later < |times + more|
      ensures !ReturnedBy(mailbox, times + more, later, late)
    {
      assert (times + more)[..2] == [r, r + delay - 1];
      LostForGood(mailbox, times + more, 2, later, late);
    }
    assert NeverReturned(mailbox, times, 2, late);
  }

  /** The first two of those scans leave the cursor at the younger message. */
  lemma TwoScansPass(late: Message, other: Message, r: int, delay: int)
    requires delay >= DAY + 2 && r == 40 * DAY
    requires late == Message(r, r + delay) && other == Message(r + delay - 1, r + delay - 1)
    ensures CursorAfter(None, [late, other], [r, r + delay - 1]) == Some(r + delay - 1)
  {
    var mailbox := [late, other];
    var c1 := Some(NextCursor(None, mailbox, r));
    forall x | x in mailbox ensures x.received <= x.indexed {}
    CursorMoves(None, mailbox, r);
    CursorMoves(c1, mailbox, r + delay - 1);
    SearchFinds(mailbox, Since(c1, r + delay - 1), r + delay - 1, other);
    var before := [r, r + delay - 1];
    assert before[1..] == [r + delay - 1] && before[1..][1..] == [];
    assert CursorAfter(c1, mailbox, before[1..]) == Some(r + delay - 1);
  }

  /** The one-day overlap tolerates exactly the indexing delays up to a day and a millisecond. */
  lemma OverlapIsExact(delay: int)
    ensures (forall mailbox, times, k: nat, m ::
               DueAt(mailbox, times, k, m, delay) ==> ReturnedBy(mailbox, times, k, m))
            <==> delay <= DAY + 1
  {
    if delay <= DAY + 1 {
      forall mailbox, times, k: nat, m | DueAt(mailbox, times, k, m, delay)
        ensures ReturnedBy(mailbox, times, k, m)
      {
        NoLostNotification(mailbox, times, k, m, delay);
      }
    } else {
      SlowIndexingLoses(delay);
      var mailbox, times, k: nat, m :| DueAt(mailbox, times, k, m, delay) && NeverReturned(mailbox, times, k, m);
      assert times + [] == times && k < |times + []|;
    }
  }

  // ---- Discovery rotation ----------------------------------------------------------------------

  const RECENT: nat := 20
  const ROTATED: nat := 30
  const DISCOVERY_KEY := "allegro_discovery_cursor"

  function Min(a: nat, b: nat): nat { if a <= b then a else b }

  function PickAt(n: nat, cursor: int, i: nat): nat
    requires n > 0
  {
    (cursor % n + i) % n
  }

  /** The positions one scan takes from `n` older drafts when the stored cursor is `cursor`. */
  function Picked(n: nat, cursor: int): seq<nat>
    requires n > 0
  {
    seq(Min(ROTATED, n), i requires 0 <= i => PickAt(n, cursor, i))
  }

  function NextTurn(n: nat, cursor: int): int
    requires n > 0
  {
    (cursor % n + Min(ROTATED, n)) % n
  }

  function PickAll<T>(older: seq<T>, cursor: int, count: nat): seq<T>
    requires older != []
  {
    seq(count, i requires 0 <= i => older[PickAt(|older|, cursor, i)])
  }

  /** What one scan inspects of the drafts without tracking, newest first, when the cursor is `cursor`. */
  function Selection<T>(missing: seq<T>, cursor: int): seq<T> {
    if |missing| <= RECENT then missing
    else missing[..RECENT] + PickAll(missing[RECENT..], cursor, Min(ROTATED, |missing| - RECENT))
  }

  method SelectForDiscovery<T>(store: DamageStore, missing: seq<T>) returns (selected: seq<T>, deferred: nat)
    modifies store`state
    ensures var older := missing[Min(RECENT, |missing|)..];
            var cursor := if DISCOVERY_KEY in old(store.state) then old(store.state)[DISCOVERY_KEY] else 0;
            && selected == Selection(missing, cursor)
            && store.state == if older == [] then old(store.state)
                              else old(store.state)[DISCOVERY_KEY := NextTurn(|older|, cursor)]
    ensures forall i :: 0 <= i < |missing| && i < 20 ==> i < |selected| && selected[i] == missing[i]
    ensures deferred + |selected| == |missing|
  {
    var older := missing[Min(RECENT, |missing|)..];
    selected := missing[..Min(RECENT, |missing|)];
    assert older == [] ==> selected == missing;
    if older != [] {
      var stored := store.GetState(DISCOVERY_KEY, 0);
      var picks := Rotate(older, stored);
      selected := selected + picks;
      store.SetState(DISCOVERY_KEY, NextTurn(|older|, stored));
    }
    deferred := |missing| - |selected|;
  }

  method Rotate<T>(older: seq<T>, stored: int) returns (picks: seq<T>)
    requires older != []
    ensures picks == PickAll(older, stored, Min(ROTATED, |older|))
    ensures |picks| == |Picked(|older|, stored)|
    ensures forall i :: 0 <= i < |picks| ==> picks[i] == older[Picked(|older|, stored)[i]]
  {
    var cursor := stored % |older|;
    var take := Min(ROTATED, |older|);
    picks := [];
    for index := 0 to take
      invariant picks == PickAll(older, stored, index)
    {
      picks := picks + [older[(cursor + index) % |older|]];
    }
  }

  lemma ModUnique(x: int, q: int, r: nat, n: nat)
    requires r < n && x == q * n + r
    ensures x % n == r
  {
    var d := x / n - q;
    assert d >= 1 ==> d * n >= n;
    assert d <= -1 ==> d * n <= -1 * n;
    assert d * n == r - x % n;
  }

  lemma ModAdd(a: int, b: int, n: nat)
    requires n > 0
    ensures (a % n + b) % n == (a + b) % n
  {
    ModUnique(a % n + b, (a + b) / n - a / n, (a + b) % n, n) by {
      assert a == a / n * n + a % n;
      assert a + b == (a + b) / n * n + (a + b) % n;
      assert ((a + b) / n - a / n) * n == (a + b) / n * n - a / n * n;
    }
  }

  /** One scan never takes the same draft twice. */
  lemma PicksAreDistinct(n: nat, cursor: int)
    requires n > 0
    ensures |Picked(n, cursor)| == Min(ROTATED, n) && Distinct(Picked(n, cursor))
    ensures forall i :: 0 <= i < |Picked(n, cursor)| ==> Picked(n, cursor)[i] < n
  {
    var c := cursor % n;
    forall i: nat, j: nat | i < j < Min(ROTATED, n) ensures PickAt(n, cursor, i) != PickAt(n, cursor, j) {
      if c + i >= n { ModUnique(c + i, 1, c + i - n, n); } else { ModUnique(c + i, 0, c + i, n); }
      if c + j >= n { ModUnique(c + j, 1, c + j - n, n); } else { ModUnique(c + j, 0, c + j, n); }
    }
  }

  /** The stored cursor after `scans` scans of the same list. */
  function Turn(n: nat, cursor: int, scans: nat): int
    requires n > 0
    decreases scans
  {
    if scans == 0 then cursor else Turn(n, NextTurn(n, cursor), scans - 1)
  }

  lemma {:induction false} TurnIsLinear(n: nat, cursor: int, scans: nat)
    requires n > 0
    ensures Turn(n, cursor, scans) % n == (cursor + scans * Min(ROTATED, n)) % n
    decreases scans
  {
    if scans > 0 {
      var take := Min(ROTATED, n);
      TurnIsLinear(n, NextTurn(n, cursor), scans - 1);
      ModAdd(cursor, take, n);
      AddTurns(n, cursor, take, scans);
    }
  }

  lemma AddTurns(n: nat, cursor: int, take: nat, scans: nat)
    requires n > 0 && scans > 0
    ensures ((cursor + take) % n + (scans - 1) * take) % n == (cursor + scans * take) % n
  {
    ModAdd(cursor + take, (scans - 1) * take, n);
    assert (scans - 1) * take + take == scans * take;
  }

  /** Main result: whatever the stored cursor, any run of scans long enough to take n picks in all
      (that is, at least n / 30 rounded up of them) inspects every older draft. */
  lemma NobodyStarves(n: nat, cursor: int, scans: nat, position: nat)
    requires position < n <= ROTATED * scans
    ensures exists j :: 0 <= j < scans && position in Picked(n, Turn(n, cursor, j))
  {
    var ahead := (position - cursor) % n;
    var j, i := ahead / ROTATED, ahead % ROTATED;
    var take := Min(ROTATED, n);
    if n <= ROTATED { j, i := 0, ahead; }
    var turn := Turn(n, cursor, j);
    TurnIsLinear(n, cursor, j);
    assert turn % n == (cursor + j * take) % n;
    assert j * take + i == ahead;
    ModAdd(turn, i, n);
    ModAdd(cursor + j * take, i, n);
    ModAdd(position - cursor, cursor, n);
    ModUnique(position, 0, position, n);
    assert Picked(n, turn)[i] == PickAt(n, turn, i);
    assert (turn % n + i) % n == (cursor + ahead) % n;
    assert (cursor + ahead) % n == position;
    assert position in Picked(n, turn);
  }

  /** One scan inspects the twenty newest drafts and, of the older ones, those at the picked positions: up
      to thirty, consecutive from the cursor, wrapping around. */
  lemma SelectionTakes<T>(missing: seq<T>, cursor: int)
    requires |missing| > 20
    ensures var n := |missing| - 20;
            && |Picked(n, cursor)| == (if n <= 30 then n else 30)
            && |Selection(missing, cursor)| == 20 + |Picked(n, cursor)|
            && (forall i :: 0 <= i < 20 ==> Selection(missing, cursor)[i] == missing[i])
            && (forall i :: 0 <= i < |Picked(n, cursor)| ==>
                  Picked(n, cursor)[i] == (cursor + i) % n
                  && Selection(missing, cursor)[20 + i] == missing[20 + Picked(n, cursor)[i]])
  {
    var n := |missing| - 20;
    forall i | 0 <= i < |Picked(n, cursor)|
      ensures Picked(n, cursor)[i] == (cursor + i) % n
      ensures Selection(missing, cursor)[20 + i] == missing[20 + Picked(n, cursor)[i]]
    {
      ModAdd(cursor, i, n);
    }
  }

  /** The turn moves on by what was taken. */
  lemma TurnMoves(n: nat, cursor: int)
    requires n > 0
    ensures NextTurn(n, cursor) == (cursor + if n <= 30 then n else 30) % n
  {
    ModAdd(cursor, Min(ROTATED, n), n);
  }

  /** The `i`-th of the rotating places of the selection in scan `j` holds the older draft at `position`. */
  ghost predicate InspectedIn<T>(missing: seq<T>, cursor: int, j: nat, i: nat, position: nat)
    requires |missing| > 20 && position < |missing| - 20
  {
    var n := |missing| - 20;
    var turn := Turn(n, cursor, j);
    i < |Picked(n, turn)| && Picked(n, turn)[i] == position
    && 20 + i < |Selection(missing, turn)| && Selection(missing, turn)[20 + i] == missing[20 + position]
  }

  /** Main result on discovery: over any run of scans of the same list on its own stored cursor, long enough
      for n picks of thirty, every older draft is in the selection of some scan, at a picked position. */
  lemma EveryDraftIsInspected<T>(missing: seq<T>, cursor: int, scans: nat, position: nat)
    requires |missing| > 20 && position < |missing| - 20 <= 30 * scans
    ensures exists j: nat, i: nat :: j < scans && InspectedIn(missing, cursor, j, i, position)
  {
    var n := |missing| - 20;
    NobodyStarves(n, cursor, scans, position);
    var j :| 0 <= j < scans && position in Picked(n, Turn(n, cursor, j));
    var turn := Turn(n, cursor, j);
    var i :| 0 <= i < |Picked(n, turn)| && Picked(n, turn)[i] == position;
    SelectionTakes(missing, turn);
    assert InspectedIn(missing, cursor, j, i, position);
  }

  // ---- Tracking batches --------------------------------------------------------------------------

  const BATCH: nat := 20

  /** The client's own precondition (zdrovena/common/allegro.py, get_tracking_history). */
  predicate AcceptedByClient(waybills: seq<string>) { 1 <= |waybills| <= 20 }

  /** The requests made for one carrier. */
  method TrackingBatches(allWaybills: seq<string>) returns (batches: seq<seq<string>>)
    ensures Concat(batches) == FirstOccurrences(allWaybills, {})
    ensures forall b :: b in batches ==> AcceptedByClient(b) && 1 <= |b| <= 20
    ensures forall i :: 0 <= i < |batches| - 1 ==> |batches[i]| == 20
  {
    var waybills := FirstOccurrences(allWaybills, {});
    batches := [];
    var offset := 0;
    while offset < |waybills|
      invariant 0 <= offset
      invariant Concat(batches) == waybills[..Min(offset, |waybills|)]
      invariant forall b :: b in batches ==> AcceptedByClient(b)
      invariant offset <= |waybills| ==> forall i :: 0 <= i < |batches| ==> |batches[i]| == BATCH
      invariant forall i :: 0 <= i < |batches| - 1 ==> |batches[i]| == BATCH
      decreases |waybills| - offset
    {
      var batch := waybills[offset..Min(offset + BATCH, |waybills|)];
      ConcatSnoc(batches, batch);
      assert waybills[..offset] + batch == waybills[..Min(offset + BATCH, |waybills|)];
      batches := batches + [batch];
      offset := offset + BATCH;
    }
    assert waybills[..|waybills|] == waybills;
  }

  /** Deduplication keeps every waybill, once. */
  lemma {:induction false} FirstOccurrencesKeepsAll<T>(xs: seq<T>, seen: set<T>)
    ensures Distinct(FirstOccurrences(xs, seen))
    ensures forall x :: x in FirstOccurrences(xs, seen) <==> x in xs && x !in seen
  {
    if xs == [] {
    } else {
      assert xs == [xs[0]] + xs[1..];
      if xs[0] in seen {
        FirstOccurrencesKeepsAll(xs[1..], seen);
      } else {
        FirstOccurrencesKeepsAll(xs[1..], seen + {xs[0]});
        var rest := FirstOccurrences(xs[1..], seen + {xs[0]});
        forall i, j | 0 <= i < j < |[xs[0]] + rest| ensures ([xs[0]] + rest)[i] != ([xs[0]] + rest)[j] {
          assert ([xs[0]] + rest)[j] in rest;
        }
      }
    }
  }
}
