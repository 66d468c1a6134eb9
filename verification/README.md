# zdrovena, verified

A Dafny model of the parts of zdrovena that act once on an unreliable world: a mail that must not go out
twice, a parcel that must not be ordered twice, a webhook that must not be handled twice, a damage report
that must not be lost — and of the smaller algorithms around them (matching, numbering, paging, backoff,
dotenv editing, table rows, locker slots).

How it is built:

* **Protocols** are step machines. A state holds the durable row, the processes and where each of them is;
  a step is one request, one crash, or one tick. Theorems speak of every legal run
  (`EmailProtocol`, `WebhookTable`, `ShippingClaims`, `AllegroDelivery`, `AllegroOverlap`).
* **Stores and loops** that change things step by step are classes and methods, each proved against a
  function of the old state (`DamageStores`, `WebhookDedup`, `ShippingStores`, `AllegroEmulator`,
  `LocalSecretFallback`, `SecretsSync`, `Pagination`, `Retry`, `InvoiceNumbering`, ...). `AllegroRun` is the
  delivery run with its real loops and callbacks; a ghost trace proves that every effect it has is a step
  of the machine in `AllegroDelivery`, so the run theorems hold at every point of it.
* **Laws** about those functions are lemmas.

Clock readings, fresh identifiers, provider replies, random jitter and failures are inputs. Fresh
identifiers are modelled as numbers never used before; a text is a Dafny string.

## Where the code and its comments disagree

The model follows the code. Each of these is a theorem with its exact condition and a witness.

* `shopify_dedup_store.py:257-259` says racing expirations on the table are "still exactly-once". Two
  callers that both find the stored row expired can let two others, or themselves, both win. A burst of
  marking and checking calls has at most one winner in every interleaving exactly when at most one call
  finds the row expired or only one call marks (`WebhookTable.AtMostOneWinnerExactly`).
* `send_attempt.py:221-228` lets an operator record "not delivered" on an ambiguous attempt. That is safe
  for every continuation exactly when nothing was accepted and no worker is before its SMTP call or holds
  an unwritten refusal, or when the case is marked sent (`EmailProtocol.ResolutionGuardIsExact`). "Nothing
  accepted and the holder will not send" is not enough: its late refusal write frees the row under the next
  sender.
* `damage_detection.py:132-138` promises a match "without guessing". Two undated drafts with the same best
  score are guessed between, because their infinite ages are compared by subtraction
  (`DraftMatchers.NeverGuessesExactly`). The answer is the same in every order of the draft list exactly
  when the reference names one draft or no two different undated candidates are tied
  (`DraftMatchers.OrderMattersExactly`).
* `inpost.py:106` promises "any rotation". True of a slot exactly when it is no higher than the shorter side
  of its floor, so not of the large one (`LockerSlots.FitIsCompleteExactly`); of the parcels that go into the
  large slot it turns away exactly those whose middle side is longer than its width
  (`LockerSlots.FitsExactly`, `LockerSlots.PickIsSmallest`).
* `secrets_sync.py:134-141` replaces one active line per key. With several the last old line still decides
  (`SecretsSync.UpdatesOverrideExactly`).
* `secrets_sync.py:178-179` says a rotating secret never lands in the plaintext file. `pull` keeps that
  exactly for vault values none of whose lines, once written and split again, is an active line with a
  blocked key (`SecretsSync.SopsOnlyKeysStayOut`).
* The one-day overlap of the mailbox cursor tolerates indexing delays of up to one day and one
  millisecond, and no more (`DamageScans.OverlapIsExact`).
* Stops between a POST and its first record do not bound the POSTs by themselves: a saved command id is
  overwritten when somebody changes the status before the resume, as a failed confirmation does itself. From
  every reachable state, starting a delivery keeps "one command per parcel and stop in the gap" exactly when
  the draft does not show a saved id, no checkpoint and a status other than `pending_confirmation`
  (`AllegroDelivery.CommandBoundIsExact`).
* `shipping_store.py:413-416` says the claim closes the race in which two requests both create a shipment.
  Saving a command makes the draft claimable again in mid-run, and confirmation takes no claim. Any number of
  overlapping runs post each parcel at most once exactly when no parcel is without a visible command in two of
  their reads (`AllegroOverlap.OverlapIsExact`).
* The two branches of `upsert_draft` remove the same rows except where an order is literally called "None"
  and a stored row has no order id (`ShippingStores.BranchesAgreeExactly`).

## Model

| member | source | states |
|---|---|---|
| `EmailProtocol.AtMostOneAcceptance` | zdrovena/common/send_attempt.py:1-22 | over every interleaving of workers, operators, crashes, clock ticks and other writes, from any stored row, a case gets at most one SMTP acceptance, if every "not delivered" answer is given on a quiet case |
| `EmailProtocol.ResolutionGuardIsExact` | zdrovena/damage/application/workflow.py:392-407 | from every state the protocol keeps, a "not delivered" answer is safe for all continuations if and only if the case is quiet |
| `EmailProtocol.UnquietResolutionCanDuplicate` | zdrovena/damage/application/workflow.py:392-407 | from every other state there is a continuation with two acceptances |
| `EmailProtocol.StepKeepsInv` | zdrovena/damage/application/workflow.py:319-390 | read, claim, SMTP, settle, resolve, crash, tick and foreign writes all keep: a free row has no acceptance and no armed worker, and at most one worker is armed |
| `EmailProtocol.RunKeepsInv` | zdrovena/damage/application/workflow.py:319-407 | the same over whole runs |
| `EmailProtocol.AcceptanceIsFinal` | zdrovena/damage/application/workflow.py:370-390 | once an acceptance is written down, every caller at every later time is told the mail was sent, and in no continuation is the case free again |
| `EmailProtocol.SentStaysSent` | zdrovena/common/damage_store.py:245-247 | a case marked sent stays marked, whatever runs on it |
| `EmailProtocol.AnythingMayHappen` | zdrovena/common/send_attempt.py:1-22 | in the model any process may crash at any point, time may pass, and unrelated writes and reads may come at any point |
| `EmailProtocol.SmtpMayAnswer` | zdrovena/damage/application/workflow.py:346-365 | SMTP may accept, refuse, or accept or not without an answer, and nothing is written by that |
| `EmailProtocol.OperatorMayAnswer` | zdrovena/damage/application/workflow.py:392-407 | an operator may take up any unresolved attempt and answer either way later, from what was read |
| `EmailProtocol.AdjacentClaim` | zdrovena/common/damage_store.py:257-301 | a read and claim with nothing in between are the store's locked claim: won exactly on a free case |
| `EmailProtocol.StaleClaim` | zdrovena/common/damage_store.py:282-289 | a claim after any write since the read is lost and writes nothing |
| `EmailProtocol.WritesEnd` | zdrovena/damage/application/workflow.py:353-407 | every settle and resolution changes the version, so that no older read can claim |
| `CaseMail.ClaimIgnoresTheClock` | zdrovena/common/damage_store.py:245-255 | whether a case can be claimed does not depend on the time: it is free or it is not |
| `CaseMail.ClaimBlocks` | zdrovena/common/damage_store.py:266-299 | a claim that carries its attempt makes the case unclaimable; one that carries none leaves it claimable exactly when an earlier attempt is stored |
| `CaseMail.ClaimRecords` | zdrovena/common/damage_store.py:266-299 | after the claim the row shows sending, its time, and an attempt that loads as the pending one claimed: in progress for ten minutes, ambiguous from then on |
| `CaseMail.AcceptanceRecords` | zdrovena/damage/application/workflow.py:370-390 | after an acceptance the row is marked sent now and the attempt loads as "confirmed", settled now, without error, with the provider's message id; at every later time the answer is "already sent" |
| `CaseMail.RefusalRecords` | zdrovena/damage/application/workflow.py:353-365 | after a refusal the attempt loads as "failed", settled now, with the first 500 characters of the error; the row is not marked sent and a send may start |
| `CaseMail.SilenceRecords` | zdrovena/damage/application/workflow.py:353-365 | after no answer the attempt loads as it was, pending, and at no later time is a send allowed by it |
| `CaseMail.VerdictRecords` | zdrovena/damage/application/workflow.py:392-407 | an operator's answer loads as "confirmed" exactly if delivered and "failed" otherwise, attributed and with note, and marks the case sent exactly if delivered |
| `CaseMail.OnlyRefusalFrees` | zdrovena/damage/application/workflow.py:353-390 | of the three settle writes only a definite refusal frees the case, and only while it is not marked sent |
| `CaseMail.OnlyNotDeliveredFrees` | zdrovena/damage/application/workflow.py:392-407 | of the operator's two answers only "not delivered" frees the case, and only while it is not marked sent |
| `SendAttempts.TimeNeverFrees` | zdrovena/common/send_attempt.py:173-218 | waiting never allows a send that was refused; all it does is turn "in progress" into "ambiguous", once, ten minutes after the start |
| `SendAttempts.PermissionMeans` | zdrovena/common/send_attempt.py:173-218 | which stored states and starts give which of the four answers, at every time |
| `SendAttempts.BegunBlocks` | zdrovena/common/send_attempt.py:126-137 | an attempt begun now carries its id and fingerprint and is in progress for ten minutes, ambiguous from then on |
| `SendAttempts.StoredColumns` | zdrovena/common/send_attempt.py:82-95 | each field is stored under its own key, the extra ones as they are |
| `SendAttempts.LoadedAsStored` | zdrovena/common/send_attempt.py:97-123 | a dict without id holds no attempt; any other is loaded as it stands, a missing state reading "unknown" |
| `SendAttempts.LoadedPermission` | zdrovena/common/send_attempt.py:97-218 | of stored dicts only one without id or with state "failed" lets a send start |
| `SendAttempts.SettledIsFinal` | zdrovena/common/send_attempt.py:140-244 | under any sequence of confirm, fail and resolve a settled attempt never changes, and id, fingerprint and start are never rewritten |
| `SendAttempts.RefusedExactly` | zdrovena/common/send_attempt.py:140-244 | which of the three transitions each state admits, and that an admitted one leads to "confirmed" or "failed", settled now - "confirmed" exactly by a confirmation or a delivered answer |
| `SendAttempts.MovesConcat` | zdrovena/common/send_attempt.py:140-244 | transitions apply one after the other |
| `SendAttempts.MovesOne` | zdrovena/common/send_attempt.py:140-244 | a refused transition leaves the attempt as it was |
| `SendAttempts.DictRoundTrip` | zdrovena/common/send_attempt.py:82-123 | storing and loading gives the attempt back if and only if it has an id, a state and no extra field shadowing a known one |
| `SendAttempts.LoadedIsStorable` | zdrovena/common/send_attempt.py:97-123 | whatever dict is loaded, the attempt it gives meets that condition |
| `DamageStores.DamageStore.TryClaimEmail` | zdrovena/common/damage_store.py:228-301 | won exactly when the case exists and is free; the winner's attempt is on the row in the same write, a loser writes nothing, detection facts are untouched |
| `DamageStores.DamageStore.UpdateCase` | zdrovena/common/damage_store.py:166-181 | merges into an existing case, reports a missing one and writes nothing |
| `DamageStores.DamageStore.FillContext` | zdrovena/api/damage_detection.py:288-290 | in whatever order the items are visited, exactly the missing keys with a value are set |
| `DamageStores.DamageStore.UpsertDetectedCase` | zdrovena/api/damage_detection.py:254-317 | refines the fold's one step, reports whether the case is new, gives a new case empty email columns and leaves those of every existing case alone |
| `DetectedCases.ReplayIsHarmless` | zdrovena/api/damage_detection.py:254-317 | after any reading, re-reading any of its events in any order, number and time changes nothing but the last-seen marks |
| `DetectedCases.TwiceIsOnce` | zdrovena/api/damage_detection.py:254-317 | reading a whole list twice gives the cases reading it once gives, apart from the clock |
| `DetectedCases.EvidenceIsTwentyNewest` | zdrovena/api/damage_detection.py:270-287 | a case holds every fingerprint in first-seen order and the evidence of exactly the twenty newest of those events |
| `DetectedCases.FoldKeeps` | zdrovena/api/damage_detection.py:268-294 | no reading downgrades damage, overwrites a filled context field, repeats a fingerprint or source, or moves status and creation |
| `DetectedCases.OpenedCase` | zdrovena/api/damage_detection.py:297-317 | a case the reading opens has status "needs_review", tracking number, creation and detection of its first event, confidence "high" exactly if damage, and the sources of its events in first-seen order |
| `DetectedCases.OpenedEvidence` | zdrovena/api/damage_detection.py:270-317 | of a case the reading opens: every fingerprint in first-seen order and the evidence of the twenty newest, the first event's included |
| `DetectedCases.OpenedContext` | zdrovena/api/damage_detection.py:264-317 | and each context key has the first value any of its events brings |
| `DetectedCases.FoldContext` | zdrovena/api/damage_detection.py:288-290 | in an existing case a context key keeps its value or takes the first one an event brings |
| `DetectedCases.FoldSources` | zdrovena/api/damage_detection.py:276-279 | sources of an existing case are extended in first-seen order, each once |
| `DetectedCases.FoldLeaves` | zdrovena/api/damage_detection.py:280-294 | tracking number, status, creation and detection stay; the update time is that of the last event; classification and confidence change only to "damage" and "high" |
| `DetectedCases.OthersUntouched` | zdrovena/api/damage_detection.py:262-295 | a case no event names is as it was, and a case appears only if an event names it |
| `DetectedCases.TwentyAtMost` | zdrovena/api/damage_detection.py:286 | the kept evidence is the last twenty entries |
| `DetectedCases.DamageIsSticky` | zdrovena/api/damage_detection.py:291-293 | a case is damage if and only if it was, or some event of it says so |
| `DetectedCases.FoldMarksLast` | zdrovena/api/damage_detection.py:281-287 | a case exists iff it did or an event names it, and shows the fingerprint of its last event |
| `DamageScans.ScanMailbox` | zdrovena/api/damage_detection.py:477-495 | one scan returns the messages since the cursor less a day and stores the next cursor |
| `DamageScans.CursorMoves` | zdrovena/api/damage_detection.py:661-664 | the cursor never goes back, never passes the search instant, and passes every message returned |
| `DamageScans.CursorIsLatest` | zdrovena/api/damage_detection.py:489-495 | the stored cursor is exactly the latest of the old one, two minutes before the search, and the times of the messages returned |
| `DamageScans.SearchWindow` | zdrovena/api/damage_detection.py:478-486 | a search returns exactly what is searchable from a day before the cursor on, or of the last 31 days without one |
| `DamageScans.NoLostNotification` | zdrovena/api/damage_detection.py:477-495 | over any run of completed scans, a message searchable within a day of arrival is returned by the first scan that could find it |
| `DamageScans.SlowIndexingLoses` | zdrovena/api/damage_detection.py:484-486 | for every longer delay there is a run in which neither the scan that is due nor any later one, however the run goes on, returns the message |
| `DamageScans.LostForGood` | zdrovena/api/damage_detection.py:484-495 | a message more than a day behind the cursor is returned by no later scan, in any run |
| `DamageScans.CursorNeverGoesBack` | zdrovena/api/damage_detection.py:489-495 | whatever scans follow, at whatever clock, a stored cursor never goes back |
| `DamageScans.OverlapIsExact` | zdrovena/api/damage_detection.py:484-486 | nothing is lost in any run if and only if the delay is at most one day and a millisecond |
| `DamageScans.SelectForDiscovery` | zdrovena/api/damage_detection.py:371-382 | the newest twenty plus the next thirty of the rest; the stored cursor moves on by what was taken; selected and deferred add up |
| `DamageScans.Rotate` | zdrovena/api/damage_detection.py:377-381 | the loop takes consecutive positions from the cursor, wrapping around |
| `DamageScans.PicksAreDistinct` | zdrovena/api/damage_detection.py:377-381 | one scan takes min(30, n) different drafts, whatever cursor is stored |
| `DamageScans.TurnIsLinear` | zdrovena/api/damage_detection.py:377-381 | after k scans the cursor is k takes further, modulo the list |
| `DamageScans.NobodyStarves` | zdrovena/api/damage_detection.py:371-382 | any run of at least n / 30 scans, rounded up, inspects every older draft |
| `DamageScans.EveryDraftIsInspected` | zdrovena/api/damage_detection.py:371-382 | over any run of at least n / 30 scans on its own stored cursor, every older draft is in the selection of some scan, at a picked position |
| `DamageScans.SelectionTakes` | zdrovena/api/damage_detection.py:371-382 | a scan's selection is the twenty newest drafts and the older ones at min(30, n) positions, consecutive from the cursor modulo n |
| `DamageScans.TurnMoves` | zdrovena/api/damage_detection.py:381 | the stored cursor moves on by what was taken, modulo n |
| `DamageScans.TrackingBatches` | zdrovena/api/damage_detection.py:417-422 | batches concatenate to the waybills without repeats, all full but the last, and each is accepted by the client's own size check |
| `DamageScans.FirstOccurrencesKeepsAll` | zdrovena/api/damage_detection.py:418 | dropping repeats keeps every waybill, once |
| `DraftMatchers.MatchProviderToDraft` | zdrovena/api/damage_detection.py:132-218 | the loops compute reference match first, then the scored choice |
| `DraftMatchers.CollectCandidates` | zdrovena/api/damage_detection.py:160-206 | exactly the drafts the acceptance rule admits, with score and age, in list order |
| `DraftMatchers.CollectReferenced` | zdrovena/api/damage_detection.py:142-149 | exactly the drafts the reference names, in list order |
| `DraftMatchers.AcceptanceRule` | zdrovena/api/damage_detection.py:158-206 | weights, anchor and threshold together accept exactly: email with any of four other fields, or phone with the name or with two of the three address fields, within the age window |
| `DraftMatchers.ScoredMatchExactly` | zdrovena/api/damage_detection.py:151-218 | without a deciding reference or undated rivals, a draft is matched if and only if it is eligible and, by the weights of agreeing fields and the distance of order times, ahead of every other eligible one |
| `DraftMatchers.ReferenceMatchExactly` | zdrovena/api/damage_detection.py:139-150 | the reference decides if and only if it names exactly one entry of the list, by order number without hash signs or by external id |
| `DraftMatchers.CandidateMeans` | zdrovena/api/damage_detection.py:158-206 | a candidate's score is 8, 7, 4, 2, 1 and 2 for the agreeing fields, its age the distance from the event, infinite exactly if undated |
| `DraftMatchers.TieIsRivals` | zdrovena/api/damage_detection.py:210-218 | an undated tie is a pair of undated eligible drafts with the best score, which no dated one reaches |
| `DraftMatchers.HashesOnly` | zdrovena/api/damage_detection.py:143-147 | stripping takes leading hash signs and nothing else |
| `DraftMatchers.SortSorts` | zdrovena/api/damage_detection.py:210 | the candidates in order of score, then nearness; nothing lost |
| `DraftMatchers.ChoiceIsClear` | zdrovena/api/damage_detection.py:208-218 | without an undated tie a candidate is chosen if and only if it beats every other one in score, or equals it and is a day nearer |
| `DraftMatchers.NeverGuessesExactly` | zdrovena/api/damage_detection.py:208-218 | a choice stands clear of all others if and only if the list has no undated tie |
| `DraftMatchers.UndatedTieGuesses` | zdrovena/api/damage_detection.py:213-218 | with an undated tie one of the tied drafts is returned all the same |
| `DraftMatchers.PermutationsAgree` | zdrovena/api/damage_detection.py:142-206 | permuted draft lists give the same candidates and references |
| `DraftMatchers.OrderMattersExactly` | zdrovena/api/damage_detection.py:132-218 | for every record, list and event the answer is the same in every order of the list if and only if the reference names one draft or no two different undated candidates are tied |
| `DraftMatchers.OrderIndependent` | zdrovena/api/damage_detection.py:132-218 | under that condition any two orders give the same answer |
| `DraftMatchers.TwoTiedDependOnOrder` | zdrovena/api/damage_detection.py:208-218 | without it, for every such list, there are two orders with different answers |
| `DraftMatchers.SomeOrderPicks` | zdrovena/api/damage_detection.py:208-218 | each of the tied candidates is the answer in some order of the list |
| `DraftMatchers.UndatedTieDependsOnOrder` | zdrovena/api/damage_detection.py:213-218 | the smallest instance: two undated drafts of one customer |
| `WebhookDedup.DedupStore.MarkSeenIfNew` | zdrovena/common/shopify_dedup_store.py:274-291 | true exactly for a call that finds no live record of a non-empty id; the winner's record is then live, a loser writes nothing |
| `WebhookDedup.DedupStore.IsDuplicate` | zdrovena/common/shopify_dedup_store.py:315-330 | true exactly for a live record; drops an expired record of this id and nothing else |
| `WebhookDedup.DedupStore.MarkSeen` | zdrovena/common/shopify_dedup_store.py:197-207 | prunes what is expired and records the id |
| `WebhookDedup.WinIsRemembered` | zdrovena/common/shopify_dedup_store.py:274-291 | whatever calls follow under the lock, a winner's record stays until a full TTL after its stamp |
| `WebhookDedup.AfterMeans` | zdrovena/common/shopify_dedup_store.py:162-291 | after any call the id has the stamp the call owes it, and no other id's record is changed, or lost while younger than a day |
| `WebhookDedup.WinsAreFarApart` | zdrovena/common/shopify_dedup_store.py:226-291 | two wins for one id carry stamps at least the TTL less the longest lock wait apart |
| `WebhookDedup.BoundIsAttained` | zdrovena/common/shopify_dedup_store.py:226-291 | for every wait up to the TTL there is a run that attains this distance |
| `WebhookTable.CreatesBalanceDeletes` | zdrovena/common/shopify_dedup_store.py:230-272 | in every interleaving of create, get and delete: rows created equal rows deleted plus the row present |
| `WebhookTable.AnythingMayHappen` | zdrovena/common/shopify_dedup_store.py:230-272 | in the model any call may take its next request, crash, or fail on a create that took effect or not |
| `WebhookTable.AtMostOneWinnerExactly` | zdrovena/common/shopify_dedup_store.py:230-313 | a burst of marking and checking calls has at most one winner in every interleaving if and only if at most one of them finds the stored row expired or only one of them marks |
| `WebhookTable.TwoExpirationsBothWin` | zdrovena/common/shopify_dedup_store.py:256-313 | any two calls that find it expired, marking or checking, and any two markers have an interleaving with two winners |
| `WebhookTable.RunKeepsInv` | zdrovena/common/shopify_dedup_store.py:230-313 | with one call that sees it expired: one delete at most, and only a row written by the burst replaces the old one |
| `WebhookTable.OneMarkerWinsOnce` | zdrovena/common/shopify_dedup_store.py:230-313 | with one marking call, one win at most, however many rows are deleted |
| `WebhookTable.RowStaysWithoutDeletes` | zdrovena/common/shopify_dedup_store.py:236-248 | without deletes a row stays and nobody wins after it |
| `WebhookTable.LosersSawARow` | zdrovena/common/shopify_dedup_store.py:230-272 | a marking call loses without an error only to a row that is there at that instant, on its look to one younger than a day |
| `WebhookTable.WinnersLeaveTheirStamp` | zdrovena/common/shopify_dedup_store.py:230-272 | a winner finds no row and leaves one with the clock it read on entry |
| `WebhookTable.OnlyOldRowsAreDoomed` | zdrovena/common/shopify_dedup_store.py:253-313 | a call goes on to delete only a row that is a day old or has no readable time |
| `WebhookTable.ExactlyOneWinnerForNewId` | zdrovena/common/shopify_dedup_store.py:209-215 | a burst for a new id with a marking call, run to its end without errors, has exactly one winner, whatever checking calls run beside it |
| `ShippingStores.ShippingStore.LocalDuplicateIds` | zdrovena/common/shipping_store.py:347-372 | exactly the other live drafts of the same order; none for a replacement |
| `ShippingStores.ShippingStore.UpsertDraft` | zdrovena/common/shipping_store.py:213-221 | removes exactly those and stores the record |
| `ShippingStores.ShippingStore.UpdateDraft` | zdrovena/common/shipping_store.py:391-401 | merges into an existing draft; a missing one is reported and nothing is written |
| `ShippingStores.ShippingStore.TryClaimExecution` | zdrovena/common/shipping_store.py:445-462 | won exactly in an executable state, which the claim leaves; keeps an earlier start; a loser writes nothing |
| `ShippingStores.ShippingStore.TryClaimPickup` | zdrovena/common/shipping_store.py:496-508 | won exactly while the flag is clear; a loser writes nothing |
| `ShippingStores.OneLiveDraftPerOrder` | zdrovena/common/shipping_store.py:319-327 | after any sequence of upserts, deletes, claims and identity-preserving updates no two live drafts share an order key |
| `ShippingStores.AfterAllConcat` | zdrovena/common/shipping_store.py:197-541 | operations follow one another |
| `ShippingStores.AfterAllOne` | zdrovena/common/shipping_store.py:197-541 | each by its own effect on the drafts |
| `ShippingStores.ReplacementsSurvive` | zdrovena/common/shipping_store.py:319-329 | no such sequence removes a replacement except by deleting or overwriting it |
| `ShippingStores.BranchesAgreeExactly` | zdrovena/common/shipping_store.py:197-221 | the table branch reaches the map the local branch reaches if and only if no order called "None" meets a row without order id |
| `ShippingStores.UpsertRemovesExactly` | zdrovena/common/shipping_store.py:347-372 | an upsert removes exactly the other live drafts of the same order, by either key, and those whose missing order id is taken for the text "None" |
| `ShippingStores.TableKeepsOneLive` | zdrovena/common/shipping_store.py:245-265 | the table branch keeps one live draft per order in every case |
| `ShippingClaims.ExecutionIsExclusive` | zdrovena/common/shipping_store.py:403-443 | between two successful execution claims another write took the draft out of `executing`, and after it another made it executable |
| `ShippingClaims.PickupIsExclusive` | zdrovena/common/shipping_store.py:464-494 | a pickup claim is won again only after another write cleared the flag |
| `ShippingClaims.StartIsSetOnce` | zdrovena/common/shipping_store.py:425-430 | the first claim sets the execution start and every later one keeps it |
| `ShippingClaims.AdjacentClaim` | zdrovena/common/shipping_store.py:403-508 | a read and merge with nothing in between are the store's locked claim |
| `ShippingClaims.StaleMerge` | zdrovena/common/shipping_store.py:434-443 | after any write since the read the merge is refused and nothing is written |
| `ShippingClaims.AnythingMayHappen` | zdrovena/common/shipping_store.py:403-443 | in the model anybody may read, crash or write anything at any point |
| `ShippingClaims.WinnersFindItClaimable` | zdrovena/common/shipping_store.py:431-443 | a winner finds the row claimable at the instant of its merge and leaves it not claimable |
| `ShippingClaims.LeavesExecuting` | zdrovena/common/shipping_state.py:31-48 | only another write ends a stretch of `executing` |
| `ShippingClaims.BecomesExecutable` | zdrovena/common/shipping_state.py:31-48 | only another write starts a stretch of executable states |
| `AllegroDelivery.CheckpointsFormAPrefix` | zdrovena/api/shipping_execution_composition.py:546-603 | over all runs, stops and resumes, parcels with a shipment form a prefix of the specs, at most the next has an open command, no later one has anything |
| `AllegroDelivery.ShipmentsAreOwn` | zdrovena/api/shipping_execution_composition.py:546-603 | every checkpoint holds a command posted for that parcel and the shipment made for it; no two parcels share one |
| `AllegroDelivery.ResumesItsOwnCommand` | zdrovena/api/shipping_execution_composition.py:552-563 | every command awaited, the one saved on the draft included, was posted for the parcel it is awaited for |
| `AllegroDelivery.CommandBoundIsExact` | zdrovena/api/shipping_execution_composition.py:517-603 | for any number of parcels and from every reachable state, a start keeps commands within parcels plus stops in the gap in all mindful continuations if and only if the draft does not show a saved id, no checkpoint and a status other than pending confirmation |
| `AllegroDelivery.MindfulRunsAreBounded` | zdrovena/api/shipping_execution_composition.py:517-603 | runs never started on such a draft post at most one command per parcel and stop in the gap; without such a stop one per parcel, in order |
| `AllegroDelivery.ForgetfulStartCostsACommand` | zdrovena/api/shipping_execution_composition.py:517-521 | from every reachable draft of that kind a run delivers everything, stops nowhere, and has posted exactly one command more |
| `AllegroDelivery.CommandsAreConserved` | zdrovena/api/shipping_execution_composition.py:553-603 | every POST is in exactly one place: a checkpoint, under way, saved on the draft, lost in the gap, or overwritten |
| `AllegroDelivery.CommandsAreBounded` | zdrovena/api/shipping_execution_composition.py:517-603 | so commands are at most the parcels plus stops in the gap plus overwritten ids, plus one while a POST is under way past a saved id |
| `AllegroDelivery.StatusChangeCostsACommand` | zdrovena/api/shipping_execution_composition.py:1010-1018 | such drafts are reached: for any parcels, a run with no stop in the gap and two commands for the first parcel |
| `AllegroDelivery.PendingResultsAreBounded` | zdrovena/api/shipping_execution_composition.py:581-591 | if each command succeeds by its D-th poll, a draft of P parcels is reported pending at most P * floor((D - 1) / 3) times over all runs |
| `AllegroDelivery.RunKeepsInv` | zdrovena/api/shipping_execution_composition.py:487-603 | the invariant behind all of these, over whole runs |
| `AllegroDelivery.AnythingMayHappen` | zdrovena/api/shipping_execution_composition.py:546-603 | in the model a run may stop wherever it is, the status may be set between runs, and a poll may find the command done or not, up to three times |
| `AllegroDelivery.FreshDraftsAreInit` | zdrovena/api/shipping_execution_composition.py:511-521 | the theorems start from any draft without checkpoints, with or without one saved command |
| `AllegroOverlap.OverlapIsExact` | zdrovena/api/shipping_execution_composition.py:511-603 | any number of overlapping runs that have read the draft, on a draft that can be claimed, post each parcel at most once in every interleaving if and only if no parcel is needed by two of their reads |
| `AllegroOverlap.SharedNeedPostsTwice` | zdrovena/shipping/application/execution/workflow.py:208-216 | any two runs that need one parcel have an interleaving in which both post it, the claim notwithstanding |
| `AllegroOverlap.SameReadIsExact` | zdrovena/api/shipping_execution_composition.py:511-521 | two callers that read the same draft are safe together if and only if every parcel already has a command they both see |
| `AllegroOverlap.RunKeepsParcelOk` | zdrovena/api/shipping_execution_composition.py:546-603 | with disjoint needs, a posted parcel is posted by nobody again |
| `AllegroOverlap.ClaimsWhere` | zdrovena/common/shipping_state.py:31-48 | a run with a claim starts exactly in the states the store grants one |
| `AllegroOverlap.AloneIsDelivery` | zdrovena/api/shipping_execution_composition.py:511-603 | a run nobody overlaps is a run of the delivery machine: the same moves are possible at every point and have the same effect |
| `AllegroOverlap.RunsWriteOver` | zdrovena/shipping/application/execution/workflow.py:227-236 | a run writes its own list of checkpoints over whatever is stored and touches no other run |
| `AllegroOverlap.AnythingMayHappen` | zdrovena/api/shipping_execution_composition.py:511-603 | in the model any run may stop at any point and the status may be set by anybody |
| `AllegroRun.RunAllegroDelivery` | zdrovena/api/shipping_execution_composition.py:511-603 | whatever the proposal, the POSTs, the polls and the shipment reads answer, the run takes only steps of the machine and ends with every parcel shipped, pending on the command it waits for, or raised in mid-run; never pending if the provider is ready by the third poll, never raised if no call fails |
| `AllegroRun.AwaitParcel` | zdrovena/api/shipping_execution_composition.py:573-603 | the command is checkpointed before the polling and its shipment after it; a timeout, a failed poll or a failed shipment read leaves the open checkpoint with that command |
| `AllegroRun.WaitForShipment` | zdrovena/common/allegro.py:650-683 | at most three polls; gives up only after three times "in progress" |
| `AllegroRun.ConfirmShippingDraft` | zdrovena/api/shipping_execution_composition.py:949-1047 | refuses exactly the drafts that are not pending or show no command; otherwise ends `created` with every parcel shipped, pending on an open checkpoint, in `error` after a business error, or still pending after any other failure |
| `AllegroRun.ExecuteDraft` | zdrovena/shipping/application/execution/workflow.py:144-330 | a conflict exactly on a status other than "pending", "pending_confirmation", "error" and "needs_review", and then nothing changes; after a failed run the draft is pending or in "error", and still "executing" only if the release write failed too |
| `AllegroRun.StartsWhere` | zdrovena/common/shipping_state.py:31-48 | the machine starts an execution exactly where the store would grant the claim, on "pending", "pending_confirmation" and "error", and a confirmation exactly on a pending draft that shows a command |
| `AllegroRun.World.CreateShipment` | zdrovena/api/shipping_execution_composition.py:564-571 | posts one command for this parcel and saves its id with the pending status; a refused POST changes nothing, a lost one leaves it posted and unsaved |
| `AllegroRun.World.PersistCommand` | zdrovena/api/shipping_execution_composition.py:573-585 | the command is checkpointed before it is polled |
| `AllegroRun.World.PersistShipment` | zdrovena/api/shipping_execution_composition.py:593-603 | the shipment is recorded on the same checkpoint, every other one unchanged |
| `AllegroRun.World.WritePending` | zdrovena/api/shipping_execution_composition.py:1021-1031 | the pending patch names the command the one open checkpoint waits for |
| `AllegroRun.World.WriteCreated` | zdrovena/api/shipping_execution_composition.py:1033-1034 | `created` is written only with every parcel shipped |
| `AllegroEmulator.OneShipmentPerCommand` | zdrovena/fake_providers/allegro.py:114-140 | after any posts, re-posts and polls under any scenarios commands and shipments pair off one to one, and nothing a command has is taken back |
| `AllegroEmulator.AfterAllConcat` | zdrovena/fake_providers/allegro.py:334-391 | requests are served one after the other |
| `AllegroEmulator.AfterAllOne` | zdrovena/fake_providers/allegro.py:334-391 | each by its own effect |
| `AllegroEmulator.RepostIsHarmless` | zdrovena/fake_providers/allegro.py:347-354 | posting a known command id again, whatever happened in between, changes nothing |
| `AllegroEmulator.EmptyIsPaired` | zdrovena/fake_providers/allegro.py:114-140 | the emulator starts with commands and shipments paired off |
| `AllegroEmulator.NormalIsTimely` | zdrovena/fake_providers/allegro.py:380-386 | in the normal scenario a command has succeeded exactly from its second poll on |
| `AllegroEmulator.AnswerMeans` | zdrovena/fake_providers/allegro.py:361-391 | what a poll answers in each scenario, the shipment id included |
| `AllegroEmulator.PollMeans` | zdrovena/fake_providers/allegro.py:361-391 | what a poll leaves: one poll more, the status by scenario, the command's own shipment or the next one, and nothing else changed |
| `AllegroEmulator.SuccessFromTheSecondPoll` | zdrovena/fake_providers/allegro.py:361-391 | so the emulator is ready in time for the delivery run, which never returns pending against it |
| `AllegroEmulator.FakeAllegro.CreateCommand` | zdrovena/fake_providers/allegro.py:334-358 | stores a new command once, under its own or a fresh id |
| `AllegroEmulator.FakeAllegro.CommandStatus` | zdrovena/fake_providers/allegro.py:361-391 | counts the poll, moves the status by scenario, makes the shipment, and answers from the state it leaves |
| `AllegroEmulator.FakeAllegro.CreateCompletedShipment` | zdrovena/fake_providers/allegro.py:114-140 | the one shipment of the command, made on first need |
| `InvoiceNumbering.CheckNumbering` | zdrovena/audit/sections.py:320-365 | a result for exactly the series that occur, each describing its numbers, with last - first + 1 = count - duplicates + gaps |
| `InvoiceNumbering.AnalyseSeries` | zdrovena/audit/sections.py:336-364 | gaps are exactly the absent numbers ascending, each number is listed as duplicate its multiplicity less one, and the numbering law |
| `InvoiceNumbering.GroupBySeries` | zdrovena/audit/sections.py:322-332 | each series gets its numbers in document order; numbers without slash or integer are left out |
| `InvoiceNumbering.ParsedMeans` | zdrovena/audit/sections.py:325-332 | a number belongs to a series if and only if it is an integer text without slash, a slash, and the series |
| `InvoiceNumbering.InSeriesConcat` | zdrovena/audit/sections.py:324-332 | the numbers of a series are collected document by document, in order |
| `InvoiceNumbering.InSeriesOne` | zdrovena/audit/sections.py:325-332 | one document adds its number if it parses to the series, and nothing otherwise |
| `InvoiceNumbering.Duplicates` | zdrovena/audit/sections.py:340-345 | every occurrence after the first, in order |
| `InvoiceNumbering.ExtraRepeats` | zdrovena/audit/sections.py:340-345 | that list holds every number its multiplicity less one times, and no other |
| `InvoiceNumbering.ExtraAndMembers` | zdrovena/audit/sections.py:340-345 | duplicates and different numbers add up to the documents |
| `InvoiceNumbering.Gaps` | zdrovena/audit/sections.py:347-351 | the missing numbers, which with those present fill the range |
| `InvoiceNumbering.MissingFills` | zdrovena/audit/sections.py:347-351 | exactly the absent numbers, ascending, as many as the range has beyond those present |
| `InvoiceNumbering.DescriptionIsUnique` | zdrovena/audit/sections.py:320-365 | the description admits one result only |
| `InvoiceNumbering.OkMeansConsecutive` | zdrovena/audit/sections.py:315-317 | a series is ok if and only if its sorted numbers are first, first + 1, ..., last |
| `LocalSecretFallback.WriteThenRead` | zdrovena/common/_local_secret_fallback.py:113-166 | on files of any content, a newline-free value written reads back stripped, or missing when blank; every other key reads as before |
| `LocalSecretFallback.LastWriteWins` | zdrovena/common/_local_secret_fallback.py:155-166 | two writes leave the file the second alone would have left, even with duplicate lines |
| `LocalSecretFallback.NewlineFreeIsNeeded` | zdrovena/common/_local_secret_fallback.py:157-166 | for any two keys, a value with a line break can be read under the other key |
| `LocalSecretFallback.KeysDoNotOverlap` | zdrovena/common/_local_secret_fallback.py:126-129 | no line counts for two keys |
| `LocalSecretFallback.FirstLineDecides` | zdrovena/common/_local_secret_fallback.py:126-132 | the first line for the key decides what is read, whatever follows |
| `LocalSecretFallback.WriteTouchesOneLine` | zdrovena/common/_local_secret_fallback.py:157-164 | a write changes the first line for the key or adds one at the end, and leaves every other line as it stands |
| `LocalSecretFallback.OnlyEmptyLinesGo` | zdrovena/common/_local_secret_fallback.py:155 | before a write only empty lines are dropped |
| `LocalSecretFallback.ReadWritten` | zdrovena/common/_local_secret_fallback.py:126-164 | the same law on the list of lines |
| `LocalSecretFallback.SecretFile.ReadLocalFallback` | zdrovena/common/_local_secret_fallback.py:113-132 | the first line for the key decides; missing tooling, file or key all read as missing |
| `LocalSecretFallback.SecretFile.SetLine` | zdrovena/common/_local_secret_fallback.py:157-164 | overwrites the first line for the key or appends one |
| `LocalSecretFallback.SecretFile.WriteLocalFallback` | zdrovena/common/_local_secret_fallback.py:135-222 | refuses exactly without tooling, with an undecryptable file or a failed encryption, and then leaves the file as it was |
| `SecretsSync.UpdatesOverrideExactly` | scripts/secrets_sync.py:134-154 | the file parses to the old map overridden by the updates if and only if each updated key had at most one active line or the new value already |
| `SecretsSync.AppliedReads` | scripts/secrets_sync.py:134-154 | key by key, what every key reads after the updates |
| `SecretsSync.AppliedInPlace` | scripts/secrets_sync.py:142-151 | every line stays where it is, verbatim, unless it is the first active one of an updated key |
| `SecretsSync.AppendedExactly` | scripts/secrets_sync.py:152-154 | appended are exactly the updates that met no active line, in their order |
| `SecretsSync.StrippedParse` | scripts/secrets_sync.py:67-84 | stripping removes exactly the blocked keys and reports exactly those that were there |
| `SecretsSync.KeptOne` | scripts/secrets_sync.py:76-83 | a line is kept verbatim unless it is active with a blocked key, and then its key is reported |
| `SecretsSync.KeptConcat` | scripts/secrets_sync.py:76-84 | line by line, in order |
| `SecretsSync.SopsOnlyKeysStayOut` | scripts/secrets_sync.py:168-197 | for every file and any vault values, pull leaves no SOPS-only key in the plaintext file if and only if no line of a written value is active with a blocked key; decrypt never leaves one and loses no other |
| `SecretsSync.NewlineFreeIsClean` | scripts/secrets_sync.py:177-184 | values without line breaks under keys that are not blocked meet the condition |
| `SecretsSync.TwoLineValueCarries` | scripts/secrets_sync.py:182-184 | for every variable and every blocked key there is a two-line value that does not |
| `SecretsSync.EncryptMerges` | scripts/secrets_sync.py:279-303 | the merged file parses to the local values plus the snapshot's for the keys only it has |
| `SecretsSync.WrittenLineParses` | scripts/secrets_sync.py:122-131 | a written line yields its key and its stripped value |
| `SecretsSync.WrittenFileParses` | scripts/secrets_sync.py:115-119 | newline-free lines written to a file parse to what they parsed to before |
| `SecretsSync.ParseEnvMap` | scripts/secrets_sync.py:122-131 | later lines win; blanks, comments and other lines do not count |
| `SecretsSync.ApplyUpdates` | scripts/secrets_sync.py:134-154 | replaces the first active line of each key and appends the rest, other lines verbatim |
| `SecretsSync.StripSopsOnly` | scripts/secrets_sync.py:67-84 | the kept lines in order, and the dropped keys |
| `SecretsSync.KeysOnlyInSnapshot` | scripts/secrets_sync.py:247-258 | exactly the entries of the snapshot whose key the local file lacks |
| `SecretsSync.SecretFiles.Pull` | scripts/secrets_sync.py:168-197 | nothing without a vault; otherwise the stripped and updated file |
| `SecretsSync.SecretFiles.Decrypt` | scripts/secrets_sync.py:344-382 | fails without the tool, the snapshot or its decryption, leaving the file; otherwise writes the stripped snapshot |
| `SecretsSync.SecretFiles.Encrypt` | scripts/secrets_sync.py:261-341 | fails exactly where the command does, leaving the snapshot; otherwise the new one begins with the local text verbatim and holds every local value and, unless told to replace, every key only the old one had |
| `TableEntity.RoundTripIsExact` | zdrovena/common/shipping_store.py:53-83 | a record comes back unchanged if and only if it uses no reserved column and has no empty text or text of a dict or list |
| `TableEntity.RoundTripIsNormal` | zdrovena/common/damage_store.py:33-66 | otherwise it comes back in a normal form that no further round trip changes |
| `TableEntity.EntityIsFlat` | zdrovena/common/shipping_store.py:53-64 | an entity is keyed by partition and id and has neither an `id` column nor None or nested values; each column is the record's value, None as empty text, a dict or list as its text |
| `TableEntity.ReadBack` | zdrovena/common/shipping_store.py:67-83 | what each column is read back as, the table's own four left out |
| `TableEntity.MergeIsUpdate` | zdrovena/common/shipping_store.py:374-390 | merging a patch into the stored entity gives the entity of the updated record if and only if the patch has no `id` |
| `TableEntity.Serialize` | zdrovena/common/shipping_store.py:53-64 | the loop over the items computes the entity in any order of the items |
| `Pagination.FetchInvoices` | zdrovena/common/client.py:187-216 | against the slicing server the loop ends, returns the filtered list in order, and makes floor(n / per_page) + 1 requests |
| `Pagination.FiltersCombine` | zdrovena/fake_providers/fakturownia.py:36-53 | the chain of optional filters is the one filter that asks for all of them |
| `Pagination.FilterCounts` | zdrovena/fake_providers/fakturownia.py:36-53 | a filter keeps every occurrence of what it asks for and nothing else |
| `Pagination.FilterConcat` | zdrovena/fake_providers/fakturownia.py:36-53 | and keeps the order |
| `Pagination.FirstDifferenceDecides` | zdrovena/fake_providers/fakturownia.py:42-53 | dates are compared as texts: the first difference decides |
| `Pagination.NotAfterIsTotal` | zdrovena/fake_providers/fakturownia.py:42-53 | that order is total, so the date filters cut out an interval |
| `Pagination.EarlyPages` | zdrovena/fake_providers/fakturownia.py:54-55 | a page number below one asks for the first page |
| `Pagination.NextPage` | zdrovena/common/client.py:190-213 | a page continues the full ones before it; a short one completes the list and is the page after its last full one |
| `Pagination.PageBounds` | zdrovena/fake_providers/fakturownia.py:54-55 | a page continues where the earlier ones ended; it is short exactly at the end and empty exactly past it |
| `Retry.RetryRequest` | zdrovena/common/retry.py:99-136 | stops at the first answer; on persistent failure exactly n requests and n - 1 sleeps, each the jittered larger of delay and Retry-After |
| `Retry.SleepBound` | zdrovena/common/retry.py:36-40 | each sleep is within a fifth of max(Retry-After, initial * 2^k), and Retry-After does not disturb the doubling |
| `Retry.TotalBound` | zdrovena/common/retry.py:99-131 | the sleeps come to at least 0.8 and, where no server asks for longer, at most 1.2 times initial * (2^(n-1) - 1) |
| `Retry.UpperBoundIsExact` | zdrovena/common/retry.py:119-131 | at the largest jitter the upper bound is met with equality if and only if no Retry-After exceeded the current delay |
| `Retry.JitterBound` | zdrovena/common/retry.py:36-40 | a jittered delay is within a fifth of its base |
| `LockerSlots.FitIsCompleteExactly` | zdrovena/common/inpost.py:105-129 | the fit test passes every placeable parcel if and only if the slot is no higher than the shorter side of its floor |
| `LockerSlots.FitIsSound` | zdrovena/common/inpost.py:105-129 | a parcel that passes can be placed along the axes of the slot |
| `LockerSlots.SlotsOwnBoxIsRejected` | zdrovena/common/inpost.py:105-129 | any other slot turns away a box of its own size |
| `LockerSlots.RotationsSortAlike` | zdrovena/common/inpost.py:113-118 | the answer does not depend on which side is called length, width or height |
| `LockerSlots.SmallerFits` | zdrovena/common/inpost.py:105-129 | a parcel no larger and no heavier fits wherever the larger one does |
| `LockerSlots.PickPaczkomatTemplate` | zdrovena/common/inpost.py:132-142 | the first slot in order that passes |
| `LockerSlots.PickIsSmallest` | zdrovena/common/inpost.py:132-142 | all four outcomes exactly: the smallest slot the parcel can be put into, and none if and only if it goes into no slot or its middle side is longer than the large slot's width |
| `LockerSlots.FitsExactly` | zdrovena/common/inpost.py:105-129 | for every slot no higher than the longer side of its floor, the test passes exactly the placeable parcels whose middle side fits the shorter one |
| `LockerSlots.UnshippableGetsNone` | zdrovena/common/inpost.py:111-118 | a parcel too heavy or with a side missing gets no slot |
| `LockerSlots.HeightDecides` | zdrovena/common/inpost.py:95-102 | a box on the full 64 by 38 floor goes to the small slot up to 8 cm, the medium one up to 19, the large one up to 38 and to none above or over 25 kg |
| `LockerSlots.LargeBoxIsTurnedAway` | zdrovena/common/inpost.py:95-99 | a parcel that goes into the large slot and gets no slot |

## Left out

- HTTP, authentication, the Azure SDK, SOPS processes, file locking and atomic rename: one atomic step each, or an inverse pair.
- Corrupt or unreadable local files, and storage outages other than those named: they raise before anything is written.
- Fingerprints and UUIDs: given from outside; identifiers are fresh numbers, and a case id stands for a normalized tracking number.
- `AllegroRun.ConfirmShippingDraft`: does not model the InPost branch, or a failing checkpoint write; in the machine that is the step Stop.
- `AllegroRun.ExecuteDraft`: does not model the review fingerprint, the dead-letter entry or the pickup ordered in the same run.
- `AllegroDelivery.CheckpointsFormAPrefix`: is about runs, stops and status changes one after another; of runs that overlap `AllegroOverlap` counts the POSTs, not what their writes leave on the draft.
- `EmailProtocol.AtMostOneAcceptance`: does not model the early refusal before the claim, which only removes runs.
- `WebhookTable.AtMostOneWinnerExactly`: does not include `mark_seen`, an unconditional write, in the burst.
- `ShippingStores.OneLiveDraftPerOrder`: does not cover concurrent upserts on the table, which have no compare-and-set, or upserts whose lookups or deletes fail.
- `DetectedCases.ReplayIsHarmless`: does not cover two scanners folding into the same case at once; the merge there is unversioned.
- `DamageScans.NoLostNotification`: takes reads of the stored cursor as successful (a failed one starts over 30 days back), and does not model the mail search's own page and result caps, or the filtering of messages by sender and wording.
- `DamageScans.NobodyStarves`: takes the list of older drafts as fixed, as `list_drafts` gives it within its limit.
- `DraftMatchers.MatchProviderToDraft`: does not model the normalization of names and phones, malformed receivers, or dates that cannot be read; fields come normalized.
- `InvoiceNumbering.CheckNumbering`: returns a table, so the alphabetical order of the series is not modelled; Python's int() is given from outside.
- `SecretsSync.KeysOnlyInSnapshot`: does not model that the preserved keys are appended in sorted order; the merge law holds for any order.
- `SecretsSync.SopsOnlyKeysStayOut`: takes keys already turned into variable names.
- `TableEntity.MergeIsUpdate`: takes a stored record without columns named PartitionKey or RowKey, and the JSON codec as an inverse pair.
- `Pagination.FetchInvoices`: takes a list that does not change between requests, and extra parameters that are filters, not a page number.
- `Retry.TotalBound`: does not model floating-point rounding, or a Retry-After of infinity or not-a-number.
- `order_allegro_pickup`, its callers and cancellation: a second command protocol of the same kind, without per-parcel checkpoints; the pickup claim it starts from is modelled.
- InPost and Apaczka execution, `shipment_patch` and `dispatch_shipment_ids`, mock courier mode, tracking push and telemetry.
- `ALLOWED_TRANSITIONS`: no theorem claims that every write obeys the table, because confirmation writes `created` from `pending_confirmation`.
- Regex heuristics, PDF, user interface, quality and seed scripts, and error texts: input and output, or only easy members.

Nothing was executed: the table says what the verifier accepts about the model.
