# Bitcoin Lab, verified

This project models the parts of Bitcoin Lab that decide things: which eight
peers hold a manual slot, which pool announced a block first, which peer is
credited with a block, and how good a peer looks. Each part is a Dafny module
beside the JavaScript it follows, with the properties the code and its comments
rely on proved for every input, every run or every interleaving.

`dafny verify dfyconfig.toml` checks the whole project.

## How it is laid out

- **Manual slots.** `PeerTables` holds the rows. `AddProtocol` is the concurrent
  view of `addTrustedPeer`, `removeTrustedPeer` and `setKept`: a program counter
  per call in flight, cut at every await and at the write transaction, with
  everything a call read before its first await left to free choice. `PeerSync`
  is the same code as one call runs it, on mutable tables. `Reconcile` is the
  adopt-then-sync pass. `Rules` is the decision layer, `Rotation` the passes and
  the tick, `ParkedQueue` the fairness of probing, `SwapTermination` why swapping
  ends, `TickRuns` that the ticks themselves come to rest, `HolderRuns` what can cost a holder its slot over whole runs.
- **Stratum race.** `Prevhash` is the spelling of a block hash, `StratumRace` the
  state machine and its properties, `StratumWorker` the handlers that update it
  in place, `BlockLookup` finding a race from a block, `LineFraming` the client
  that feeds it.
- **Fast forms and their plain meaning.** `Sessions` (throttled writing), `Rollup`
  and `Pruning` (totals kept by triggers), `RecentWindow` (the cached and the
  sliding window), `StreamCount` (counting in a stream) and `JsonReply` (what is
  counted in).
- **Arithmetic.** `Score`, `Clock`, `Attribution`. `Address` is parsing, printing
  and comparing addresses. `Settings`, `Text`, `Basics` and `Wrappers` are shared.

Code that updates state in place is a class or a method held to a function of
the old state; the properties are lemmas about those functions. What comes from
outside (Core's answers, what is reachable, the clock, `JSON.parse`, what `URL`
makes of an IPv6 literal, square roots) is a parameter, quantified over.

## Where the code does not do what it says

- The write transaction of an add counts the rows again but does not look whether
  the peer it means to evict is still one. Two adds that settled on the same
  victim leave one row over the limit for good (`SameVictimTwiceBreaksTheCap`),
  after which every new add is refused (`OverTheCapNothingGetsIn`).
  `EvictionFitsIff` is the exact condition, `CapUnderInterleaving` what holds
  under it and `NeverTwoOver` what holds without it.
- The comment above `removeTrustedPeer` says a displaced peer keeps its
  connection. No caller asks for that; the code disconnects every time, as the
  comment in `promote.js` says it must.
- A setting of `NEW_MANUAL_PEER_GRACE_BLOCKS=0` still protects a new holder for
  one block, because the offset into the race table is never below zero.
- Two accepted settings make the gap between two probes no number, which compares
  false for ever, so that a parked peer is never probed again. With
  `PARKED_PEER_FULL_SPEED_PCT=0` that is a peer whose record is exactly 0 %, by
  0/0 (`NoRecordAtFullSpeedZero`). With `PARKED_PEER_MIN_PROBE_INTERVAL_MINUTES=0`
  it is any peer after 1024 failures, by zero times infinity (`NoMinimumRunsOut`).
  There is no third way (`EveryoneComesDueIff`).
- With `PARKED_PEER_MIN_RETENTION_DAYS=0` parking does not keep a retired holder
  whose record buys no time: each parking stamps its own clock reading, the pass
  that forgets the expired reads the clock again later in the same tick, and a
  peer with a record of 0 % is gone a millisecond after it was parked
  (`RetiredAndForgotten`). `Tick` has the exact condition for each peer; a minimum
  retention no shorter than the gap loses nobody (`NobodyIsLost`), and no setting
  but that one saves every record (`EveryRecordOutlastsIff`).
- The upsert that may correct a miss into a late result never does: in no run
  does any row change once written (`RowsAreFinal`), as its own scope note
  suspects.
- The streamed count of `"txid"` depends on how the reply is cut when two
  occurrences share a quote (`TxidCanOverlap`). In JSON they never do, so on every
  real reply the count is exact (`JsonIsCountedExactly`).
- A star set while an add has already settled on that peer does not protect it
  (`StarProtectsIff`).
- The JavaScript and the SQL host rule differ on a bare `:8333` and on text behind
  a bracketed host that is no port (`SqlAgreesIff`), and the key of an empty address, or of one bracketed twice,
  is not its own key (`KeyIsIdempotentIff`).

## Model

| member | source | states |
|---|---|---|
| `AddProtocol.NeverTwoOver` | src/lib/peer-sync.js:349-485 | Any number of adds, removals and padlock changes, interleaved at every await, never leave more than one row over the slot limit, with no hypothesis on victims. |
| `AddProtocol.CapUnderInterleaving` | src/lib/peer-sync.js:409-485 | After any interleaved run whose victims were rows when their slot was written, the table is within the limit whenever no evicting add stands between its insert and its delete. |
| `AddProtocol.EvictionFitsIff` | src/lib/peer-sync.js:416-471 | One evicting add run alone from a legal table is always let in, and ends within the limit if and only if there was room anyway, the address was already a row, or the victim was a row. |
| `AddProtocol.SameVictimTwiceBreaksTheCap` | src/lib/peer-sync.js:363-471 | From every full table, two evicting adds that settled on the same victim end one row over the limit with nothing pending that would remove it. |
| `AddProtocol.TwoAddsBreakTheCap` | src/lib/peer-sync.js:349-471 | From full slots and no call in flight, two adds of new addresses that both decide before either writes, and that Core accepts, end one row over the limit with nothing pending. |
| `AddProtocol.OverTheCapNothingGetsIn` | src/lib/peer-sync.js:416-419 | Once one row over, every add of a new address is turned away, so only a removal heals the table. |
| `AddProtocol.FailedAddsChangeNothing` | src/lib/peer-sync.js:391-452 | Along any interleaving, an add that has not gone through has changed no table by any action of its own. |
| `AddProtocol.TakesBackOnlyItsOwn` | src/lib/peer-sync.js:435-444 | An add that is about to take an addnode back got that entry accepted by Core itself, in this same call. |
| `AddProtocol.CommitTouches` | src/lib/peer-sync.js:416-433 | The write transaction either leaves the rows alone or had room and adds exactly one address, growing the table by one only for a new address. |
| `PeerTables.UpsertSize` | src/lib/peer-sync.js:420-431 | The upsert adds the address to the table's keys and grows it by one only if it was new. |
| `PeerSync.ManualPeers.FindSameNode` | src/lib/peer-sync.js:330-347 | Finds a row that leads to the same node under another spelling, or establishes that there is none. |
| `PeerSync.ManualPeers.AddTrustedPeer` | src/lib/peer-sync.js:322-493 | All or nothing, with a failed add leaving at most its own untaken addnode entry. With one row a node it goes through exactly if there is no other spelling, Core accepts, and the address is a row already, a slot is free, or the slots are exactly full and the caller names a victim or asks for room and some holder is neither starred nor in grace. Nobody goes while there is room; then the named peer goes, or else the lowest-scored unprotected holder. Afterwards, column by column: an old row keeps its join time and its star, a new one has the request's; no other row changes but the one that went, which is parked afresh exactly if it is offline, has a record and may be; Core lists the node and everything it listed but the displaced; a refused removal is remembered; and no node has two rows. |
| `PeerSync.ManualPeers.Dial` | src/lib/peer-sync.js:391-492 | From the addnode on: success exactly when Core is willing and the re-count fits, and then the same in every column; on failure rows and pending removals are untouched. |
| `PeerSync.VictimMakesRoom` | src/lib/peer-sync.js:349-373 | The decision before the first await says yes, and the transaction later has room, exactly in the cases above, and settles on the named peer or the weakest unprotected one. |
| `PeerSync.AloneIsTheCall` | src/lib/peer-sync.js:322-493 | One call of the interleaved protocol with nobody in between goes through in exactly the cases of the sequential add and leaves the same tables, list and pending removals; failing, it leaves at most its own entry when Core would not take it back. |
| `PeerSync.ManualPeers.ParkPeer` | src/lib/peer-sync.js:510-532 | Parks exactly a named peer with a record: its record and the time are new, no probe and no failure yet, the label of an earlier parking stays, and no other row changes. |
| `PeerSync.ManualPeers.RemoveTrustedPeer` | src/lib/peer-sync.js:578-597 | The row goes. If Core carries the removal out, its entry goes and no other; if it refuses, its list is as it was, the removal is remembered with its time, and what else is owed and younger than 24 hours still is. |
| `PeerTables.RefusedIsRemembered` | src/lib/peer-sync.js:561-594 | A refused removal is remembered with its time; everything else owed for less than 24 hours stays and nothing else does. |
| `PeerSync.ManualPeers.SetKept` | src/lib/peer-sync.js:623-631 | Changes the star of exactly one existing row and reports whether there was one. |
| `PeerSync.ManualPeers.OldestFirst` | src/lib/peer-sync.js:27-27 | Every row once, in order of joining. |
| `PeerSync.ManualPeers.AdoptExternalManualPeers` | src/lib/peer-sync.js:129-191 | The adoption loop computes the fold the reconciliation results are proved about, and hands on the list it was given. |
| `PeerSync.ManualPeers.SyncTrustedToAddnode` | src/lib/peer-sync.js:26-79 | The synchronisation loop computes its fold over the rows, oldest first. |
| `PeerSync.ManualPeers.AdoptThenSync` | src/lib/peer-sync.js:26-191 | With every call to Core succeeding, running both passes from a legal table reconciles our set with Core's list. |
| `Reconcile.AdoptionLeaves` | src/lib/peer-sync.js:103-191 | Adoption loses no row, keeps keys distinct and the table within the limit, adopts nothing with a live pending removal, and leaves in Core outside the set only what does not fit. |
| `Reconcile.OnePassReconciles` | src/lib/peer-sync.js:26-191 | One adopt-then-sync pass makes every manual peer an addnode entry, keeps keys distinct, adopts only what Core had and we had not dropped, and leaves over only entries beyond the limit. |
| `Reconcile.SecondPassChangesNothing` | src/lib/peer-sync.js:26-191 | After such a pass any later pass, whatever Core answers, changes nothing. |
| `Reconcile.RestartRebuildsTheSet` | src/lib/peer-sync.js:26-79 | From an empty list after a Core restart, adoption changes nothing and synchronisation lists exactly our own set again. |
| `Reconcile.RefusedRemovalStaysOut` | src/lib/peer-sync.js:146-163 | A peer removed while Core refused to drop it is not adopted back by any pass of the next 24 hours, whatever Core answers and however long it keeps listing it. |
| `Reconcile.RefusedRemovalIsRetried` | src/lib/peer-sync.js:146-163 | Each such pass tries the removal again: carried out, the entry is gone and nothing is owed; refused, both stay with the time of the first refusal. |
| `Reconcile.ForgottenAfterADay` | src/lib/peer-sync.js:164-176 | With room, an entry alone on Core's list whose removal is owed is taken on exactly once 24 hours have passed, and then with a star. |
| `Reconcile.SyncTriesEveryRow` | src/lib/peer-sync.js:26-79 | Whichever adds Core refuses, after synchronisation it lists every row it did not refuse; nothing it listed goes and nothing else comes. |
| `Reconcile.QueuedOnlyWhenFull` | src/lib/peer-sync.js:47-66 | However many rows there are, one that Core would have taken is left out only if the rows it listed before and the entries added since fill the slots; a refused add takes none. |
| `Rules.EvictableTrusted` | src/lib/peer-rotation/rules.js:49-55 | Keeps exactly the holders that are neither starred nor inside their grace. |
| `Rules.WeakestTrustedPeer` | src/lib/queries/peers.js:29-40 | Some holder exactly when there is one; of lowest score, a missing score counting as -1, and offline if any of the lowest is. |
| `Rules.BeatingIsOneWay` | src/lib/peer-rotation/rules.js:66-69 | Beating by more than the margin is asymmetric, irreflexive and transitive. |
| `Rules.OfflineForMs` | src/lib/peer-rotation/rules.js:92-99 | Nothing for a live peer, or one with neither time known; otherwise the shorter of the time since it was last seen and the time since it was added, as far as they are known. |
| `Rules.OfflineGraceMs` | src/lib/peer-rotation/rules.js:122-128 | The grace lies between the configured minimum and maximum. |
| `Rules.ParkedRetentionMs` | src/lib/peer-rotation/rules.js:161-167 | The retention lies between the configured minimum and maximum. |
| `Rules.BetterRecordsLastLonger` | src/lib/peer-rotation/rules.js:122-167 | A better record never buys a shorter offline grace or a shorter time in the parked table. |
| `Rules.GraceIsOver` | src/lib/peer-rotation/rules.js:122-128 | A time is long enough for the grace exactly if it is at least the maximum, or at least both the minimum and the hours the record buys. |
| `Rules.RetentionLasts` | src/lib/peer-rotation/rules.js:161-167 | A time is within the retention exactly if it is at most the maximum, and at most the minimum or the days the record buys. |
| `Rules.RecordBuysTime` | src/lib/peer-rotation/rules.js:122-167 | Between the bounds a record buys exactly its per cent times the configured hours of grace and days of memory. |
| `Rules.BetterRecordsAreKnockedOnSooner` | src/lib/peer-rotation/rules.js:145-150 | The cap on the probe interval stays between the two settings and never grows with the record. |
| `Rules.CapIsALine` | src/lib/peer-rotation/rules.js:145-150 | The cap on the probe interval runs in a straight line from the slow interval at no record to the fast one at the full-speed record, and stays there. |
| `Rules.FailuresDoubleTheGap` | src/lib/peer-rotation/parking.js:178-183 | With no failure the gap is the configured minimum, every further failure doubles it up to the cap, and from 1024 failures on it is the cap. |
| `Rules.DueStaysDue` | src/lib/peer-rotation/parking.js:178-183 | Waiting never makes a due peer less due. |
| `Rules.EveryoneComesDueIff` | src/lib/peer-rotation/parking.js:178-183 | A probed parked peer comes due again at some time exactly unless the full-speed setting is 0 and its record is exactly 0, or the minimum interval is 0 and it has failed 1024 times or more. |
| `Rules.NoMinimumRunsOut` | src/lib/peer-rotation/parking.js:178-183 | At a minimum interval of 0 an unanswering peer whose probe cap is a number (a positive full-speed setting or a positive record) is due at every moment until its 1024th failure and never after it. |
| `Rules.NoRecordAtFullSpeedZero` | src/lib/peer-rotation/rules.js:145-150 | At a full-speed setting of 0 a probed peer whose record is 0 is never due. |
| `Rotation.Candidates` | src/lib/peer-rotation/promote.js:37-76 | The candidates are exactly the outbound peers of the ranking that are not block-relay-only, not manual, dialable, with enough blocks and at least one first. |
| `Rotation.Rotation.LetIn` | src/lib/peer-rotation/promote.js:128-138 | An add that may displace exactly the peer it names: it is let in exactly if the tables admit it and Core accepts; refused, it changes no row; let in, it had room and the rows are those of the add, column by column. |
| `Rotation.Rotation.PromoteBestCandidate` | src/lib/peer-rotation/promote.js:34-152 | The first candidate of the ranking that can come in does, and nobody joins exactly if none can: one that Core accepts, that has no other spelling among the rows, and that finds a free slot or beats an unprotected holder by more than the margin. It displaces at most the weakest such holder, comes in without a star, and the displaced is parked exactly if offline and with a record. On a ranking sorted by score the candidates are, so no better one could have come in. With nothing refused and the slots full, no candidate left out beats anybody who may be displaced. |
| `Rotation.PromotedComesIn` | src/lib/peer-rotation/promote.js:87-138 | A promoted peer has no star unless its row had one, keeps the join time of an old row, is no longer parked, and only an offline displaced peer with a record is parked. |
| `Rotation.ReturnedComesIn` | src/lib/peer-rotation/parking.js:244-262 | The same for a parked peer that comes back, under its own label if it has one. |
| `Rotation.Rotation.Consider` | src/lib/peer-rotation/promote.js:78-150 | One candidate joins exactly if it can come in; it is passed over without a call only when the slots are full and it does not beat the weakest; it joins only as an add that had room. |
| `Rotation.Rotation.RetireOfflineManualPeers` | src/lib/peer-rotation/parking.js:78-120 | An address loses its row if and only if some holder of the ranking at it is offline, not both starred and once held, and offline by every known clock for at least its hours of grace, bought by its record between the bounds. Each of those with a record is parked afresh at its own clock reading; no other row, and no other parked one, changes. |
| `Rotation.RetireAllEffect` | src/lib/peer-rotation/parking.js:93-101 | Retiring takes out exactly those addresses, forgets no parked row, and parks every one of them that has a record, at the clock reading of its own parking. |
| `Rotation.RetiresIff` | src/lib/peer-rotation/parking.js:91-100 | The retiring rule said in the columns of the ranking and the settings, both directions. |
| `Rotation.Rotation.ProbeOrder` | src/lib/peer-rotation/parking.js:190-197 | Every parked row once, never probed first, then longest unprobed first. |
| `Rotation.Rotation.Knock` | src/lib/peer-rotation/parking.js:206-293 | One knock lets the peer in exactly if it answered, nobody else came in, Core accepts and there is a free slot or an unprotected holder it beats; it comes in without a star. Otherwise the row is stamped, with no failures if it answered and one more if not. |
| `Rotation.Rotation.KnockOnAll` | src/lib/peer-rotation/parking.js:203-295 | Over all knocks at most one peer comes in, and one does exactly if somebody knocked on answers and can; every other row knocked on is stamped with what it answered, and nobody else is touched. |
| `Rotation.Rotation.ReviveParkedPeers` | src/lib/peer-rotation/parking.js:161-296 | The expired are forgotten, the due ones are taken in probe order up to the limit (none through a proxy), at most one comes back, and one does exactly if somebody knocked on answers and can. |
| `Rotation.Rotation.ReviveOrPromote` | src/lib/peer-rotation/index.js:96-98 | Everybody knocked on is stamped with the time and the answer; a parked peer that answers and can come back comes before any promotion; and nobody joins only if no candidate can come in either. |
| `Rotation.RevivalIsAProbeTick` | src/lib/peer-rotation/parking.js:133-296 | A revival that parks nobody, whoever live it may displace, is one of the ticks of the no-starvation result, and a peer that answered never ends with more failures than it had. |
| `Rotation.Rotation.Tick` | src/lib/peer-rotation/index.js:77-100 | Off, a tick changes nothing. On, the rows afterwards are those of the holders that were neither overdue nor displaced, and of at most one that joined; nobody joins only if no parked peer knocked on and no candidate could come in, and a parked one goes first; what was knocked on is stamped and the expired are gone. A retired peer with a record that does not come back is parked afterwards exactly if the reviving pass's clock reading minus that of its parking is at most its retention, or it is the one displaced. After the retirements the set changes by one entry at most, into a free slot or that of the weakest evictable holder, which the newcomer beats. |
| `Rotation.NobodyIsLost` | src/lib/peer-rotation/parking.js:93-176 | With legal settings a tick loses no retired peer, whatever its record, if no parking lies further back than the minimum retention when the reviving pass reads the clock. |
| `Rotation.EveryRecordOutlastsIff` | src/lib/peer-rotation/rules.js:161-167 | A given gap between parking and reviving is outlasted by every record exactly if the minimum retention is no shorter. |
| `Rotation.RetiredAndForgotten` | src/lib/peer-rotation/parking.js:161-176 | At a minimum retention of 0, a holder whose record is 0 % is retired, parked and forgotten in one tick when a millisecond passes between its parking and the reviving pass. |
| `Rotation.PromotionIsAMove` | src/lib/peer-rotation/promote.js:77-151 | Every promotion is one of the moves whose runs are shown to end. |
| `Rotation.RevivalIsAMove` | src/lib/peer-rotation/parking.js:223-276 | Every revival is one of the moves whose runs are shown to end. |
| `ParkedQueue.DueIn` | src/lib/peer-rotation/parking.js:190-199 | The due ones are exactly those of the order that are due, each once. |
| `ParkedQueue.ForgottenIff` | src/lib/peer-rotation/parking.js:166-176 | A parked peer is forgotten exactly once it has been parked for longer than the days its record buys, between the bounds. |
| `ParkedQueue.ProbedIff` | src/lib/peer-rotation/parking.js:190-199 | A peer is probed exactly if it is due and fewer than k due ones come before it in the order. |
| `ParkedQueue.DueAfterTheGap` | src/lib/peer-rotation/parking.js:178-183 | Due is who was never probed, or was last probed at least its gap ago; a gap that is no number never passes. |
| `ParkedQueue.PassedOverMovesUp` | src/lib/peer-rotation/parking.js:190-199 | A due peer that a tick passes over keeps its row, and k others move from ahead of it to behind it. |
| `ParkedQueue.NobodyStarves` | src/lib/peer-rotation/parking.js:178-221 | With k probes a tick, time advancing and nobody newly parked, every due peer is probed, or forgotten by its own retention, within ceil(n/k) ticks. |
| `SwapTermination.DisplaceRaises` | src/lib/peer-rotation/rules.js:66-69 | Every displacement raises the holders' total score by more than the margin and keeps their number. |
| `SwapTermination.DisplacementsAreBounded` | src/lib/peer-rotation/promote.js:108-151 | However fills and displacements alternate, the number of displacements times the margin is at most 101 points per slot. |
| `SwapTermination.NoSetComesBack` | src/lib/peer-rotation/promote.js:77-151 | Even at margin zero no sequence of moves of any length returns to the set it started from. |
| `SwapTermination.MovesAreFinite` | src/lib/peer-rotation/promote.js:77-151 | At any margin, zero included, fills and displacements drawn from a pool of n addresses are together fewer than 2 to the n. |
| `SwapTermination.NoRevenge` | src/lib/peer-rotation/rules.js:66-69 | A displaced peer may not displace the one that displaced it. |
| `TickRuns.TicksAreMoves` | src/lib/peer-rotation/index.js:92-98 | Ticks in a row that retire nobody, under fixed scores, are a sequence of allowed moves from the first set to the last, with one displacement per eviction. |
| `TickRuns.ScoresArePercentages` | src/lib/score.js:121-131 | Scores computed from consistent records lie between 0 and 100. |
| `TickRuns.EvictionsAreBounded` | src/lib/peer-rotation/index.js:77-100 | Over any such ticks with the records as they stand, evictions times the margin are at most 101 points per slot. |
| `TickRuns.TicksDoNotReturn` | src/lib/peer-rotation/index.js:77-100 | Over any such ticks the set ends as it started exactly if it never changed. |
| `TickRuns.TicksStop` | src/lib/peer-rotation/index.js:77-100 | At any margin, with n addresses to draw from, such ticks change the set fewer than 2 to the n times. |
| `TickRuns.QuietTickIsAPass` | src/lib/peer-rotation/index.js:92-98 | What the tick promises when nobody retires is one step of those runs. |
| `HolderRuns.GraceIsCountedInBlocks` | src/lib/queries/peer-ranking.js:97-102 | Comparing a join time with the start of the grace is exactly asking whether no block, or fewer than the configured number, were recorded since. |
| `HolderRuns.GraceOverRuns` | src/lib/queries/ranking-row.js:153-153 | Over any run, from its joining until a holder may be displaced at least one block and at least the configured number are recorded. |
| `HolderRuns.CanDisplaceIff` | src/lib/peer-rotation/rules.js:49-55 | A holder may be displaced exactly if it has no star and at least one block and the configured number were recorded since it joined. |
| `HolderRuns.CanRetireIff` | src/lib/peer-rotation/parking.js:91-100 | A holder may be retired exactly if it is offline, not both starred and once held, and its grace is up since it joined and, if known, since it was last seen. |
| `HolderRuns.SlotIsLostIff` | src/lib/peer-sync.js:453-579 | In one event a holder loses its slot exactly by being displaced or retired when it may be, or removed. |
| `HolderRuns.StarHolds` | src/lib/peer-sync.js:422-430 | With choosing and deleting a victim one step, a starred peer that Core has once held as manual keeps slot and star through every run without its explicit removal or its own star control. |
| `AddProtocol.StarProtectsIff` | src/lib/peer-sync.js:349-471 | With the steps of an add apart, and however many rows there are, a star protects from now on, against every interleaving that neither removes nor unstars the peer nor settles on a starred one, if and only if no add in flight has settled on that peer already. |
| `HolderRuns.RetirementsAreApart` | src/lib/peer-rotation/rules.js:92-128 | Over any run a holder is retired no sooner than its grace after it was added, and two retirements of one address lie at least offlineGraceMinHours apart. |
| `HolderRuns.RunKeepsConsistent` | src/lib/queries/peer-ranking.js:97-102 | Along every timely run races stay in order and no recorded time lies in the future. |
| `Prevhash.SwapBytesInsideWords` | src/lib/prevhash.js:36-37 | The in-place loop over 4-byte slices leaves the array with every word's bytes reversed. |
| `Prevhash.ReverseWordOrder` | src/lib/prevhash.js:39-41 | The loop over words yields the hash with its words in reverse order. |
| `Prevhash.EncodingsOf` | src/lib/prevhash.js:31-51 | The procedure computes exactly the list of encodings the lemmas speak of. |
| `Prevhash.RearrangementsCommute` | src/lib/prevhash.js:36-49 | The rearrangements are each their own inverse, commute, and close into four. |
| `Prevhash.OrbitIsClosed` | src/lib/prevhash.js:31-51 | Every member of an orbit has the same orbit. |
| `Prevhash.EncodingsAreTheOrbit` | src/lib/prevhash.js:31-51 | The encodings of a hash are exactly the lower-case spellings of its orbit. |
| `Prevhash.SameSpellings` | src/lib/prevhash.js:31-51 | Two spellings of one block have the same set of encodings. |
| `Prevhash.CanonicalIsAnEncoding` | src/lib/prevhash.js:63-66 | The canonical form is one of the encodings and spells the same block. |
| `Prevhash.CanonicalDecides` | src/lib/prevhash.js:63-66 | Two texts have equal canonical forms if and only if they spell the same block (or are the same non-hash). |
| `Prevhash.CanonicalIdempotent` | src/lib/prevhash.js:63-66 | The canonical form of a canonical form is itself, for every text. |
| `Prevhash.CanonicalIgnoresCase` | src/lib/prevhash.js:63-66 | Case does not change the canonical form. |
| `BlockLookup.StratumForBlock` | src/lib/queries/blocks.js:77-86 | Finds a race under some encoding of the block, or there is none under any. |
| `BlockLookup.AnySpellingLeadsToTheRace` | src/lib/queries/blocks.js:77-86 | The key of a race is among the encodings tried if and only if the pool's spelling and the block's are of one block. |
| `BlockLookup.OnlyOneRaceToFind` | src/lib/queries/blocks.js:77-86 | In a table of canonical keys the only encoding that can be found is the canonical one, so the order of trying does not matter. |
| `StratumRace.AfterAnyRun` | src/stratum-race.js:205-426 | After any run from the start, restarts included: keys canonical, timers and open races in bijection, at most 10 open and 64 remembered, one row per race and pool with ranks distinct, rank 1 at latency 0 and latencies non-negative and non-decreasing in rank. |
| `StratumRace.RunKeeps` | src/stratum-race.js:205-426 | Every event keeps that invariant. |
| `StratumRace.RaceRecordsItsArrivals` | src/stratum-race.js:369-399 | While a race is open its rows are exactly its arrivals: the i-th distinct timed pool has rank i and the latency from the opener's arrival. |
| `StratumRace.OpenerIsZero` | src/stratum-race.js:347-374 | Whoever opens a race holds rank 1 at latency 0. |
| `StratumRace.NewsOpensARace` | src/stratum-race.js:309-374 | A job from a pool connected before, for a block with no race open, recent or on file and fewer than ten open, opens a race: its own id and timer, started at that reading, the announcer alone in it and, if on file, with rank 1 at latency 0; the block is remembered and nothing else changes. |
| `StratumRace.OnlyNewsOpens` | src/stratum-race.js:284-340 | No other job opens one. |
| `StratumRace.ReportIsRanked` | src/stratum-race.js:369-399 | The first job of a further pool takes the next rank and the time since the opening; a repeated one changes nothing. |
| `StratumRace.LatecomerIsNeverCharged` | src/stratum-race.js:292-303 | A pool whose first job after connecting comes while a race is on is never charged a miss in it, in any run of events that follows. |
| `StratumRace.RecentIsARing` | src/stratum-race.js:104-110 | The recently seen hashes are the last 64 different ones, oldest first. |
| `StratumRace.RowsAreFinal` | src/stratum-race.js:86-98 | Over any run, process restarts included, no row once written changes, result or miss, while its pool exists. |
| `StratumRace.TimeoutChargesExactly` | src/stratum-race.js:205-241 | A timeout closes the race and writes a miss for exactly the watched pools on file that were neither timed nor excused, changing no other row. |
| `StratumRace.JobsAreIsolated` | src/stratum-race.js:278-399 | A job for one key leaves every other open race, its timer and its rows unchanged. |
| `StratumRace.CatchUpJobIsNotTimed` | src/stratum-race.js:286-307 | The first job after a connect opens no race, writes no row and takes no rank. |
| `StratumRace.NoBlockIsRacedTwice` | src/stratum-race.js:309-366 | Over any run, process restarts included, a key whose race is over is never raced again and gets no further row, remembered in the ring or not. |
| `StratumRace.ShutDownReleases` | src/stratum-race.js:415-426 | Shutting down empties open races and timers, writes nothing, and twice is once. |
| `StratumRace.FireClosesAndCharges` | src/stratum-race.js:205-210 | A timer closes the race it was set for, because its key is its own canonical form. |
| `StratumWorker.Worker.RememberPrevhash` | src/stratum-race.js:104-110 | Adds at the end unless present, and drops the oldest beyond 64. |
| `StratumWorker.Worker.InsertReport` | src/stratum-race.js:90-95 | The guarded upsert: a timed row stays, a deleted pool gets none. |
| `StratumWorker.Worker.FinalizeRace` | src/stratum-race.js:205-241 | The loop of single inserts leaves exactly the closed state with its misses. |
| `StratumWorker.Worker.HandleNotify` | src/stratum-race.js:278-399 | A job opens a race, as above, exactly if its pool was connected before, its block is news and fewer than ten races are open; a first job after connecting excuses its pool from an open race; and the handler leaves exactly the state of the notify function. |
| `StratumWorker.Worker.AbandonOpenRaces` | src/stratum-race.js:415-418 | Clears every open race's timer and then all races. |
| `StratumWorker.Worker.ShutDownRace` | src/stratum-race.js:422-426 | Leaves exactly the shut-down state. |
| `LineFraming.StratumPoolConnection.OnConnect` | src/lib/stratum-client.js:112-115 | A new connection starts with an empty buffer and no jobs counted. |
| `LineFraming.StratumPoolConnection.OnChunk` | src/lib/stratum-client.js:186-206 | The loop takes off every complete line of buffer and chunk in order, keeps what follows the last newline, and drops it if it is over the limit. |
| `LineFraming.LinesAre` | src/lib/stratum-client.js:186-197 | The lines of a text are what stands before each newline, trimmed, the blank ones left out; what stands behind the last newline is kept. |
| `LineFraming.StratumPoolConnection.OnLine` | src/lib/stratum-client.js:208-244 | A mining.notify with nine parameters or more and 64 hex digits as the second is passed on with its arrival time, counted, and flagged if it is the first of the connection; nothing else counts as a job, the answer to the second request says whether the pool accepted us, malformed text changes nothing, and the buffer is left alone. |
| `LineFraming.JobsAreHandled` | src/lib/stratum-client.js:208-234 | The same of the function the stream results are proved about. |
| `LineFraming.FramingIgnoresCuts` | src/lib/stratum-client.js:186-197 | However a stream is cut into chunks, if no unterminated stretch exceeds the limit the outcome is that of its non-empty trimmed lines in order, each stamped with its newline's arrival, and the buffer is what follows the last newline. |
| `LineFraming.CutsDoNotMatterIff` | src/lib/stratum-client.js:186-206 | Every cut of a stream gives that outcome if and only if no unterminated stretch of it is over the limit. |
| `LineFraming.AlwaysFlaggedAndBounded` | src/lib/stratum-client.js:112-234 | Over any sequence of connects and chunks the buffer is within the limit and firstAfterConnect marks exactly the first valid notify of each connection. |
| `Text.TrimIsTight` | src/lib/stratum-client.js:190-190 | Trimming removes only blanks, at both ends, and leaves none there. |
| `Sessions.ThrottleRefinesAlwaysWriting` | src/peer-profiler.js:50-212 | Over any polls of distinct addresses the table with skipped writes equals the one always written in every column but the last ping, which is less than the drift away. |
| `Sessions.OneOpenSessionPerConnectedPeer` | src/peer-profiler.js:94-211 | After a poll there is exactly one open session for each connected address and none for any other. |
| `Sessions.MinPingIsARunningMinimum` | src/peer-profiler.js:172-190 | Over any polls a session's lowest ping is the minimum of what it had and everything heard from that session. |
| `Sessions.ReconnectLeavesNoOverlapIff` | src/peer-profiler.js:117-122 | A detected reconnect closes the old session, and no later than the new one starts exactly when the reported start does not precede the old one's. |
| `Sessions.PollPolls` | src/peer-profiler.js:94-211 | The same of the poll function the results over many polls are proved about. |
| `Sessions.Profiler.UpsertSessions` | src/peer-profiler.js:76-212 | From a table with one open row an address and a snapshot of distinct addresses: a row whose connection is still there, by Core's id or a start within a second, goes on with what was reported, its lowest ping lowered and its last within 5 ms; a gone peer's row ends now, a reconnected one's at the start of the new connection within its own start and now; ended rows stay as they are; every other address gets a new row; and the table is the throttled poll's. |
| `Sessions.Profiler.CloseGoneSessions` | src/peer-profiler.js:112-128 | The first loop ends exactly the sessions whose peer is gone or has reconnected. |
| `Sessions.Profiler.RecordReadings` | src/peer-profiler.js:148-211 | The second loop updates what is open and changed, and inserts what is new. |
| `Attribution.AlwaysCreditedIff` | src/relay-profiler.js:72-77 | A deliverer is credited wherever in its second it falls if and only if the effective offset is between -1501 and 1000 ms. |
| `Attribution.EverCreditedIff` | src/relay-profiler.js:72-77 | It can be credited at all if and only if the offset is above -2501 and below 2000 ms. |
| `Rollup.InsertIsExact` | src/lib/db.js:186-194 | The insert trigger keeps every total equal to the count and sum of the rows. |
| `Rollup.DeleteIsExact` | src/lib/db.js:196-202 | The delete trigger keeps it. |
| `Rollup.UpdateIsExact` | src/lib/db.js:204-210 | The update trigger keeps it. |
| `Rollup.RecordRaceKeeps` | src/relay-profiler.js:120-162 | Recording a race keeps totals exact, references whole, and credits at most one peer per race. |
| `Rollup.RecordRaceWrites` | src/relay-profiler.js:131-158 | A new race has a row for every peer seen, and its totals one more; the one whose last block matches is credited if it is the only match, and otherwise nobody is; no other row or total changes and the number of matches is recorded. |
| `Rollup.CreditedIsAlone` | src/relay-profiler.js:131-151 | Matching in a race that is not unclear is being the only match. |
| `Rollup.PruneOldKeeps` | src/lib/queries/maintenance.js:40-69 | The feeler prune touches no row and no total, and leaves no reference to a deleted peer. |
| `Rollup.FeelersGo` | src/lib/queries/maintenance.js:40-63 | A peer goes exactly if it was never counted, is not manual and has only sessions that ended before the cutoff; of such a never counted, not manual peer exactly the sessions ended before the cutoff go, of others none. |
| `Rollup.RemovePeersIsExact` | src/lib/queries/maintenance.js:111-114 | Removing peers keeps totals exact and changes no other peer's total. |
| `Rollup.RemovingNeverFirstKeepsCredits` | src/lib/queries/maintenance.js:111-114 | If those peers never had a first, no race loses or changes its credited peer. |
| `Rollup.ResetKeeps` | src/lib/db.js:837-874 | Reading back the manual table, a reset leaves no observation, total, race or parked peer, only manual sessions, no dangling reference, and exactly the manual peers on file. |
| `Rollup.ResetKeepsManualPeers` | src/lib/db.js:844-867 | A manual session survives a reset exactly when its peer is a manual peer, which keeps its row. |
| `Rollup.RebuiltIsExact` | src/lib/db.js:788-797 | A rebuild makes the totals exact whatever they were, and changes none that was. |
| `Pruning.Store.RecordRaceTx` | src/relay-profiler.js:131-161 | A block already recorded changes nothing. A new one, seen by distinct addresses, has a row for each of them in a race of its own; a peer is flagged exactly if it matches and no other does, its first total rises by one exactly then, every total of eligible blocks by one, and nothing else changes. |
| `Pruning.Store.Pick` | src/lib/queries/maintenance.js:87-100 | Picks at most 500 prunable peers, and none only if none is left. |
| `Pruning.Store.Budget` | src/lib/queries/maintenance.js:102-109 | Takes the front of the pick: one peer at least if there is any, more only while their totals stay within 20,000, and all that do. |
| `Pruning.BudgetCoversTheRows` | src/lib/queries/maintenance.js:80-111 | With exact totals, the observation rows of the peers taken are no more than the totals they were budgeted with. |
| `Pruning.PruningIsExact` | src/lib/queries/maintenance.js:87-114 | The same of the removal the credit and total results are proved about. |
| `Pruning.Store.DeleteRowsOf` | src/lib/queries/maintenance.js:111-111 | Deleting row by row with the trigger leaves exactly the other peers' rows and totals. |
| `Pruning.Store.PruneNeverFirstPeers` | src/lib/queries/maintenance.js:85-123 | Nothing is left of the removed peers and everything of the others is; whoever was removed had no reason to stay (manual, parked, never counted, a first, known only lately, a session open, outbound or recent, or there for a recent block); and it either ends with everybody left having one, or has removed one peer a step. |
| `Pruning.PruningIsInvisible` | src/lib/queries/maintenance.js:85-123 | Pruning changes no surviving peer's total and no race's credited peer. |
| `Pruning.TotalsAlwaysMatchRows` | src/lib/db.js:180-210 | Under every sequence of recordings, edits, deletes, prunes, resets and rebuilds the totals are the rows counted and no row lacks its peer. |
| `Pruning.EachRaceCreditsAtMostOne` | src/relay-profiler.js:131-157 | Under every such sequence without a manual edit of a flag, no race credits two peers. |
| `RecentWindow.Backtest.FoldIn` | scripts/backtest-score.js:141-149 | Folding a race in keeps the lifetime counters a count of all races and the window's a count of the newest N. |
| `RecentWindow.Backtest.Replay` | scripts/backtest-score.js:105-150 | After a whole replay both are exact recounts. |
| `RecentWindow.RankingWindow.RecentRelayStats` | src/lib/queries/peer-ranking.js:61-81 | In append-only histories the answer, cached or not, is a recount of the newest N races. |
| `RecentWindow.GroupingCounts` | src/lib/queries/peer-ranking.js:55-59 | The grouped query yields each present peer's counts and no other entry. |
| `StreamCount.StreamingCounter.OnData` | src/lib/rpc.js:206-213 | After every chunk the tail is the last min(n-1, seen) bytes and the hits are those of the chunks so far. |
| `StreamCount.CountIn` | src/lib/rpc.js:211-211 | The search loop counts the hits found left to right without overlap. |
| `StreamCount.NoneLostAtTheSeam` | src/lib/rpc.js:191-213 | The occurrences in what was seen plus a chunk are those seen before plus those in kept tail and chunk together. |
| `StreamCount.ExactIffNoOverlaps` | src/lib/rpc.js:194-213 | Every way of cutting a reply counts every occurrence exactly once if and only if no two occurrences overlap. |
| `StreamCount.ByteByByteCountsAll` | src/lib/rpc.js:194-213 | Delivered byte by byte, every occurrence is counted, overlapping or not. |
| `StreamCount.CutDoesNotMatterIff` | src/lib/rpc.js:194-213 | The count is the same for every cut if and only if no two occurrences overlap. |
| `StreamCount.StreamingNeverOvercounts` | src/lib/rpc.js:194-213 | No cut ever counts more than there are. |
| `StreamCount.TxidOverlapsByOneQuote` | src/lib/rpc.js:195-197 | Two overlapping occurrences of "txid" in quotes share exactly one quote. |
| `StreamCount.TxidCanOverlap` | src/lib/rpc.js:195-213 | There is a text, no JSON, on which the count of that needle does depend on the cut. |
| `JsonReply.ReadableHasNoOverlaps` | src/lib/rpc.js:195-197 | In a text whose strings are closed before anything but a blank or a separator follows, no two occurrences of the needle overlap. |
| `JsonReply.JsonIsCountedExactly` | src/lib/rpc.js:194-213 | On every JSON text, however it is cut, every occurrence of "txid" in quotes is counted exactly once. |
| `Clock.RpcClock.RecordClockSample` | src/lib/rpc.js:66-77 | The ring is the last 20 of all samples taken; a missing or unreadable date adds none. |
| `Clock.RpcClock.ClockOffset` | src/lib/rpc.js:85-94 | Nothing exactly before the first sample; otherwise the number of samples up to 20, the time of the last, the largest round trip and the rounded median of those. |
| `Clock.HonestSamplesAreGood` | src/lib/rpc.js:66-76 | A whole-second date written between sending and receiving gives a sample within half a second plus half the round trip of the true offset. |
| `Clock.EstimateIsRight` | src/lib/rpc.js:85-94 | With a minority of arbitrary samples the estimate keeps that bound, for the largest round trip plus rounding. |
| `Clock.WithstandsIffMinority` | src/lib/rpc.js:85-94 | The bound withstands any b arbitrary samples out of n if and only if b is less than half of n. |
| `Score.BoundSolves` | src/lib/score.js:39-49 | The bound is the root, between 0 and the rate, of the Wilson equation, and zero only at rate zero. |
| `Score.WilsonBounds` | src/lib/score.js:39-49 | The clamp never fires; the bound is at least 0, below 100, at most the raw rate, equal to it or zero only without a success. |
| `Score.MoreSuccessesRankHigher` | src/lib/score.js:39-49 | At equal trials one more success strictly raises the bound. |
| `Score.MoreTrialsRankHigher` | src/lib/score.js:39-49 | At an equal positive rate more trials strictly raise the bound. |
| `Score.ScoreIsABlend` | src/lib/score.js:121-131 | None exactly without a record; otherwise between recent and lifetime bound, within 0 to 100, and the recent bound alone once the window is full or over-full. |
| `Score.ScoreWeighs` | src/lib/score.js:121-131 | Short of a full window the recent record weighs as many parts as it has blocks and the lifetime record the missing ones. |
| `Score.ScoreIsZeroIff` | src/lib/score.js:121-131 | The score is zero exactly with no recent first and either no first at all or a full window. |
| `Score.DeliveriesRaiseTheScore` | src/lib/score.js:121-131 | More firsts never lower the score, and raise it exactly where the count still weighs. |
| `Address.PrintThenParse` | src/lib/address.js:28-51 | Parsing a printed address gives back its host and port, for any host without brackets and line breaks and any port of up to five digits. |
| `Address.PrintedHost` | src/lib/address.js:61-95 | Both the host function and the SQL expression recover the host from every printed address. |
| `Address.HostInBrackets` | src/lib/address.js:61-95 | Both recover a bracketed host with or without a port. |
| `Address.SqlAgreesIff` | src/lib/address.js:61-95 | On every text the two rules agree exactly when it has no closing bracket and is not a colon with only digits behind it, or its first closing bracket ends a bracketed host, or it is a lone closing bracket, alone or with a port. |
| `Address.SqlDisagrees` | src/lib/address.js:61-95 | Two texts on which they differ: a bracketed host followed by a word for a port, and a port alone. |
| `Address.KeyIsIdempotentIff` | src/lib/address.js:164-175 | Given an idempotent IPv6 normaliser, the key of a key is itself exactly when its host is one a second parse finds again: no line break, and if no colon, non-empty, not starting blank and not bracketed. |
| `Address.KeysMeetIff` | src/lib/address.js:164-175 | Two printed addresses have one key exactly if their ports are equal and their hosts have one IPv6 normal form or the same lower-case letters. |
| `Address.BareIsOnTheDefaultPort` | src/lib/address.js:164-175 | A host without a port has the key of that host on the default port. |

## Left out

- Sockets, TCP probes, ZMQ and the JSON-RPC transport: their outcomes are parameters or free choices.
- Live connections: `disconnectIfLiveNonManual`, `dropDuplicateInboundSessions`, the disconnect after a removal and `kick.js` change sessions in Core and none of the tables modelled here.
- Read-only mode, which mirrors Core's list into the table and otherwise writes nothing.
- A failed `getaddednodeinfo`, which skips the whole pass.
- An adopt pass interleaved with other writers: adopt-then-sync is one step here, as its row count and its pending removals are read once.
- Database errors other than the foreign-key failure of a row for a deleted pool; SQLite's planning, locking, VACUUM and migrations.
- Deletion of old Stratum race rows (by age, or empty ones with their pool): race rows are taken as kept, which is what makes a finished key stay finished.
- The rotation's labels, log entries and `promoted_peer`; labels are fixed texts. `parkedScore` is a parameter of the revival.
- The copy of the manual set that `reviveParkedPeers` edits after letting a peer in: nothing reads it afterwards in that tick, because at most one peer comes in.
- Schema, settings parsing, HTTP routes, the browser code, and the display aggregates `stratumRanking`, `routeMedian`, `outboundFunnel` and `unclearFirsts`.
- `coreRestarted` and `isCatchingUp`: one comparison each.
- Decoding a chunk's bytes to text: a character of several bytes split between two chunks is decoded differently by the source. The framing results are about the decoded text.
- What else the backtest computes from its counters: the score variants and the rank statistics.
- Several clock readings inside one add (its row, the pending removal, the parking of whoever it displaces) are one reading; those of a tick's passes and of each parking are apart.
- What changes between the two rankings of a tick other than the tables: both are the same function of the tables.
- PeerSync.ManualPeers.AddTrustedPeer: when it goes through is stated for a table with one row a node, which every add keeps; two rows of one node can only come of interleaved adds, and then which of them the search finds is left open.
- Rotation.Rotation.PromoteBestCandidate: who can come in is stated for one row a node and a ranking whose holders all have rows; with Core's own manual connections among the holders the other results still hold.
- Pruning.Store.RecordRaceTx: who is credited is stated for distinct addresses, as Core reports them.
- Address.KeyIsIdempotentIff: takes what `URL` accepts in brackets to be IPv6 literals only; a text with an `@`, the part before which `URL` reads as user info, is not covered.
- Floating point: percentages, scores and pings are exact reals; latencies are whole nanoseconds and not milliseconds. `Math.sqrt` is taken as exact.
- Lower-casing outside ASCII letters.
- Score.WilsonBounds: is stated for at most as many successes as trials, which the counts always are (`RecentWindow` and `Rollup` keep first within eligible); beyond that the source takes the root of a negative number.
- SwapTermination.DisplacementsAreBounded: says nothing at a margin of exactly 0, where `SwapTermination.MovesAreFinite` bounds the moves instead.
- HolderRuns.StarHolds: takes choosing and deleting a victim as one step; `AddProtocol.StarProtectsIff` is the exact condition when they are apart.
- Clock.EstimateIsRight: takes the true offset as constant over the 20 samples.
- Attribution.AlwaysCreditedIff: whole-millisecond offsets and moments at least five seconds after 1970.
