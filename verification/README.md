# A model of mero-kms and its attestation scripts

mero-kms is a key-release service that runs as several replicas in Intel TDX trust
domains. The replicas share one root secret that exists in memory only, keep rollback
counters by quorum, hand the root on to replicas that measure the same as themselves,
and release keys to attested nodes. Beside it stand scripts that compute what a TD should
measure. This project models those parts in Dafny and proves what they are for.
`dafny verify dfyconfig.toml` checks all of it.

## What is modelled

- **Rollback counters** (`CounterViews`, `CounterReplica`, `CounterProtocol`, `CounterInvariant`,
  `CounterSteps`, `CounterFinish`, `CounterReplace`, `CounterTheorems`, `GenesisGap`,
  `GenesisCondition`, `BringUp`, `BringUpEnds`, `SyncGap`, `CounterCalls`, `KeyOrder`, `Counters`,
  `CounterRefinement`, `RollbackCalls`, `RollbackHandler`). A step system of n >= 2 slots whose replicas crash
  and are replaced by empty ones. Rounds start, are answered and finish in separate
  steps; every request and answer ever sent can be delivered again or never. The
  invariant is kept by every step, and the theorems are about every run. Class
  `Counters.Counters` is one replica with its fields and loops; each of its methods is
  proved to do what the functions of `CounterReplica` and `CounterCalls` say, and
  `CounterRefinement` proves that these calls begin and end as steps of `CounterProtocol`. A
  cluster of one appears in the class and its calls only. `RollbackHandler.Answer` runs the
  class.
- **The cluster join** (`JoinNonces`, `ClusterJoin`, `ClusterJoinTheorems`, `Backend`). A step
  system in which the network and everybody else's TDs do as they like. What a quote
  commits to is the byte string `Framing` prints, so domain separation is proved, not
  assumed. `Backend.TdxBackend` is the handler and the root slot.
- **Challenges and key release** (`Challenges`, `KeyRelease`, `Policy`, `KeyPaths`, `PeerIds`).
  Tokens any replica can check, the spent map, the `/get-key` pipeline, the measurement
  policy, and the key namespaces.
- **Framing** (`Framing`, `SessionInfos`, over `Text`). Every hashed, MACed or expanded byte
  string, in one printer with one injectivity theorem, and exactly when the one string
  without a domain reads like another.
- **Measurements** (`Binary`, `EventLog`, `Registers`, `Authenticode`, `PeImages`, `CanonicalJson`, `JsonText`). The event
  log parser and replay, the comparisons, the PE image hash walk, and the canonical
  JSON printer.

## Conditions written as guards

The counters rely on their environment, and the steps say so:

- At most one live replica per slot. A round's replies are one per address
  (`OneReplyPerSlot`), or, with any routing, no two incarnations of a slot answer one round
  (`OneIncarnationPerSlot`); from either, one answer per slot (`Heard`) is proved.
- A replica that answered a write round is not replaced before that round ends
  (`AnsweredARunningWrite`). Rounds are bounded by `PEER_TIMEOUT` (mero-kms/src/counters.rs:54).
- No replica is replaced while genesis is alive (`GenesisAlive`): while a live replica
  reports it, or an answer that reports it can still reach the open sync it was made for.
- A read takes its starting view and draws its nonce in one step.
- The step system starts with slot 0 bootstrapped and every slot's replica holding the
  root.

The join relies on hardware: a quote with a known image's registers, no debug bit and a
TCB status that the images' policies allow comes from a TD that runs that image
(`Trusted`, `ForeignQuoteStep`).

## What the proofs found

- **Genesis can come back.** Waiting for live replicas to stop reporting genesis before
  replacing one is not enough: a sync answered before genesis ended may finish after it
  and report genesis anew. `GenesisGap` is such a run of three replicas, at the end of
  which an acknowledged write is missing from a ready replica of a slot that took it.
  With the guard above it cannot happen (`AckedWriteIsHeld`, `GenesisEndsForGood`), and that
  guard is the weakest: it holds up a replacement exactly while genesis can still be
  reported (`GenesisCondition`).
- **A sync that hears everyone can fail**, while genesis runs and nothing was replaced or
  written. In `SyncGap` five replicas start at once, and one that hears all four others
  stays unready, because two answers are older than what their senders
  have become and one ready replica is already out of genesis. `SyncSucceedsIff` is the exact
  condition. When it fails, a majority is ready, so the next attempt succeeds: two are
  always enough (`TwoSyncsAreEnough`), and bring-up ends on every schedule
  (`EveryScheduleEnds`).
- **A nonce or challenge spent after its expiry can be spent again.** Expiry is checked when
  a request is opened, and expired entries are forgotten when one is spent. A request
  opened in time and spent late is accepted once more, so the promise of a single use
  (mero-kms/src/cluster.rs:380-381) holds up to the expiry only.
  `UsedAgainIffExpired` and `NonceSpentAgainIffExpired` say exactly when for the maps,
  `ReleasedAgainIffExpired` and `GivesAgainIffExpired` for the services in every run;
  `OneReleasePerChallenge` and `OneRootPerNonce` are what remains true.
  `SpentTwiceAfterItsExpiry` is an instance, and by
  `AnyNonceCanGiveTwice` so is every join spent by its nonce's expiry.
- **`diff` over all registers does not look at the register.** Two logs whose events differ
  only in the register they went to show no difference, and replay to different
  registers (`NoDifferenceDespiteTheRegisters`). Restricted to one register it is sound.
  Over all of them it is so exactly when each register's own digests agree
  (`NoDifferenceReplaysAlikeIff`), which does not need the events to pair up register by
  register (`SwappedRegistersReplayAlike`).
- **A session's key info is not separated from the other messages by its text.** It reads
  like a message exactly when its key path starts with that kind's domain and goes on in
  its shape (`InfoReadsAsIff`); for 7 kinds that never happens, for 15 some configuration
  that loads makes it happen (`EveryOtherKindCollides`), with the default prefixes it does not.
  It is separated by its key: the info is expanded under a salt of its own
  (mero-kms/src/backend.rs:41-42).
- The comment on the handler (mero-kms/src/handlers/get_key.rs:96-103) says that a challenge
  is consumed before the signature and the quote are checked. The code consumes it after
  (mero-kms/src/handlers/get_key.rs:194); the model follows the code.

## Model

| member | source | states |
|---|---|---|
| `CounterViews.JoinAllIsLeastUpperBound` | mero-kms/src/counters.rs:82-102 | merging any views into a view yields the least view above all of them |
| `CounterViews.FoldSucceedsIffUnionFits` | mero-kms/src/counters.rs:482-491 | folding views into a within-limit view succeeds exactly when the union of their node ids fits the node limit, and gives their join |
| `CounterViews.FoldOrderDoesNotMatter` | mero-kms/src/counters.rs:482-491 | two orders of the same views both succeed or both fail, and give the same view |
| `CounterViews.LeIsAntisymmetric` | mero-kms/src/counters.rs:82-102 | two views that each hold everything the other does are the same view |
| `CounterViews.MergeClusterRefuses` | mero-kms/src/counters.rs:112-125 | a refused merge changes nothing but for an empty cluster it may have added, and that only for an update over the node limit |
| `CounterViews.MergeRefusedIff` | mero-kms/src/counters.rs:80-125 | a merge is refused exactly by a new cluster past 10 000, or by more than 1024 node ids in one |
| `CounterViews.MergeClusterOnlyRaises` | mero-kms/src/counters.rs:112-125 | whatever a merge does, no value in the map goes down and both limits still hold |
| `CounterReplica.ReplyGrows` | mero-kms/src/counters.rs:308-364 | answering a peer never lowers a value, never takes back `ready` or `formed`, and shows the replica's state after it |
| `CounterReplica.ReplyShowsTheView` | mero-kms/src/counters.rs:316-331 | an answer carries the replica's whole view of what was asked, and of any other cluster nothing |
| `CounterReplica.ReplyTookTheWrite` | mero-kms/src/counters.rs:333-353 | an answer to a write means that the answerer then holds the join with this very update |
| `CounterReplica.FoldedViewIsTheJoin` | mero-kms/src/counters.rs:482-491 | a read's folded view is above the view it started from and every answerer's, below every common bound, and within the node limit |
| `CounterReplica.WriteSucceedsIff` | mero-kms/src/counters.rs:519-534 | a write returns the join of its view and the counted answers' views exactly when enough others took it and the join fits the limits, and fails otherwise |
| `CounterReplica.ReadSucceedsIff` | mero-kms/src/counters.rs:460-491 | a read forms the cluster exactly when it was formed, an answer says so or everyone answered ready; it returns the join exactly when formed, with enough ready answers, and within the limits |
| `CounterReplica.MajorityIsLeast` | mero-kms/src/counters.rs:291-293 | a majority is the smallest number above half: 2 of 3, 3 of 4, 3 of 5 |
| `CounterReplica.SyncSucceedsExactly` | mero-kms/src/counters.rs:591-626 | on any answers: a sync succeeds from a majority of ready ones whose maps fit, or, short of it, when some answer is ready, every ready one is in genesis, unformed and without a single counter, and none says formed; and what it then holds |
| `CounterReplica.InstallGrows` | mero-kms/src/counters.rs:487-489 | keeping what a majority knew raises one cluster by exactly that join, or changes no view |
| `Counters.MergeClusters` | mero-kms/src/counters.rs:80-102 | the merge loop returns the join, or nothing when the union of node ids passes the limit |
| `Counters.Counters.constructor` | mero-kms/src/counters.rs:251-268 | a new replica holds nothing, is neither ready nor formed, and counts at least one replica |
| `Counters.Counters.Bootstrap` | mero-kms/src/counters.rs:271-281 | the bootstrapping replica is ready and reports genesis unless the cluster has formed; alone it is formed at once |
| `Counters.Counters.LearnFormed` | mero-kms/src/counters.rs:154-159 | learning `formed` sets it and ends genesis, once |
| `Counters.Counters.GenesisLeft` | mero-kms/src/counters.rs:145-152 | time left is reported exactly while ready, not formed and before the genesis time, and is at least one second |
| `Counters.Counters.MergeInto` | mero-kms/src/counters.rs:112-125 | the in-place merge leaves the map and answers as `MergeCluster` says |
| `Counters.Counters.MergeMap` | mero-kms/src/counters.rs:104-110 | merging a whole map succeeds exactly when the joined map is within both limits, and then gives the join; refused, it leaves exactly what the merges in key order gave up to the first refusal |
| `Counters.Counters.AnswerRead` | mero-kms/src/counters.rs:308-331 | the answer to a read and the state after it are those of `Reply`; the seconds reported lead to the replica's own genesis time |
| `Counters.Counters.AnswerMerge` | mero-kms/src/counters.rs:333-353 | the answer to a write and the state after it are those of `Reply`; a limit refuses it with an error |
| `Counters.Counters.Round` | mero-kms/src/counters.rs:366-424 | the answers counted are the first verified answer to the nonce of every other replica id |
| `CounterCalls.CountedAnswersAreDistinct` | mero-kms/src/counters.rs:391-422 | whatever peers send back, counted answers are verified, answer this nonce, and come from pairwise distinct replicas other than the caller |
| `CounterCalls.EveryAnswererIsCounted` | mero-kms/src/counters.rs:391-422 | every other replica that sent a verified answer to the nonce is counted |
| `CounterRefinement.BeginReadIsTheStep` | mero-kms/src/counters.rs:451-455 | a read begins exactly when the protocol's step can, and asks for the round that step opens: only on a ready replica, from the view it holds |
| `CounterRefinement.BeginWriteIsTheStep` | mero-kms/src/counters.rs:500-518 | a write begins as the protocol's step does: raised here and sent on, or refused by a limit and left as the refusal left it |
| `CounterRefinement.BeginSyncIsTheStep` | mero-kms/src/counters.rs:578-590 | a sync begins exactly when the protocol's step can: on an unready replica, one at a time |
| `Counters.Counters.FinishRead` | mero-kms/src/counters.rs:460-491 | the state and answer after a read's round are those of `ReadTail` |
| `Counters.Counters.FinishWrite` | mero-kms/src/counters.rs:519-534 | the state and answer after a write's round are those of `WriteTail` |
| `Counters.Counters.FinishSync` | mero-kms/src/counters.rs:591-626 | the state after a sync's round is one `SyncTail` allows; from a majority it is exactly the merge of the ready answers' maps in order, refused exactly when their join passes a limit; genesis taken over lasts the shortest time a ready answer reports |
| `Counters.Counters.Read` | mero-kms/src/counters.rs:446-492 | a whole read, with other calls in between, answers and leaves what `ReadCall` says |
| `Counters.Counters.Write` | mero-kms/src/counters.rs:494-535 | a whole write, with a read first when the cluster has not formed, answers and leaves what `WriteCall` says |
| `Counters.Counters.Reset` | mero-kms/src/counters.rs:552-575 | a whole reset reads, goes one epoch up and writes, as `ResetCall` says |
| `CounterCalls.ReadCallIsExact` | mero-kms/src/counters.rs:446-492 | what a read answers, and each refusal with its cause: not formed, too few ready replicas, a limit; otherwise exactly the join of the views heard |
| `CounterCalls.WriteCallIsExact` | mero-kms/src/counters.rs:494-535 | what a write answers, and each refusal with its cause: a limit here, too few takers, a limit on the join; otherwise exactly the join |
| `CounterCalls.ReadCallGrows` | mero-kms/src/counters.rs:446-492 | a read, answered or refused, lowers nothing; its answer is no less than was held and is kept |
| `CounterCalls.WriteCallGrows` | mero-kms/src/counters.rs:494-535 | a write, answered or refused, lowers nothing; its answer has the update and all that was held, and is kept |
| `CounterCalls.FormingForms` | mero-kms/src/counters.rs:500-507 | no write is sent before the cluster has formed |
| `CounterCalls.RaiseIsExact` | mero-kms/src/counters.rs:537-549 | an answered raise, value by value: the node's entry is the largest of the one asked for and those of the views merged, so exactly the one asked for if and only if none was above it; the epoch and every other node are the largest the views had |
| `CounterCalls.ResetIsExact` | mero-kms/src/counters.rs:552-575 | an answered reset likewise, with the epoch after the one its read found as its epoch and in the node's entry |
| `CounterCalls.ResetEntry` | mero-kms/src/counters.rs:552-575 | an answered reset answers an epoch above the one its read found, which is no earlier than was held, and an entry at or above the pair of the next epoch and the mark |
| `CounterRefinement.CountedByIdIsCountedBySlot` | mero-kms/src/counters.rs:366-424 | counting one answer per replica id counts one per slot, for replies routed in any way, if no two incarnations of a slot answered the round |
| `CounterRefinement.RoundIsHeard` | mero-kms/src/counters.rs:366-424 | with one call to each other slot, what a round counts is what the protocol's steps are given |
| `CounterRefinement.RoundCountsGenuineAnswers` | mero-kms/src/counters.rs:366-424 | in every run, under drop, duplication, reordering and replay, the answers a round counts come from different replicas in different slots other than the caller's, were made after its nonce was drawn, for a write mean its update is held, and miss no slot that answered |
| `CounterRefinement.FinishReadIsTheStep` | mero-kms/src/counters.rs:460-491 | a read's end on the replies of its round is the protocol's step |
| `CounterRefinement.FinishWriteIsTheStep` | mero-kms/src/counters.rs:519-534 | a write's end on the replies of its round is the protocol's step, acknowledged there when the call is answered |
| `CounterRefinement.FinishSyncIsTheStep` | mero-kms/src/counters.rs:591-626 | a sync's end on the replies of its round is the protocol's step |
| `CounterRefinement.AnsweredReadMeetsEveryAckedWrite` | mero-kms/src/counters.rs:446-534 | in every run, from the replies on the wire: a read call that began after a write was acknowledged answers at least that write and nothing beyond the writes started |
| `CounterInvariant.QuorumsMeet` | mero-kms/src/counters.rs:291-293 | two sets of slots of majority size share a slot |
| `CounterInvariant.DistinctSlotsCount` | mero-kms/src/counters.rs:472-475 | answers from pairwise distinct slots count as many slots as answers |
| `CounterInvariant.GenesisStaysOver` | mero-kms/src/counters.rs:607-624 | a step after genesis is over everywhere leaves it over |
| `CounterSteps.InitHolds` | mero-kms/src/counters.rs:271-281 | the invariant holds of a cluster in which one replica bootstrapped |
| `CounterFinish.AnswersKeepsInv` | mero-kms/src/counters.rs:308-353 | answering any request ever sent, however often, keeps the invariant |
| `CounterFinish.FinishReadKeepsInv` | mero-kms/src/counters.rs:460-491 | a read's end keeps the invariant |
| `CounterFinish.FinishWriteKeepsInv` | mero-kms/src/counters.rs:519-534 | a write's end keeps the invariant; acknowledged, a majority of slots holds it |
| `CounterFinish.FinishSyncKeepsInv` | mero-kms/src/counters.rs:591-626 | a sync's end keeps the invariant: what became ready holds every acknowledged write of its slot |
| `CounterFinish.SyncTailIsSound` | mero-kms/src/counters.rs:591-626 | a sync lowers nothing, keeps both limits and brings in nothing but started writes; `formed` and genesis after it are founded, and before the cluster has formed it brings in nothing |
| `CounterFinish.SyncNewlyReadyHold` | mero-kms/src/counters.rs:591-626 | a replica that a sync makes ready holds every acknowledged write its slot took |
| `CounterReplace.ReplaceKeepsInv` | mero-kms/src/counters.rs:251-268 | replacing a replica by an empty one keeps the invariant under the guards on replacement |
| `CounterReplace.NextKeepsInv` | mero-kms/src/counters.rs:251-626 | every step of the protocol keeps the invariant and takes nothing back |
| `CounterTheorems.RunKeepsInv` | mero-kms/src/counters.rs:251-626 | the invariant holds in every state of every run |
| `CounterTheorems.AckedWriteIsHeld` | mero-kms/src/counters.rs:494-534 | in every run, each ready replica in a slot that took an acknowledged write holds it, replacements included |
| `CounterTheorems.ReadIsBetween` | mero-kms/src/counters.rs:446-491 | a read that succeeds returns a view above every write of that cluster acknowledged before it began, and below the join of all writes started |
| `CounterTheorems.EveryReadMeetsEveryAckedWrite` | mero-kms/src/counters.rs:446-534 | in every run, a read that began after a write was acknowledged returns a view at or above that write |
| `CounterTheorems.QuietReadIsThePlainMap` | mero-kms/src/counters.rs:446-534 | when every write of a cluster was acknowledged before a read began, it returns exactly what one sequential map would hold |
| `CounterTheorems.PlainValuesWereWritten` | mero-kms/src/counters.rs:82-102 | every value of the sequential map is one that some write carried |
| `CounterTheorems.PlainIsLeast` | mero-kms/src/counters.rs:82-102 | the sequential map is the least view above all its writes |
| `CounterTheorems.FormedMeansSomeRoundHeardEveryone` | mero-kms/src/counters.rs:462-468 | if the cluster counts as formed, some earlier single round heard ready answers from all other slots |
| `CounterTheorems.FormedIsSound` | mero-kms/src/counters.rs:154-159 | the same follows from any replica, request, answer or write message that says `formed`, however it got there |
| `CounterTheorems.NoGenesisOnceFormed` | mero-kms/src/counters.rs:607-624 | once formed, no sync takes the genesis branch and a replica gets ready only from a majority of ready answers |
| `CounterTheorems.NoGenesisAfterAnAckedWrite` | mero-kms/src/counters.rs:607-624 | in every run, no replica becomes ready by the genesis branch after any write was acknowledged |
| `CounterTheorems.GenesisEndsForGood` | mero-kms/src/counters.rs:144-160 | in every run, genesis that is over everywhere never comes back |
| `GenesisGap.LiveReportsAreNotEnough` | mero-kms/src/counters.rs:607-624 | with the weaker guard (only live genesis reports hold up a replacement) a run of 23 steps loses an acknowledged write |
| `GenesisCondition.AliveIffReportedOrOneStepAway` | mero-kms/src/counters.rs:607-624 | the guard used instead is exact: genesis is alive if and only if a live replica reports it, or one sync that may finish now leads to one that does |
| `GenesisCondition.NeverReportedAgainIffNotAlive` | mero-kms/src/counters.rs:607-624 | over runs: no run from a state ever reports genesis if and only if genesis is not alive there |
| `BringUp.NextKeepsBringUpOk` | mero-kms/src/counters.rs:578-626 | during bring-up slot 0 stays ready, and short of a ready majority every ready replica is in genesis |
| `BringUp.SyncWithCurrentAnswersSucceeds` | mero-kms/src/counters.rs:578-626 | with nothing replaced and genesis unexpired, a sync whose answers from every other replica are all still current makes its replica ready |
| `BringUp.SomeRunCompletesBringUp` | mero-kms/src/counters.rs:652-665 | bring-up never gets stuck: from every such state some run makes every replica ready |
| `BringUp.RunsRise` | mero-kms/src/counters.rs:578-626 | every state of a run without replacement or expiry is such a state |
| `SyncGap.HearingEveryoneIsNotEnough` | mero-kms/src/counters.rs:591-626 | a run of five replicas, with nothing replaced, expired or written, whose last sync hears all four others and fails whatever it ends in |
| `BringUpEnds.SyncSucceedsIff` | mero-kms/src/counters.rs:591-626 | with answers of any age from every other replica, a sync makes its replica ready if and only if a majority of them are ready or every ready one reports genesis |
| `BringUpEnds.FailedSyncMeansMajority` | mero-kms/src/counters.rs:591-626 | when such a sync fails before genesis has run out, a majority of slots is already ready |
| `BringUpEnds.SyncsAfterAMajoritySucceed` | mero-kms/src/counters.rs:591-605 | in every run, once a majority is ready, every sync begun after it that hears everyone succeeds, genesis expired or not |
| `BringUpEnds.TwoSyncsAreEnough` | mero-kms/src/counters.rs:652-665 | in every run, of two syncs of one replica that each hear everyone, the second leaves it ready, if nothing was replaced and genesis ran at the first one's end |
| `BringUpEnds.EveryScheduleEnds` | mero-kms/src/counters.rs:652-665 | bring-up terminates on every schedule: once every unready replica has ended two such syncs, every replica is ready |
| `RollbackCalls.AckedWriteReturnsIt` | mero-kms/src/counters.rs:519-534 | an acknowledged write returns exactly the join of the view it started from and the counted answers' views; that is above its update |
| `RollbackCalls.AckedRaiseReturnsTheEntry` | mero-kms/src/counters.rs:537-549 | an acknowledged raise returns an entry at or above the one asked for: exactly that one if and only if no view the write merged had the node above it |
| `RollbackCalls.AckedResetReturnsTheNewEpoch` | mero-kms/src/counters.rs:552-574 | an acknowledged reset that read epoch e returns a higher epoch and an entry at or above (e+1, mark); exactly that pair if and only if no merged view had the node above it |
| `RollbackCalls.ResetIsAboveEveryAckedEpoch` | mero-kms/src/counters.rs:559-574 | the epoch a reset asks for is above that of every write acknowledged before its read began |
| `RollbackCalls.StaleRaiseChangesNothing` | mero-kms/src/counters.rs:537-574 | a view that holds a reset past epoch e is not changed by a raise of a generation up to e |
| `RollbackHandler.Answer` | mero-kms/src/handlers/rollback.rs:119-233 | a call changes nothing and is refused with the first of bad peer id, no root, bad MAC; otherwise the counters make the raise or reset, and their refusal is the answer or their value is acknowledged |
| `RollbackHandler.AuthorizedIff` | mero-kms/src/handlers/rollback.rs:119-177 | a call is let through exactly with a peer id of the right shape, on a replica with a root, and the tag of that root's key for its path, node and session over its very fields; otherwise the first of the three is the refusal |
| `RollbackHandler.AcknowledgementIs` | mero-kms/src/handlers/rollback.rs:80-97 | an acknowledgement holds the cluster's epoch and the node's entry, or zeros, with the tag of the call's own key over its nonce and these very values |
| `RollbackHandler.AnsweredRaise` | mero-kms/src/handlers/rollback.rs:179-233 | an answered raise acknowledges the largest of the entry sent and the views merged: exactly the one sent if and only if none of them had the node above it |
| `RollbackHandler.AnsweredReset` | mero-kms/src/handlers/rollback.rs:179-233 | an answered reset acknowledges likewise the pair of the epoch after the one it read, which is no earlier than was held, and the store's mark |
| `RollbackHandler.CallGrows` | mero-kms/src/handlers/rollback.rs:179-203 | a call, answered or refused, lowers nothing |
| `RollbackHandler.ResetStopsAtTheMaximum` | mero-kms/src/counters.rs:559-562 | a reset that reads the largest epoch is refused and sends no write |
| `RollbackHandler.OneTagOneCall` | mero-kms/src/handlers/rollback.rs:57-79 | one tag authorizes one call: kind, peer, node, session, generation, mark, nonce and cluster |
| `RollbackHandler.AcknowledgementsAreBound` | mero-kms/src/handlers/rollback.rs:80-97 | an acknowledgement's tag is no request's, and fixes the session, the nonce and every value acknowledged |
| `RollbackHandler.AcknowledgedEntry` | mero-kms/src/handlers/rollback.rs:179-233 | the entry acknowledged is one the cluster holds, at or above what the raise or reset asked for |
| `JoinNonces.IssuedNonceOpensUntilItsExpiry` | mero-kms/src/cluster.rs:88-117 | an issued nonce opens on its issuer exactly until 60 seconds later, with that expiry |
| `JoinNonces.OpenedNonceWasIssued` | mero-kms/src/cluster.rs:99-117 | a nonce that opens is the one this process's key makes of its own random bytes and expiry |
| `JoinNonces.OpensIffTaggedAndInTime` | mero-kms/src/cluster.rs:60-120 | a nonce is 8 random bytes, 8 of expiry and 16 of tag; it opens exactly when the tag is the first 16 bytes of this key's tag over the two and the expiry has not passed, and each refusal has its cause |
| `JoinNonces.JoinNonces.Issue` | mero-kms/src/cluster.rs:88-96 | the buffer filled step by step is random bytes, expiry and tag |
| `JoinNonces.JoinNonces.Spend` | mero-kms/src/cluster.rs:123-135 | spending forgets expired nonces, records this one, and refuses it if it was recorded |
| `JoinNonces.NonceSpentAgainIffExpired` | mero-kms/src/cluster.rs:123-135 | over every sequence of joins, a spent nonce is accepted again exactly when the clock has passed its expiry |
| `ClusterJoin.PeerPassesIff` | mero-kms/src/cluster.rs:274-314 | a peer passes exactly with a quote that verifies over this nonce and binding, attributes of 16 hex digits of which the second is even, a TCB status in the list up to case, and the checker's own five registers; otherwise the first that fails is the refusal |
| `ClusterJoin.PassedPeerIsTrusted` | mero-kms/src/cluster.rs:274-314 | a peer that passes the same-as-me rule shows a genuine quote of a trusted TD with the checker's own five registers, over this nonce and binding |
| `ClusterJoin.NextKeepsInv` | mero-kms/src/cluster.rs:356-482 | every step of the join system keeps its invariant |
| `ClusterJoinTheorems.RootNeverChanges` | mero-kms/src/backend.rs:231-245 | in every run, a replica's root never changes once set |
| `ClusterJoinTheorems.JoinAgreement` | mero-kms/src/cluster.rs:407-482 | in every run over every network, a replica's root was generated by a bootstrapping replica with exactly its MRTD and RTMR0 to RTMR3 |
| `ClusterJoinTheorems.SameRootSameImage` | mero-kms/src/cluster.rs:407-482 | replicas that ever hold the same root have the same five registers |
| `ClusterJoinTheorems.OneBootstrapOneCluster` | mero-kms/src/cluster.rs:407-482 | if one replica of an image bootstrapped, all of that image's replicas that hold a root hold the same one |
| `ClusterJoinTheorems.RootsStayAmongEquals` | mero-kms/src/cluster.rs:220-272 | every sealed copy of a cluster's root is between one-time keys of replicas, and opens only for one with the generator's registers |
| `ClusterJoinTheorems.AttestQuoteIsNoPeerQuote` | mero-kms/src/handlers/attest.rs:118-140 | a quote that `/attest` signs for anyone never passes as a joiner's or a giver's, whatever bytes were asked for |
| `ClusterJoinTheorems.OneRootPerNonce` | mero-kms/src/cluster.rs:356-403 | in every run, one nonce gives the root twice only if the second join was opened by the nonce's expiry and spent after it |
| `ClusterJoinTheorems.GivesAgainIffExpired` | mero-kms/src/cluster.rs:356-403 | in every run, an accepted join whose nonce gave the root before gives it again if and only if it is spent after the nonce's expiry, the root held and the key usable |
| `ClusterJoinTheorems.AnyNonceCanGiveTwice` | mero-kms/src/cluster.rs:356-403 | and it happens: any join that gave the root gives it again when repeated, opened at its nonce's expiry and spent a second later |
| `ClusterJoinTheorems.AnHonestJoinSucceeds` | mero-kms/src/cluster.rs:407-482 | when a joiner starts and an equal gives, each with a TCB status the other allows, the response completes the join with the giver's root |
| `Backend.TdxBackend.SetRoot` | mero-kms/src/backend.rs:231-245 | the first root is kept; a second one is refused and changes nothing |
| `Backend.TdxBackend.LastJoinError` | mero-kms/src/backend.rs:199-214 | without a root, the newest of all the failures there ever were, if there was one; with a root, none |
| `Backend.TdxBackend.RecordJoinError` | mero-kms/src/backend.rs:199-205 | a noted failure is the newest of those there ever were |
| `Backend.FailuresEndAtARoot` | mero-kms/src/cluster.rs:497-516 | the failures a round notes are the errors before the first root handed over, in order, and all of them |
| `Backend.TdxBackend.JoinHandler` | mero-kms/src/cluster.rs:355-403 | nonce, peer, spend, root and key are checked in this order; nothing is spent unless the peer verified, nothing given unless it was spent |
| `Backend.TdxBackend.JoinRound` | mero-kms/src/cluster.rs:497-516 | one round keeps the first root handed over and ends; exactly the failures before it are added to those noted, in order |
| `Backend.HandlerIsTheStep` | mero-kms/src/cluster.rs:355-403 | on every join the step system accepts, the handler spends what the step spends and gives exactly when the step can |
| `Backend.HandlerRefusesTheRest` | mero-kms/src/cluster.rs:355-403 | what the step system does not accept the handler refuses, spending nothing |
| `Challenges.OpensExactlyInItsWindow` | mero-kms/src/stateless_challenge.rs:53-112 | a challenge issued at `a` opens, in any letter case and on any replica with the key, exactly for its peer and inside its window, and gives the nonce and expiry it was issued with |
| `Challenges.WindowIsSkewToExpiry` | mero-kms/src/stateless_challenge.rs:96-110 | the window is [a - 30, a + ttl], cut off at the largest time |
| `Challenges.OpenedWasIssued` | mero-kms/src/stateless_challenge.rs:64-112 | an id that opens for a peer is, in lower case, one that this key issues to that peer with that expiry |
| `Challenges.OpenRefusalsAreExact` | mero-kms/src/stateless_challenge.rs:69-110 | each refusal of an id has its cause: not 56 bytes of hex, another tag for this peer, expired, or expiring too late |
| `Challenges.SpentChallenges.Record` | mero-kms/src/stateless_challenge.rs:139-162 | recording an id prunes, refuses a used id, refuses past the capacity, and otherwise holds it; a map within capacity stays so |
| `Challenges.NeverAboveCapacity` | mero-kms/src/stateless_challenge.rs:139-162 | however many calls, the map never holds more ids than its capacity |
| `Challenges.SpentOnceByItsExpiry` | mero-kms/src/stateless_challenge.rs:139-162 | for a clock that never goes back, a spent id is refused as used at or before its expiry |
| `Challenges.UsedAgainIffExpired` | mero-kms/src/stateless_challenge.rs:139-162 | a spent id is answered as used exactly while the clock has not passed its expiry, and can be spent again after it exactly when there is room |
| `Challenges.RefusalsAreExact` | mero-kms/src/stateless_challenge.rs:139-162 | an id is refused only because it was spent and has not expired, or because capacity many unexpired ids are held |
| `Challenges.SpentTwiceAfterItsExpiry` | mero-kms/src/stateless_challenge.rs:139-162 | two spends of one id after its expiry both succeed |
| `KeyRelease.Releaser.ReleaseKey` | mero-kms/src/handlers/get_key.rs:125-262 | the handler answers and changes the spent map as the pipeline does, each refusal before any later check |
| `KeyRelease.ReleasedExactlyToTheEntitled` | mero-kms/src/handlers/get_key.rs:125-262 | a key is released exactly when shape, challenge, signature, quote, policy, counters and the spent map all allow it, each spelled out; from the path of the admitted role, under the challenge's nonce, with the node's own epoch, generation and mark |
| `KeyRelease.RefusalsHaveTheirCause` | mero-kms/src/handlers/get_key.rs:125-203 | each of the thirteen refusals has its cause |
| `KeyRelease.OnlyAReleaseSpends` | mero-kms/src/handlers/get_key.rs:376-395 | a refusal before the spend leaves the spent map alone, one by the map only forgets expired ids, a release adds its id in lower case |
| `KeyRelease.AQuoteServesOneRequest` | mero-kms/src/handlers/get_key.rs:165-180 | one quote is accepted for one nonce, peer, seal key and node id only |
| `KeyRelease.AKeyGoesToItsRoleOnly` | mero-kms/src/handlers/get_key.rs:172-196 | under a configuration that loads and a policy that validates, the key at a role's and peer's path goes only to that peer, with a quote that matches an entry of that role and of no other |
| `KeyRelease.OneReleasePerChallenge` | mero-kms/src/handlers/get_key.rs:376-395 | over every sequence of requests, two releases for one challenge in any letter case happen only if the later was opened by its expiry and spent after it |
| `KeyRelease.ReleasedAgainIffExpired` | mero-kms/src/handlers/get_key.rs:376-395 | over every such sequence, a later request with a challenge that released a key, if it passes every check, is answered if and only if it is spent after the challenge's expiry and there is room |
| `Policy.ParsedIsNormal` | mero-kms/src/measurement.rs:14-28 | a parsed measurement is 96 lower-case hex digits and a fixed point of normalization; every such string parses to itself |
| `Policy.ParsedIff` | mero-kms/src/measurement.rs:14-28 | a measurement parses exactly when, trimmed and without leading 0x, it is 96 hex digits, and is kept in lower case |
| `Policy.OverlapIsExact` | mero-kms/src/policy.rs:136-143 | two entries overlap exactly when some quote matches both |
| `Policy.ValidateIsExact` | mero-kms/src/policy.rs:145-214 | an enforced policy validates exactly when it has statuses and entries, no empty list, one entry per role, and no quote that two entries admit |
| `Policy.ProblemsAreReal` | mero-kms/src/policy.rs:145-214 | each problem found at startup is one the policy has |
| `Policy.NoQuoteMatchesTwoEntries` | mero-kms/src/policy.rs:157-214 | once a policy validates, no quote matches two entries |
| `Policy.EntryOrderDoesNotMatter` | mero-kms/src/handlers/get_key.rs:538-582 | every permutation of a validated policy's entries grants the same quotes the same role |
| `Policy.MatchesIff` | mero-kms/src/handlers/get_key.rs:555-570 | a quote matches an entry exactly when each of its five registers, normalized, is in that entry's list for it |
| `Policy.EnforcedIsExact` | mero-kms/src/handlers/get_key.rs:538-607 | a role is granted exactly when the TCB status is allowed and some single entry lists all five registers; a mismatch names the first entry with the most matches and its first failing register |
| `Policy.GrantedRoleIsTheMatchedEntrys` | mero-kms/src/handlers/get_key.rs:538-582 | under a validated policy a matching quote gets that entry's role, and no entry of another role matches it |
| `Policy.CheckEntry` | mero-kms/src/handlers/get_key.rs:557-570 | the register loop counts the matches and finds the first failure |
| `Policy.Search` | mero-kms/src/handlers/get_key.rs:555-576 | the entry loop finds the first match, or the closest entry |
| `Policy.Enforce` | mero-kms/src/handlers/get_key.rs:538-582 | the handler's decision is the one `EnforcedIsExact` describes; with enforcement off it is the node role |
| `PeerIds.ValidateAcceptsExactlyTheShape` | mero-kms/src/handlers/challenge.rs:57-86 | an id passes exactly when it is 1 to 128 base58 characters |
| `PeerIds.RefusalsAreExact` | mero-kms/src/handlers/challenge.rs:57-86 | each refusal of an id has its cause, and no cause checked before it |
| `PeerIds.Base58Is` | mero-kms/src/handlers/challenge.rs:57-86 | the alphabet is letters and digits but for 0, O, I and l |
| `KeyPaths.LoadedConfig` | mero-kms/src/config/mod.rs:139-163 | every configuration that loads has a known profile and prefixes that differ even after trimming slashes |
| `KeyPaths.LoadsIff` | mero-kms/src/config/mod.rs:139-163 | which settings load: a pinned profile must exist, the environment's two names must agree and repeat it, or alone be blank or exist, and the prefixes must differ |
| `KeyPaths.LoadedParts` | mero-kms/src/config/mod.rs:139-163 | every part of a configuration that loads, setting by setting, defaults included |
| `KeyPaths.PinnedProfileStands` | mero-kms/src/config/mod.rs:352-382 | an image that pins its profile runs under it or does not start |
| `KeyPaths.KeyPathIs` | mero-kms/src/handlers/get_key.rs:397-411 | a key path is the role's prefix, without slashes around it, the profile and the peer id, between slashes |
| `KeyPaths.KeyPathIsInjective` | mero-kms/src/handlers/get_key.rs:397-411 | under every configuration that loads, two valid peers share a key path only for the same role and peer, even when prefixes contain slashes |
| `KeyPaths.NoKeyPathIsTheTransportPath` | mero-kms/src/sealed.rs:33-35 | no peer's key path is the transport key's, whatever prefix is configured |
| `Framing.FrameIsInjective` | mero-kms/src/sealed.rs:68-129 | two well-formed messages of any of the 22 kinds have one preimage only if they are the same message |
| `Framing.FrameTellsItsKind` | mero-kms/src/cluster.rs:173-195 | a preimage shows which kind it is, so join, give, attest, request, rollback, counter and challenge messages never share one |
| `Framing.ClusterFormats` | mero-kms/src/cluster.rs:173-195 | the preimages of joining, spelled out |
| `Framing.AttestFormats` | mero-kms/src/handlers/attest.rs:112-160 | the preimages of attesting, spelled out |
| `Framing.ReleaseFormats` | mero-kms/src/sealed.rs:68-129 | the preimages of releasing a key, spelled out |
| `Framing.RollbackFormats` | mero-kms/src/handlers/rollback.rs:57-97 | the preimages of a raise, a reset and an acknowledgement, spelled out |
| `Framing.MessageFormats` | mero-kms/src/counters.rs:60-62 | the preimages of counter messages, challenges and their tags, spelled out |
| `Framing.RequestMessage` | mero-kms/src/handlers/rollback.rs:59-79 | the buffer grown field by field is the raise or reset message |
| `Framing.SessionInfoIsInjective` | mero-kms/src/counters.rs:127-132 | two sessions share their key info only for the same key path, node and session id, whatever the path contains |
| `SessionInfos.PreimagesAreExactly` | mero-kms/src/sealed.rs:68-129 | the preimages of each of the 22 kinds are exactly its domain followed by bytes of the shape of its fields |
| `SessionInfos.InfoReadsAsIff` | mero-kms/src/counters.rs:127-132 | for each kind, a session's info is the preimage of some message of it if and only if the key path starts with the kind's domain and what follows has the kind's shape |
| `SessionInfos.InfoReadsAsACounterMessageIff` | mero-kms/src/counters.rs:127-132 | as a counter read, merge or answer it reads if and only if the key path starts with that message's domain |
| `SessionInfos.NeverReadsAs` | mero-kms/src/counters.rs:127-132 | join, join-nonce, plain attest, default binding, self measurement, transport v2 and legacy request messages are no session's info, whatever the key path |
| `SessionInfos.EveryOtherKindCollides` | mero-kms/src/counters.rs:127-132 | each of the other 15 kinds is, in a configuration that loads and for a valid peer |
| `SessionInfos.DefaultPrefixesNeverCollide` | mero-kms/src/config/mod.rs:139-163 | with the default prefixes no session's info reads as any other message |
| `SessionInfos.AConfiguredPathCollides` | mero-kms/src/config/mod.rs:139-163 | a concrete configuration loads under which every node's info, for every peer and session, is a counter read's preimage |
| `EventLog.Parse` | scripts/attestation/shared/tdx_event_log.py:87-127 | the parser's loops compute the events, or the first error met; it ends on every input |
| `EventLog.ParseRecoversEveryEvent` | scripts/attestation/shared/tdx_event_log.py:87-127 | parsing any well-formed printed log followed by padding gives back every event |
| `EventLog.ZerosAndOnesArePadding` | scripts/attestation/shared/tdx_event_log.py:108-112 | any number of zero or of 0xFF bytes is padding |
| `EventLog.RecordRoundTrip` | scripts/attestation/shared/tdx_event_log.py:108-126 | one printed record is read back whole, whatever stands before and after it |
| `EventLog.EventIsTheRecord` | scripts/attestation/shared/tdx_event_log.py:108-126 | an event has its record's fields, and the last digest the record lists for SHA-384 or none |
| `Registers.Replay` | scripts/attestation/shared/tdx_event_log.py:130-136 | the replayed registers are RTMR0 to RTMR3, each extended by its own events only |
| `Registers.OneEventAtATime` | scripts/attestation/shared/tdx_event_log.py:130-136 | a register starts as 48 zero bytes; an event is extended into its own register unless it is an EV_NO_ACTION |
| `Registers.OnlyOwnEventsMatter` | scripts/attestation/shared/tdx_event_log.py:130-136 | logs with the same events of a register replay to the same value of it |
| `Registers.OrderAcrossRegistersDoesNotMatter` | scripts/attestation/shared/tdx_event_log.py:130-136 | neighbouring events of different registers may be logged in either order |
| `Registers.ReplaysAgreeIffOwnDigestsDo` | scripts/attestation/shared/tdx_event_log.py:130-136 | two logs replay to the same register under every hash exactly when their own events of it have the same digests |
| `Registers.Compute` | scripts/attestation/shared/compute_rtmr.py:124-131 | each computed register is its digests extended one after another |
| `Registers.SameEvents` | scripts/attestation/shared/compute_rtmr.py:162-172 | the event loop passes exactly when both lists hold the same digests |
| `Registers.Compare` | scripts/attestation/shared/compute_rtmr.py:137-181 | a comparison passes exactly when the registers equal the quote's and, given a log, the digests of RTMR1 and RTMR2 are the log's |
| `Registers.CompareWithTable` | scripts/attestation/shared/compute_rtmr.py:137-181 | from printed table to verdict: a comparison that passes means the quote's RTMR1 and RTMR2 are those the log replays to |
| `Registers.Diff` | scripts/attestation/shared/tdx_event_log.py:170-186 | the number of differences is the number of positions at which the selected events differ in digest or type, one being too short included; it is zero exactly when they agree throughout |
| `Registers.NoDifferenceInARegister` | scripts/attestation/shared/tdx_event_log.py:170-186 | logs without a difference in one register replay to the same value of it |
| `Registers.NoDifferenceReplaysAlikeIff` | scripts/attestation/shared/tdx_event_log.py:170-186 | logs without a difference over all registers replay alike, every register and under every hash, if and only if each register's own digests are the same in both |
| `Registers.SwappedRegistersReplayAlike` | scripts/attestation/shared/tdx_event_log.py:170-186 | going to the same registers one by one is not needed for it: two events of one digest may change places |
| `Registers.NoDifferenceDespiteTheRegisters` | scripts/attestation/shared/tdx_event_log.py:170-186 | otherwise it can fail: two logs without a reported difference replay to different registers |
| `Authenticode.Authenticode` | scripts/attestation/shared/uki_probe_evidence.py:37-76 | the walk feeds the digest headers, sections by file order, and the rest, with the script's errors; `HashLeavesOutThreeParts` says which bytes those are |
| `PeImages.LayoutRoundTrip` | scripts/attestation/shared/uki_probe_evidence.py:45-60 | every field the walk needs is read back from where an image has it, PE32 and PE32+ |
| `PeImages.SectionsRoundTrip` | scripts/attestation/shared/uki_probe_evidence.py:61-67 | the section table gives back every section with raw data, with its pointer and its size |
| `PeImages.HashLeavesOutThreeParts` | scripts/attestation/shared/uki_probe_evidence.py:37-76 | of every well laid out image, printed from named parts, the hashed bytes are exactly the image without its checksum, its certificate entry and its certificate table |
| `Authenticode.TableOrderDoesNotMatter` | scripts/attestation/shared/uki_probe_evidence.py:62-70 | however the table lists them, sections that tile the file are hashed in their order in the file |
| `Authenticode.TilesCover` | scripts/attestation/shared/uki_probe_evidence.py:68-70 | sections that tile a range feed exactly its bytes |
| `CanonicalJson.SameTextIffSameValue` | attestation-verifier/api/verify.js:252-257 | two JSON values print to the same text exactly when they are equal up to the order of object keys, at every depth |
| `CanonicalJson.PrintIsInjective` | attestation-verifier/api/verify.js:252-257 | a printed value is found again at the front of any text that continues it |
| `CanonicalJson.SamePrintAlike` | attestation-verifier/api/verify.js:252-257 | values equal up to key order print alike |
| `CanonicalJson.QuotedIsInjective` | attestation-verifier/api/verify.js:252-257 | an escaped string determines its code units and where it ends, surrogates included |
| `JsonText.LiteralsAre` | attestation-verifier/api/verify.js:252-257 | the three literals print as null, true and false |
| `JsonText.ArrayText` | attestation-verifier/api/verify.js:252-257 | an array prints as its items' texts in order, between brackets and with commas |
| `JsonText.ObjectText` | attestation-verifier/api/verify.js:252-257 | an object prints as its members' texts, every member once and the keys ascending by code units, between braces and with commas and colons |
| `JsonText.OrderIsUnique` | attestation-verifier/api/verify.js:252-257 | there is one ascending order of the same keys |
| `JsonText.StringText` | attestation-verifier/api/verify.js:252-257 | a string prints between quotes, a surrogate pair as itself and any other unit as the table says |
| `JsonText.EscapeTable` | attestation-verifier/api/verify.js:252-257 | each code unit has one spelling: seven short escapes, a long one in lower-case hex, or itself |
| `JsonText.StringRoundTrip` | attestation-verifier/api/verify.js:252-257 | any JSON reader recovers every string from its text, and where it ends |
| `CanonicalJson.EvidenceCommitsToTheRecord` | attestation-verifier/api/verify.js:259-263 | barring a digest collision, the evidence binding is the same exactly for the same inner binding and the same record up to key order |

## Left out

- Cryptography: HMAC, HKDF, X25519, AES-GCM, SHA-2 and quote verification are ideal. A key or sealed root is drawn fresh, a tag or hash is its preimage, or the statement says which collision it excludes.
- HTTP routing, timeouts, logging, health and CORS: no state of their own. An answer over the size limit counts as one not received.
- Base64 and JSON decoding of requests: messages are typed, except that the challenge id, the hex fields and the peer id are text.
- The mock attestation feature and mero-inference-gate.
- Real time: replicas' clocks are integers that do not go back, and genesis runs out at any step.
- The first nonce of a read and its starting view are taken in one step, and a write's merge and its round start in one step; another request may not come between them.
- The wait between attempts of `sync_until_ready` and `join_until_ready`; one attempt and one round over the peers are modelled.
- Counters.Counters.FinishSync: genesis time is in whole seconds of one clock, where the source keeps sub-second instants.
- Counters.Counters.Read: what other calls do to the replica is taken while the round runs; between two locks of one call nothing else is let in.
- EventLog.Parse: gives the events or the error; the script's generator has handed out the events before the error by then.
- KeyRelease.Releaser.ReleaseKey: expiry arithmetic wraps at 2^64, as a release build does; a debug build would stop.
- Policy.ParsedIsNormal: does not tell a wrong length from a wrong character, because both refuse the value at startup.
- Framing.FrameIsInjective: bodies of counter messages are byte strings; their JSON form is not modelled.
- CanonicalJson.SameTextIffSameValue: a number is its ECMAScript text, because number formatting is the engine's; the UTF-8 encoding of the printed text is not modelled.
- `gpt_event` and `pe_sections` of compute_rtmr.py, and `kmsRecordOf` of verify.js: short reads and shape checks.
- `load_log`, `describe`, `show` and the command lines of the scripts: input and output.
- TCB status lists, replica counts and the remaining settings of the configuration: only the settings that reach a key path are loaded; the policy is a parameter.
- PeImages.HashLeavesOutThreeParts: images whose sections overlap, leave gaps or reach past the end of the file; `Authenticode.Authenticode` gives their hash too, but the script covers other bytes of them.
- The rest of verify.js, the React pages, image building, CI and release tooling.
