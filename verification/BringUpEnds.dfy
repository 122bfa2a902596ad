/**
 Bring-up on every schedule. A sync that hears every other replica can fail, because the
 answers may be older than what their senders have become since. When it does, a majority
 is already ready, so the same replica's next one succeeds: two are always enough.
 */
module BringUpEnds {
  import opened Outcomes
  import opened CounterViews
  import opened CounterReplica
  import opened CounterProtocol
  import opened CounterInvariant
  import opened CounterSteps
  import opened CounterFinish
  import opened CounterReplace
  import opened CounterTheorems
  import opened BringUp

  // ---- what answers say of the senders' past ----

  /** Slot 0 was ready from the start, and has said so in every answer. */
  ghost predicate FirstSaysReady(s: State) {
    !s.replaced ==> |s.slots| >= 2 && forall a :: a in s.answers && a.from == s.slots[0] ==> a.ready
  }

  /** Before genesis runs out, a ready replica out of genesis was made ready by a majority. */
  ghost predicate ReadyOutOfGenesis(s: State) {
    !s.replaced && !s.expired && !s.everFormed && (exists a :: a in s.answers && a.ready && !a.genesis) ==>
      |ReadySlots(s)| >= Majority(|s.slots|)
  }

  ghost predicate AnswersTell(s: State) {
    FirstSaysReady(s) && ReadyOutOfGenesis(s)
  }

  /** A step's new answer is the body of its sender's state after the step. */
  lemma NewAnswer(s: State, step: Step, s': State, a: Answer)
    requires Inv(s) && Next(s, step, s') && a in s'.answers && a !in s.answers
    ensures Live(s', a.from) && s'.slots == s.slots
    ensures var i := s'.replicas[a.from].inner;
            a.ready == i.ready && a.formed == i.formed && a.genesis == ReportsGenesis(i)
    ensures a.nonce in s.rounds
  {
    hide Inv, Heard, GenesisAlive, ReadTail, WriteTail, SyncTail, AnsweredARunningWrite;
    if step.Answers? {
      RepliesShowTheState(s.replicas[step.id].inner, step.id, step.nonce, s.rounds[step.nonce].request, s.rounds[step.nonce].formed);
      hide Reply;
    } else {
      hide MergeCluster;
    }
  }

  lemma RepliesShowTheState(i: Inner, id: Id, nonce: Nonce, request: Request, formed: bool)
    ensures var (i', a) := Reply(i, id, nonce, request, formed);
            a.Some? ==> a.value.from == id && a.value.nonce == nonce && a.value.ready == i'.ready
                        && a.value.formed == i'.formed && a.value.genesis == ReportsGenesis(i')
  {
    hide MergeCluster;
  }

  lemma ReadySlotsGrow(s: State, step: Step, s': State)
    requires Inv(s) && Next(s, step, s') && !s'.replaced
    ensures !s.replaced && s'.slots == s.slots && ReadySlots(s) <= ReadySlots(s') && |ReadySlots(s)| <= |ReadySlots(s')|
    ensures (s.expired ==> s'.expired) && (s.everFormed ==> s'.everFormed)
  {
    hide Next;
    NextKeepsInv(s, step, s');
    ExpiryAndFormingStay(s, step, s');
    hide Linked, OneSync, Replicas, Rounds, AnswersOk, Acks, AnswerMeets, RoundMeets, Bringup, GenesisAlive, MapLe;
    forall k | k in ReadySlots(s) ensures k in ReadySlots(s') {
      assert s.slots[k] in s.replicas;
    }
    SubsetIsSmaller(ReadySlots(s), ReadySlots(s'));
  }

  lemma NextKeepsFirst(s: State, step: Step, s': State)
    requires Inv(s) && BringUpOk(s) && FirstSaysReady(s) && Next(s, step, s')
    ensures FirstSaysReady(s')
  {
    hide Inv, Next, ReadySlots;
    if !s'.replaced {
      ReadySlotsGrow(s, step, s');
      NextKeepsBringUpOk(s, step, s');
      forall a | a in s'.answers && a.from == s'.slots[0] ensures a.ready {
        if a !in s.answers {
          NewAnswer(s, step, s', a);
        }
      }
    }
  }

  lemma OutOfGenesisMeansMajority(s: State, a: Answer)
    requires Inv(s) && BringUpOk(s) && !s.replaced && !s.expired && !s.everFormed
    requires Live(s, a.from)
    requires s.replicas[a.from].inner.ready && !ReportsGenesis(s.replicas[a.from].inner)
    ensures |ReadySlots(s)| >= Majority(|s.slots|)
  {
    FormedReplica(s, a.from);
    hide Linked, OneSync, Replicas, Rounds, AnswersOk, Acks, AnswerMeets, RoundMeets, Bringup, GenesisAlive;
    var k := SlotOf(s, a.from);
    assert s.slots[k] == a.from;
    assert k in ReadySlots(s);
  }

  lemma NextKeepsReadyOutOfGenesis(s: State, step: Step, s': State)
    requires Inv(s) && BringUpOk(s) && ReadyOutOfGenesis(s) && Next(s, step, s')
    ensures ReadyOutOfGenesis(s')
  {
    hide Inv, Next, ReadySlots, BringUpOk;
    if a :| !s'.replaced && !s'.expired && !s'.everFormed && a in s'.answers && a.ready && !a.genesis {
      ReadySlotsGrow(s, step, s');
      if a !in s.answers {
        NewAnswer(s, step, s', a);
        AfterStep(s, step, s');
        OutOfGenesisMeansMajority(s', a);
      }
    }
  }

  lemma AfterStep(s: State, step: Step, s': State)
    requires Inv(s) && BringUpOk(s) && Next(s, step, s')
    ensures Inv(s') && BringUpOk(s')
  {
    hide Inv, Next, BringUpOk, Progress;
    NextKeepsInv(s, step, s');
    NextKeepsBringUpOk(s, step, s');
  }

  lemma InitTells(s: State)
    requires Init(s)
    ensures AnswersTell(s)
  {
  }

  lemma {:induction false} RunKeepsTelling(states: seq<State>, steps: seq<Step>, k: nat)
    requires IsRun(states, steps) && k < |states|
    ensures AnswersTell(states[k])
  {
    hide Inv, Init, Next, BringUpOk, FirstSaysReady, ReadyOutOfGenesis;
    if k == 0 {
      InitTells(states[0]);
    } else {
      RunKeepsTelling(states, steps, k - 1);
      RunKeepsInv(states, steps, k - 1);
      RunKeepsBringUpOk(states, steps, k - 1);
      RunStep(states, steps, k - 1);
      NextKeepsFirst(states[k - 1], steps[k - 1], states[k]);
      NextKeepsReadyOutOfGenesis(states[k - 1], steps[k - 1], states[k]);
    }
  }

  // ---- one sync that heard everyone ----

  /** A sync's end at which every other slot had answered, at whatever time. */
  ghost predicate HeardOthers(s: State, nonce: Nonce, heard: seq<Answer>, s': State) {
    FinishSyncStep(s, nonce, heard, s') && |heard| + 1 == |s.slots|
  }

  lemma SyncIsHeard(s: State, nonce: Nonce, heard: seq<Answer>, s': State)
    requires HeardOthers(s, nonce, heard, s')
    ensures Running(s, nonce) && s.rounds[nonce].request.ReadAll? && Heard(s, nonce, heard)
  {
    hide Heard, SyncTail;
  }

  lemma HeardEverySlotButOwn(s: State, nonce: Nonce, heard: seq<Answer>, s': State)
    requires Inv(s) && HeardOthers(s, nonce, heard, s')
    ensures var own := SlotOf(s, s.rounds[nonce].caller);
            own < |s.slots| && s.slots[own] == s.rounds[nonce].caller && own !in SlotsOf(s, heard)
            && forall k :: 0 <= k < |s.slots| && k != own ==> k in SlotsOf(s, heard)
  {
    SyncIsHeard(s, nonce, heard, s');
    hide HeardOthers, FinishSyncStep, Linked, OneSync, Rounds, Acks, AnswerMeets, RoundMeets, Bringup, GenesisAlive;
    HeardSlots(s, nonce, heard);
    hide Replicas, AnswersOk, Heard, SlotsOf;
    AllButOne(|s.slots|, SlotOf(s, s.rounds[nonce].caller), SlotsOf(s, heard));
  }

  lemma AllButOne(n: nat, own: nat, others: set<nat>)
    requires own < n && own !in others && others <= Below(n) && |others| + 1 == n
    ensures forall k :: 0 <= k < n && k != own ==> k in others
  {
    FullSubset({own} + others, Below(n));
    forall k | 0 <= k < n && k != own ensures k in others {
      assert k in {own} + others;
    }
  }

  lemma AnswerOfSlot(s: State, nonce: Nonce, heard: seq<Answer>, s': State, k: nat) returns (a: Answer)
    requires Inv(s) && !s.replaced && HeardOthers(s, nonce, heard, s')
    requires k < |s.slots| && k != SlotOf(s, s.rounds[nonce].caller)
    ensures a in heard && a in s.answers && a.nonce == nonce && a.from == s.slots[k] && SlotOf(s, a.from) == k
  {
    HeardEverySlotButOwn(s, nonce, heard, s');
    SyncIsHeard(s, nonce, heard, s');
    hide HeardOthers, FinishSyncStep, Linked, OneSync, Rounds, Acks, AnswerMeets, RoundMeets, Bringup, GenesisAlive;
    a := AnswerFromSlot(s, heard, k);
    HeardFacts(s, nonce, heard);
    AnswererIsSlot(s, a);
  }

  lemma SomeoneIsReady(s: State, nonce: Nonce, heard: seq<Answer>, s': State)
    requires Inv(s) && BringUpOk(s) && FirstSaysReady(s) && !s.replaced && HeardOthers(s, nonce, heard, s')
    ensures ReadyOnes(heard) != []
  {
    SyncIsHeard(s, nonce, heard, s');
    hide HeardOthers, FinishSyncStep, Inv, Heard, ReadySlots;
    UnreadyCaller(s, nonce);
    var a := AnswerOfSlot(s, nonce, heard, s', 0);
    ReadyOnesAreTheReadyOnes(heard);
  }

  lemma UnreadyCaller(s: State, nonce: Nonce)
    requires Inv(s) && Running(s, nonce) && s.rounds[nonce].request.ReadAll?
    ensures var c := s.rounds[nonce].caller;
            !InnerOf(s, c).ready && SlotOf(s, c) < |s.slots| && s.slots[SlotOf(s, c)] == c
  {
    hide Linked, OneSync, Replicas, AnswersOk, Acks, AnswerMeets, RoundMeets, Bringup, GenesisAlive;
    CallerIsUnready(s, nonce);
  }

  /** Nothing was written while a replica is unready, so no answer carries a counter or `formed`. */
  lemma NothingToHear(s: State, nonce: Nonce, heard: seq<Answer>)
    requires Inv(s) && !s.replaced && Running(s, nonce) && s.rounds[nonce].request.ReadAll? && Heard(s, nonce, heard)
    ensures !s.everFormed && !AnyFormed(heard) && forall a :: a in heard ==> a.counters == map[]
    ensures s.replicas[s.rounds[nonce].caller].inner.views == map[]
  {
    hide Linked, OneSync, Acks, AnswerMeets, RoundMeets, Bringup, GenesisAlive, Heard, Bounded;
    CallerIsUnready(s, nonce);
    UnformedWhileUnready(s, s.rounds[nonce].caller);
    HeardFacts(s, nonce, heard);
  }

  lemma EmptyMaps(answers: seq<Answer>)
    requires forall a :: a in answers ==> a.counters == map[]
    ensures JoinMaps(map[], Maps(answers)) == map[] && Within(map[])
  {
    forall m | m in Maps(answers) ensures m == map[] {
      var j :| 0 <= j < |answers| && Maps(answers)[j] == m;
      assert answers[j] in answers;
    }
    EmptyMapsJoinToEmpty(Maps(answers));
  }

  /** What a sync makes of answers without counters and without `formed`. */
  lemma EmptyTail(n: nat, i: Inner, heard: seq<Answer>, i': Inner)
    requires i.views == map[] && !i.ready && !AnyFormed(heard) && ReadyOnes(heard) != []
    requires forall a :: a in heard ==> a.counters == map[]
    requires SyncTail(n, i, heard, i')
    ensures i'.ready <==> |ReadyOnes(heard)| >= Majority(n) || forall a :: a in ReadyOnes(heard) ==> a.genesis
  {
    ReadyOnesAreTheReadyOnes(heard);
    EmptyMaps(ReadyOnes(heard));
    hide JoinMaps, Within, MapLe, ReadyOnes;
  }

  /**
   A sync that heard every other replica makes its replica ready if and only if a
   majority of the answers are ready or every ready answer reports genesis.
   */
  lemma SyncSucceedsIff(s: State, nonce: Nonce, heard: seq<Answer>, s': State)
    requires Inv(s) && BringUpOk(s) && AnswersTell(s) && !s.replaced && HeardOthers(s, nonce, heard, s')
    ensures s'.replicas[s.rounds[nonce].caller].inner.ready <==>
              |ReadyOnes(heard)| >= Majority(|s.slots|) || forall a :: a in ReadyOnes(heard) ==> a.genesis
  {
    SyncIsHeard(s, nonce, heard, s');
    SomeoneIsReady(s, nonce, heard, s');
    UnreadyCaller(s, nonce);
    NothingToHear(s, nonce, heard);
    hide Inv, Heard, BringUpOk, ReadySlots, SyncTail, ReadyOnes, AnyFormed;
    EmptyTail(|s.slots|, s.replicas[s.rounds[nonce].caller].inner, heard, s'.replicas[s.rounds[nonce].caller].inner);
  }

  lemma ReadyOnesAreHeard(s: State, nonce: Nonce, heard: seq<Answer>, s': State, a: Answer)
    requires HeardOthers(s, nonce, heard, s') && a in ReadyOnes(heard)
    ensures a in s.answers && a.ready
  {
    hide SyncTail;
    ReadyOnesAreTheReadyOnes(heard);
    var k :| 0 <= k < |heard| && heard[k] == a;
  }

  /** If it fails before genesis has run out, a majority is already ready. */
  lemma FailedSyncMeansMajority(s: State, nonce: Nonce, heard: seq<Answer>, s': State)
    requires Inv(s) && BringUpOk(s) && AnswersTell(s) && !s.replaced && !s.expired && HeardOthers(s, nonce, heard, s')
    requires !s'.replicas[s.rounds[nonce].caller].inner.ready
    ensures |ReadySlots(s)| >= Majority(|s.slots|)
  {
    SyncIsHeard(s, nonce, heard, s');
    SyncSucceedsIff(s, nonce, heard, s');
    NothingToHear(s, nonce, heard);
    hide Inv, BringUpOk, ReadySlots, HeardOthers, Heard, Running;
    var a :| a in ReadyOnes(heard) && !a.genesis;
    ReadyOnesAreHeard(s, nonce, heard, s', a);
  }

  // ---- after a majority is ready ----

  /** Answers to rounds begun since state `from` tell that what was ready then is ready. */
  ghost predicate ToldSince(from: State, s: State) {
    s.slots == from.slots
    && forall a :: a in s.answers && a.nonce >= from.nextNonce && a.from in s.slots && SlotOf(s, a.from) in ReadySlots(from) ==> a.ready
  }

  lemma NothingToldYet(s: State)
    requires Inv(s)
    ensures ToldSince(s, s)
  {
    RoundsAreOld(s);
    hide Shape, OneSync, Replicas, Rounds, AnswersOk, Acks, AnswerMeets, RoundMeets, Bringup;
  }

  lemma NextKeepsToldSince(from: State, s: State, step: Step, s': State)
    requires Inv(s) && ToldSince(from, s) && ReadySlots(from) <= ReadySlots(s) && Next(s, step, s') && !s'.replaced
    ensures ToldSince(from, s') && ReadySlots(from) <= ReadySlots(s')
  {
    hide Inv, Next;
    ReadySlotsGrow(s, step, s');
    SlotsStay(s, step, s');
    forall a | a in s'.answers && a.nonce >= from.nextNonce && a.from in s'.slots && SlotOf(s', a.from) in ReadySlots(from)
      ensures a.ready
    {
      if a !in s.answers {
        NewAnswer(s, step, s', a);
        assert SlotOf(s', a.from) in ReadySlots(s');
      }
    }
  }

  lemma SlotsStay(s: State, step: Step, s': State)
    requires Inv(s) && Next(s, step, s') && !s'.replaced
    ensures s'.slots == s.slots && forall id :: id in s.slots ==> SlotOf(s', id) == SlotOf(s, id)
  {
    hide Next;
    NextKeepsInv(s, step, s');
    hide Linked, OneSync, Replicas, Rounds, AnswersOk, Acks, AnswerMeets, RoundMeets, Bringup, GenesisAlive, MapLe;
  }

  lemma {:induction false} RunTellsSince(states: seq<State>, steps: seq<Step>, j: nat, k: nat)
    requires IsRun(states, steps) && j <= k < |states| && !states[k].replaced
    ensures ToldSince(states[j], states[k]) && ReadySlots(states[j]) <= ReadySlots(states[k]) && !states[j].replaced
    decreases k
  {
    hide Inv, Init, Next, ToldSince, ReadySlots;
    RunKeepsInv(states, steps, j);
    if j == k {
      NothingToldYet(states[j]);
    } else {
      RunStep(states, steps, k - 1);
      RunKeepsInv(states, steps, k - 1);
      ReadySlotsGrow(states[k - 1], steps[k - 1], states[k]);
      RunTellsSince(states, steps, j, k - 1);
      NextKeepsToldSince(states[j], states[k - 1], steps[k - 1], states[k]);
    }
  }

  /** A sync begun after a majority was ready hears that majority ready. */
  lemma MajorityIsHeard(from: State, s: State, nonce: Nonce, heard: seq<Answer>, s': State)
    requires Inv(s) && !s.replaced && HeardOthers(s, nonce, heard, s')
    requires ToldSince(from, s) && ReadySlots(from) <= ReadySlots(s) && nonce >= from.nextNonce
    requires |ReadySlots(from)| >= Majority(|s.slots|)
    ensures |ReadyOnes(heard)| >= Majority(|s.slots|)
  {
    SyncIsHeard(s, nonce, heard, s');
    UnreadyCaller(s, nonce);
    hide HeardOthers, Heard, Inv, Running, ToldSince, ReadySlots, SlotsOf;
    forall k | k in ReadySlots(from) ensures k in SlotsOf(s, ReadyOnes(heard)) {
      ReadySlotIsHeard(from, s, nonce, heard, s', k);
    }
    SubsetIsSmaller(ReadySlots(from), SlotsOf(s, ReadyOnes(heard)));
    FewerSlots(s, ReadyOnes(heard));
  }

  lemma ReadySlotIsHeard(from: State, s: State, nonce: Nonce, heard: seq<Answer>, s': State, k: nat)
    requires Inv(s) && !s.replaced && HeardOthers(s, nonce, heard, s')
    requires ToldSince(from, s) && ReadySlots(from) <= ReadySlots(s) && nonce >= from.nextNonce && k in ReadySlots(from)
    ensures k in SlotsOf(s, ReadyOnes(heard))
  {
    SyncIsHeard(s, nonce, heard, s');
    UnreadyCaller(s, nonce);
    hide HeardOthers, Heard, Inv, Running, SlotsOf;
    assert k in ReadySlots(s);
    var a := AnswerOfSlot(s, nonce, heard, s', k);
    ReadyOnesAreTheReadyOnes(heard);
    SlotIsIn(s, ReadyOnes(heard), a);
  }

  lemma {:induction false} FewerSlots(s: State, answers: seq<Answer>)
    ensures |SlotsOf(s, answers)| <= |answers|
  {
    if answers != [] {
      FewerSlots(s, answers[1..]);
      assert SlotsOf(s, answers) == {SlotOf(s, answers[0].from)} + SlotsOf(s, answers[1..]);
    }
  }

  /** Over every run: once a majority is ready, every sync begun after it that hears everyone succeeds. */
  lemma SyncsAfterAMajoritySucceed(states: seq<State>, steps: seq<Step>, j: nat, k: nat)
    requires IsRun(states, steps) && j <= k < |steps| && steps[k].FinishSync? && !states[k].replaced
    requires HeardOthers(states[k], steps[k].nonce, steps[k].heard, states[k + 1])
    requires |ReadySlots(states[j])| >= Majority(|states[j].slots|) && steps[k].nonce >= states[j].nextNonce
    ensures InnerOf(states[k + 1], states[k].rounds[steps[k].nonce].caller).ready
  {
    hide Inv, Init, Next, ReadySlots, BringUpOk, AnswersTell;
    RunKeepsInv(states, steps, k);
    RunKeepsBringUpOk(states, steps, k);
    RunKeepsTelling(states, steps, k);
    RunTellsSince(states, steps, j, k);
    hide HeardOthers, IsRun;
    MajorityIsHeard(states[j], states[k], steps[k].nonce, steps[k].heard, states[k + 1]);
    SyncSucceedsIff(states[k], steps[k].nonce, steps[k].heard, states[k + 1]);
    CallerStays(states[k], steps[k].nonce, steps[k].heard, states[k + 1]);
  }

  lemma CallerStays(s: State, nonce: Nonce, heard: seq<Answer>, s': State)
    requires HeardOthers(s, nonce, heard, s')
    ensures s.rounds[nonce].caller in s'.replicas
  {
    hide Heard, SyncTail;
  }

  // ---- a replica's rounds, one after another ----

  /** Rounds are numbered as they begin, keep what they asked, and never open again. */
  ghost predicate RoundsMoveOn(s: State, s': State) {
    && s.nextNonce <= s'.nextNonce
    && (forall r :: r in s'.rounds ==> r in s.rounds || r >= s.nextNonce)
    && (forall r :: r in s.rounds ==>
        && r in s'.rounds && s'.rounds[r].caller == s.rounds[r].caller && s'.rounds[r].request == s.rounds[r].request
        && (s'.rounds[r].open ==> s.rounds[r].open))
  }

  lemma OpeningMovesOn(s: State, t: State, round: Round)
    requires t.rounds == s.rounds && t.nextNonce == s.nextNonce && s.nextNonce !in s.rounds
    ensures RoundsMoveOn(s, Open(t, round))
  {
  }

  lemma ClosingMovesOn(s: State, t: State, nonce: Nonce)
    requires t.rounds == s.rounds && t.nextNonce == s.nextNonce && nonce in s.rounds
    ensures RoundsMoveOn(s, Close(t, nonce))
  {
  }

  lemma StartMovesOn(s: State, step: Step, s': State)
    requires Next(s, step, s') && s.nextNonce !in s.rounds
    requires step.StartRead? || step.StartSync? || step.StartWrite?
    ensures RoundsMoveOn(s, s')
  {
    hide MergeCluster, Live;
    if step.StartRead? || step.StartSync? {
      OpeningMovesOn(s, s, s'.rounds[s.nextNonce]);
    }
  }

  lemma FinishMovesOn(s: State, step: Step, s': State)
    requires Next(s, step, s')
    requires step.FinishRead? || step.FinishWrite? || step.FinishSync? || step.Abandon?
    ensures RoundsMoveOn(s, s')
  {
    hide Heard, ReadTail, WriteTail, SyncTail, Live, SlotsOf, IdsOf, ReadyOnes;
    ClosingMovesOn(s, s, step.nonce);
  }

  lemma NextMovesOn(s: State, step: Step, s': State)
    requires Inv(s) && Next(s, step, s')
    ensures RoundsMoveOn(s, s')
  {
    RoundsAreOldHere(s);
    hide Inv, RoundsMoveOn, StartReadStep, StartSyncStep, StartWriteStep, FinishReadStep, FinishWriteStep, FinishSyncStep;
    if step.StartRead? || step.StartSync? || step.StartWrite? {
      StartMovesOn(s, step, s');
    } else if step.FinishRead? || step.FinishWrite? || step.FinishSync? || step.Abandon? {
      FinishMovesOn(s, step, s');
    } else {
      hide Reply, GenesisAlive, AnsweredARunningWrite, Live;
      SameRoundsMoveOn(s, s');
    }
  }

  lemma SameRoundsMoveOn(s: State, s': State)
    requires s'.rounds == s.rounds && s'.nextNonce == s.nextNonce
    ensures RoundsMoveOn(s, s')
  {
  }

  lemma RoundsAreOldHere(s: State)
    requires Inv(s)
    ensures s.nextNonce !in s.rounds
  {
    RoundsAreOld(s);
    hide Inv;
  }

  lemma {:induction false} RunMovesOn(states: seq<State>, steps: seq<Step>, j: nat, k: nat)
    requires IsRun(states, steps) && j <= k < |states|
    ensures RoundsMoveOn(states[j], states[k])
    decreases k
  {
    hide Inv, Init, Next;
    if j < k {
      RunMovesOn(states, steps, j, k - 1);
      RunKeepsInv(states, steps, k - 1);
      RunStep(states, steps, k - 1);
      NextMovesOn(states[k - 1], steps[k - 1], states[k]);
    }
  }

  /** A sync that ends later than another of the same replica began after that one ended. */
  lemma LaterSyncIsNewer(states: seq<State>, steps: seq<Step>, j: nat, k: nat)
    requires IsRun(states, steps) && j < k < |steps| && steps[j].FinishSync? && steps[k].FinishSync?
    requires HeardOthers(states[j], steps[j].nonce, steps[j].heard, states[j + 1])
    requires HeardOthers(states[k], steps[k].nonce, steps[k].heard, states[k + 1])
    requires states[j].rounds[steps[j].nonce].caller == states[k].rounds[steps[k].nonce].caller
    ensures steps[k].nonce >= states[j].nextNonce
  {
    hide Inv, Init, Next;
    var (n, m) := (steps[j].nonce, steps[k].nonce);
    SyncIsHeard(states[j], n, steps[j].heard, states[j + 1]);
    SyncIsHeard(states[k], m, steps[k].heard, states[k + 1]);
    SyncIsClosed(states[j], n, steps[j].heard, states[j + 1]);
    RunKeepsInv(states, steps, j);
    RunMovesOn(states, steps, j, k);
    RunMovesOn(states, steps, j + 1, k);
    hide HeardOthers, IsRun, Heard;
    if m in states[j].rounds {
      OneSyncAtATime(states[j], n, m);
      assert false;
    }
  }

  lemma SyncIsClosed(s: State, nonce: Nonce, heard: seq<Answer>, s': State)
    requires HeardOthers(s, nonce, heard, s')
    ensures nonce in s'.rounds && !s'.rounds[nonce].open
  {
    hide Heard, SyncTail;
  }

  lemma OneSyncAtATime(s: State, n: Nonce, m: Nonce)
    requires Inv(s) && OpenSync(s, n) && OpenSync(s, m) && s.rounds[n].caller == s.rounds[m].caller
    ensures n == m
  {
    hide Shape, Linked, Replicas, Rounds, AnswersOk, Acks, AnswerMeets, RoundMeets, Bringup;
  }

  /**
   Two syncs are enough. In every run, on every schedule: of two syncs of one replica that
   each hear every other replica, the second leaves it ready, if nothing was replaced and
   genesis had not run out when the first one ended.
   */
  lemma TwoSyncsAreEnough(states: seq<State>, steps: seq<Step>, j: nat, k: nat)
    requires IsRun(states, steps) && j < k < |steps| && steps[j].FinishSync? && steps[k].FinishSync?
    requires !states[j].expired && !states[k].replaced
    requires HeardOthers(states[j], steps[j].nonce, steps[j].heard, states[j + 1])
    requires HeardOthers(states[k], steps[k].nonce, steps[k].heard, states[k + 1])
    requires states[j].rounds[steps[j].nonce].caller == states[k].rounds[steps[k].nonce].caller
    ensures InnerOf(states[k + 1], states[k].rounds[steps[k].nonce].caller).ready
  {
    hide Inv, Init, Next, BringUpOk, AnswersTell, ReadySlots, HeardOthers, OnlyGrow, GenesisAlive;
    SyncIsHeard(states[j], steps[j].nonce, steps[j].heard, states[j + 1]);
    var c := states[j].rounds[steps[j].nonce].caller;
    hide Heard;
    LaterSyncIsNewer(states, steps, j, k);
    RunKeepsInv(states, steps, j);
    RunKeepsBringUpOk(states, steps, j);
    RunKeepsTelling(states, steps, j);
    RunTellsSince(states, steps, j, k);
    CallerStays(states[j], steps[j].nonce, steps[j].heard, states[j + 1]);
    if states[j + 1].replicas[c].inner.ready {
      StaysReady(states, steps, j + 1, k + 1, c);
    } else {
      FailedSyncMeansMajority(states[j], steps[j].nonce, steps[j].heard, states[j + 1]);
      SyncsAfterAMajoritySucceed(states, steps, j, k);
    }
  }

  lemma StaysReady(states: seq<State>, steps: seq<Step>, j: nat, k: nat, id: Id)
    requires IsRun(states, steps) && j <= k < |states| && InnerOf(states[j], id).ready
    ensures InnerOf(states[k], id).ready
  {
    hide IsRun, GenesisAlive, MapLe;
    RunProgress(states, steps, j, k);
  }

  /** Step `j` ends a sync of slot `slot`'s replica that heard every other replica. */
  ghost predicate SyncsSlot(states: seq<State>, steps: seq<Step>, j: nat, slot: nat)
    requires IsRun(states, steps) && j < |steps|
  {
    && steps[j].FinishSync? && HeardOthers(states[j], steps[j].nonce, steps[j].heard, states[j + 1])
    && slot < |states[j].slots| && states[j].rounds[steps[j].nonce].caller == states[j].slots[slot]
  }

  /**
   Bring-up terminates: in every run without a replacement, whatever the order and the
   delays, once every replica that was not ready has ended two syncs that heard everyone
   before genesis ran out, every replica is ready.
   */
  lemma EveryScheduleEnds(states: seq<State>, steps: seq<Step>, k: nat)
    requires IsRun(states, steps) && k < |states| && !states[k].replaced
    requires forall slot :: 0 <= slot < |states[k].slots| ==>
               InnerOf(states[0], states[k].slots[slot]).ready
               || exists i, j :: 0 <= i < j < k && SyncsSlot(states, steps, i, slot) && SyncsSlot(states, steps, j, slot) && !states[i].expired
    ensures forall slot :: 0 <= slot < |states[k].slots| ==> InnerOf(states[k], states[k].slots[slot]).ready
  {
    hide Init, Next, HeardOthers, InnerOf;
    forall slot | 0 <= slot < |states[k].slots| ensures InnerOf(states[k], states[k].slots[slot]).ready {
      if InnerOf(states[0], states[k].slots[slot]).ready {
        StaysReady(states, steps, 0, k, states[k].slots[slot]);
      } else {
        var i, j :| 0 <= i < j < k && SyncsSlot(states, steps, i, slot) && SyncsSlot(states, steps, j, slot) && !states[i].expired;
        SameSlots(states, steps, i, k);
        SameSlots(states, steps, j, k);
        TwoSyncsAreEnough(states, steps, i, j);
        StaysReady(states, steps, j + 1, k, states[k].slots[slot]);
      }
    }
  }

  lemma SameSlots(states: seq<State>, steps: seq<Step>, j: nat, k: nat)
    requires IsRun(states, steps) && j <= k < |states| && !states[k].replaced
    ensures states[j].slots == states[k].slots && !states[j].replaced
  {
    hide IsRun, ReadySlots;
    RunTellsSince(states, steps, j, k);
  }
}
