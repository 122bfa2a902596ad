/**
 Bring-up, one sync at a time: while nothing is replaced and genesis has not run out, a
 sync whose answers from every other replica are still current makes its replica ready, so
 some run always completes it. `BringUpEnds` treats every run, with answers of any age;
 `SyncGap` shows a sync that hears everyone, too early, and fails.
 */
module BringUp {
  import opened Outcomes
  import opened CounterViews
  import opened CounterReplica
  import opened CounterProtocol
  import opened CounterInvariant
  import opened CounterSteps
  import opened CounterFinish
  import opened CounterReplace
  import opened CounterTheorems

  function ReadySlots(s: State): set<nat> {
    set k | k in Below(|s.slots|) && InnerOf(s, s.slots[k]).ready
  }

  /** How many slots are still to become ready. */
  function Unready(s: State): nat {
    |Below(|s.slots|) - ReadySlots(s)|
  }

  /**
   During bring-up slot 0 is ready, and while fewer than a majority are ready, each
   ready replica is in genesis.
   */
  ghost predicate BringUpOk(s: State) {
    !s.replaced ==>
      && |s.slots| >= 2 && InnerOf(s, s.slots[0]).ready
      && (!s.everFormed && !s.expired && |ReadySlots(s)| < Majority(|s.slots|) ==>
          forall k :: k in ReadySlots(s) ==> InnerOf(s, s.slots[k]).genesis)
  }

  lemma InitIsBringUpOk(s: State)
    requires Init(s)
    ensures BringUpOk(s)
  {
    forall k | k in ReadySlots(s) ensures InnerOf(s, s.slots[k]).genesis {
      assert s.slots[k] == k;
    }
  }

  /** Before the cluster forms, only a sync or an expiry changes a replica. */
  lemma OnlySyncsChangeReplicas(s: State, step: Step, s': State)
    requires Inv(s) && Next(s, step, s') && !s'.everFormed && !s'.replaced && !step.FinishSync? && !s'.expired
    ensures s'.replicas == s.replicas && s'.slots == s.slots
  {
    hide Inv, Heard, GenesisAlive, Reply, ReadTail, WriteTail, SyncTail, MergeCluster;
    match step
    case StartWrite(id, path, update) => FormedReplica(s, id);
    case Answers(id, nonce) =>
      UnformedReplyChangesNothing(s, id, nonce);
      assert s.replicas[id := s.replicas[id]] == s.replicas;
    case FinishRead(nonce, heard) =>
      var c := s.rounds[nonce].caller;
      UnformedReadChangesNothing(s, nonce, heard);
      assert s.replicas[c := s.replicas[c]] == s.replicas;
    case FinishWrite(nonce, heard) => NoWriteBeforeFormed(s, nonce);
    case _ =>
  }

  lemma FormedReplica(s: State, id: Id)
    requires Inv(s) && id in s.replicas
    ensures s.replicas[id].inner.formed ==> s.everFormed
  {
    assert ReplicaOk(s, id);
  }

  lemma NoWriteBeforeFormed(s: State, nonce: Nonce)
    requires Inv(s) && nonce in s.rounds
    ensures s.rounds[nonce].request.Merge? || s.rounds[nonce].formed ==> s.everFormed
  {
    UpdateIsBounded(s, nonce);
  }

  lemma UnformedReplyChangesNothing(s: State, id: Id, nonce: Nonce)
    requires Inv(s) && id in s.replicas && nonce in s.rounds && !s.everFormed
    ensures Reply(s.replicas[id].inner, id, nonce, s.rounds[nonce].request, s.rounds[nonce].formed).0 == s.replicas[id].inner
  {
    hide Inv;
    NoWriteBeforeFormed(s, nonce);
  }

  lemma UnformedReadChangesNothing(s: State, nonce: Nonce, heard: seq<Answer>)
    requires Inv(s) && Running(s, nonce) && s.rounds[nonce].request.ReadOne? && Heard(s, nonce, heard)
    requires !s.everFormed && |ReadyOnes(heard)| + 1 < |s.slots|
    ensures var r := s.rounds[nonce];
            ReadTail(|s.slots|, s.replicas[r.caller].inner, r.request.path, r.view, heard).0 == s.replicas[r.caller].inner
  {
    hide Shape, Linked, OneSync, Replicas, Rounds, Acks, AnswerMeets, RoundMeets, Bringup;
    FormedReplica(s, s.rounds[nonce].caller);
    HeardAreOk(s, nonce, heard);
    ToldIsFormed(s, heard);
    hide AnswersOk, AnswerOk, Heard, FoldViews, Install;
  }

  lemma SyncKeepsBringUpOk(s: State, nonce: Nonce, heard: seq<Answer>, s': State)
    requires Inv(s) && BringUpOk(s) && FinishSyncStep(s, nonce, heard, s') && !s.replaced
    ensures BringUpOk(s')
  {
    hide Linked, OneSync, Rounds, Acks, AnswerMeets, RoundMeets, Bringup, Heard, SyncTail, ReadySlots, Replicas, AnswersOk, Shape, GenesisAlive;
    SyncRaisesReady(s, nonce, heard, s');
    SubsetIsSmaller(ReadySlots(s), ReadySlots(s'));
    CallerIsUnready(s, nonce);
    if !s'.everFormed && !s'.expired && |ReadySlots(s')| < Majority(|s'.slots|) {
      if |ReadyOnes(heard)| >= Majority(|s.slots|) {
        ReadyAnswersAreReadySlots(s, nonce, heard);
        SubsetIsSmaller(SlotsOf(s, ReadyOnes(heard)), ReadySlots(s));
      }
      GenesisOnlyGrows(s, nonce, heard, s');
    }
    ReadySlot(s, 0);
    ReadySlot(s', 0);
  }

  lemma ReadySlot(s: State, k: nat)
    requires k < |s.slots|
    ensures k in ReadySlots(s) <==> InnerOf(s, s.slots[k]).ready
  {
  }

  /** Short of a majority of ready answers, a sync makes its replica ready in genesis or leaves it unready. */
  lemma GenesisOnlyGrows(s: State, nonce: Nonce, heard: seq<Answer>, s': State)
    requires Shape(s) && FinishSyncStep(s, nonce, heard, s') && |ReadyOnes(heard)| < Majority(|s.slots|)
    requires !s.replicas[s.rounds[nonce].caller].inner.ready
    requires forall k :: k in ReadySlots(s) ==> InnerOf(s, s.slots[k]).genesis
    ensures forall k :: k in ReadySlots(s') ==> InnerOf(s', s'.slots[k]).genesis
  {
    SyncRaisesReady(s, nonce, heard, s');
    hide Heard, GenesisRule, JoinMaps, ReadyOnes;
    var c := s.rounds[nonce].caller;
    assert s.slots[SlotOf(s, c)] == c;
    forall k | k in ReadySlots(s') ensures InnerOf(s', s'.slots[k]).genesis {
      if k != SlotOf(s, c) {
        assert k in ReadySlots(s);
      }
    }
  }

  lemma SyncRaisesReady(s: State, nonce: Nonce, heard: seq<Answer>, s': State)
    requires Shape(s) && FinishSyncStep(s, nonce, heard, s')
    ensures ReadySlots(s) <= ReadySlots(s') && s'.slots == s.slots
    ensures forall j :: 0 <= j < |s.slots| && j != SlotOf(s, s.rounds[nonce].caller) ==> InnerOf(s', s.slots[j]) == InnerOf(s, s.slots[j])
  {
    hide Heard, JoinMaps, Within, MapLe, GenesisRule;
    var c := s.rounds[nonce].caller;
    forall j | 0 <= j < |s.slots|
      ensures j != SlotOf(s, c) ==> InnerOf(s', s.slots[j]) == InnerOf(s, s.slots[j])
      ensures InnerOf(s, s.slots[j]).ready ==> InnerOf(s', s.slots[j]).ready
    {
      assert s.slots[j] in s.replicas;
    }
  }

  lemma ReadyAnswersAreReadySlots(s: State, nonce: Nonce, heard: seq<Answer>)
    requires Shape(s) && Replicas(s) && AnswersOk(s) && !s.replaced
    requires nonce in s.rounds && Heard(s, nonce, heard) && Live(s, s.rounds[nonce].caller)
    ensures SlotsOf(s, ReadyOnes(heard)) <= ReadySlots(s)
    ensures |SlotsOf(s, ReadyOnes(heard))| == |ReadyOnes(heard)|
  {
    hide Replicas, AnswersOk, Heard;
    HeardFacts(s, nonce, heard);
    HeardSlots(s, nonce, heard);
    ReadyOnesAreTheReadyOnes(heard);
    forall k | k in SlotsOf(s, ReadyOnes(heard)) ensures k in ReadySlots(s) {
      var a :| a in ReadyOnes(heard) && SlotOf(s, a.from) == k;
      ReadyAnswererIsReady(s, a);
    }
  }

  lemma IsSyncStep(s: State, step: Step, s': State)
    requires Next(s, step, s') && step.FinishSync?
    ensures FinishSyncStep(s, step.nonce, step.heard, s')
  {
    hide FinishSyncStep;
  }

  lemma SameReplicasKeepBringUpOk(s: State, s': State)
    requires BringUpOk(s) && !s.replaced && s'.slots == s.slots && s'.replicas == s.replicas
    requires (s.everFormed ==> s'.everFormed) && (s.expired ==> s'.expired)
    ensures BringUpOk(s')
  {
    assert ReadySlots(s') == ReadySlots(s);
  }

  lemma NextKeepsBringUpOk(s: State, step: Step, s': State)
    requires Inv(s) && BringUpOk(s) && Next(s, step, s')
    ensures BringUpOk(s')
  {
    hide Inv, Next, FinishSyncStep, ReadySlots;
    if !s'.replaced {
      NotReplacedYet(s, step, s');
      if step.FinishSync? {
        IsSyncStep(s, step, s');
        SyncKeepsBringUpOk(s, step.nonce, step.heard, s');
      } else if !s'.everFormed && !s'.expired {
        OnlySyncsChangeReplicas(s, step, s');
        ExpiryAndFormingStay(s, step, s');
        SameReplicasKeepBringUpOk(s, s');
      }
    }
  }

  lemma NotReplacedYet(s: State, step: Step, s': State)
    requires Inv(s) && BringUpOk(s) && Next(s, step, s') && !s'.replaced
    ensures !s.replaced && s'.slots == s.slots && |s.slots| >= 2 && InnerOf(s', s'.slots[0]).ready
  {
    hide Inv, Next, GenesisAlive;
    NextKeepsInv(s, step, s');
    assert s.slots[0] in s.replicas;
  }

  lemma ExpiryAndFormingStay(s: State, step: Step, s': State)
    requires Next(s, step, s')
    ensures (s.expired ==> s'.expired) && (s.everFormed ==> s'.everFormed)
  {
    hide Heard, GenesisAlive, Reply, ReadTail, WriteTail, SyncTail, MergeCluster;
  }

  // ---- a sync that hears everyone as they are succeeds ----

  /** An answer to a sync that tells what its sender now is. */
  ghost predicate Current(s: State, a: Answer) {
    a.from in s.replicas && a == AnswerBody(s.replicas[a.from].inner, a.from, a.nonce, s.replicas[a.from].inner.views)
  }

  /** A sync that is open, and answers to it from every other replica, as they now are. */
  ghost predicate HeardAll(s: State, nonce: Nonce, heard: seq<Answer>) {
    && Running(s, nonce) && s.rounds[nonce].request.ReadAll?
    && Heard(s, nonce, heard) && |heard| + 1 == |s.slots|
    && forall a :: a in heard ==> Current(s, a)
  }

  lemma UnformedWhileUnready(s: State, id: Id)
    requires Inv(s) && !s.replaced && Live(s, id) && !s.replicas[id].inner.ready
    ensures !s.everFormed
    ensures forall x :: x in s.replicas ==> !s.replicas[x].inner.formed && s.replicas[x].inner.views == map[]
  {
    hide Linked, OneSync, Rounds, AnswersOk, Acks, AnswerMeets, RoundMeets, Le, Within, Bounded, GenesisAlive;
    assert InnerOf(s, s.slots[SlotOf(s, id)]) == s.replicas[id].inner;
    forall x | x in s.replicas
      ensures !s.everFormed && !s.replicas[x].inner.formed && s.replicas[x].inner.views == map[]
    {
      assert ReplicaOk(s, x);
    }
  }

  lemma CallerIsUnready(s: State, nonce: Nonce)
    requires Rounds(s) && Running(s, nonce) && s.rounds[nonce].request.ReadAll?
    ensures !s.replicas[s.rounds[nonce].caller].inner.ready
  {
    assert RoundOk(s, nonce);
  }

  /** Hearing everyone includes hearing slot 0, which is ready. */
  lemma HeardAllHearsSlot0(s: State, nonce: Nonce, heard: seq<Answer>) returns (a: Answer)
    requires Shape(s) && Replicas(s) && AnswersOk(s) && !s.replaced && BringUpOk(s) && HeardAll(s, nonce, heard)
    requires !s.replicas[s.rounds[nonce].caller].inner.ready
    ensures a in ReadyOnes(heard)
  {
    hide Shape, Replicas, AnswersOk, SlotsOf, Heard, AnswerOk;
    HeardFacts(s, nonce, heard);
    HeardSlots(s, nonce, heard);
    var all := {SlotOf(s, s.rounds[nonce].caller)} + SlotsOf(s, heard);
    FullSubset(all, Below(|s.slots|));
    assert 0 in all;
    assert 0 in SlotsOf(s, heard);
    a := AnswerFromSlot(s, heard, 0);
    AnswererIsSlot(s, a);
    ReadyOnesAreTheReadyOnes(heard);
  }

  lemma AnswerFromSlot(s: State, heard: seq<Answer>, k: nat) returns (a: Answer)
    requires k in SlotsOf(s, heard)
    ensures a in heard && SlotOf(s, a.from) == k
  {
    a :| a in heard && SlotOf(s, a.from) == k;
  }

  lemma AnswererIsSlot(s: State, a: Answer)
    requires Shape(s) && !s.replaced && AnswerOk(s, a)
    ensures a.from in s.replicas && SlotOf(s, a.from) < |s.slots| && s.slots[SlotOf(s, a.from)] == a.from
  {
  }

  lemma CurrentIsUnformed(s: State, a: Answer)
    requires Current(s, a)
    requires forall x :: x in s.replicas ==> !s.replicas[x].inner.formed && s.replicas[x].inner.views == map[]
    ensures !a.formed && a.counters == map[]
  {
  }

  lemma ReadyIsGenesis(s: State, a: Answer)
    requires BringUpOk(s) && !s.replaced && !s.expired && !s.everFormed && |ReadySlots(s)| < Majority(|s.slots|)
    requires SlotOf(s, a.from) < |s.slots| && s.slots[SlotOf(s, a.from)] == a.from
    requires Current(s, a) && a.ready && !s.replicas[a.from].inner.formed
    ensures a.genesis
  {
    assert SlotOf(s, a.from) in ReadySlots(s);
  }

  /** Short of a majority of ready answers, every ready answer is a genesis replica's. */
  lemma FewReadyMeansGenesis(s: State, nonce: Nonce, heard: seq<Answer>)
    requires Inv(s) && BringUpOk(s) && !s.replaced && !s.expired && HeardAll(s, nonce, heard)
    requires |ReadyOnes(heard)| < Majority(|s.slots|)
    ensures GenesisRule(heard)
  {
    hide Shape, Linked, OneSync, Replicas, Rounds, AnswersOk, Acks, AnswerMeets, RoundMeets, Bringup, BringUpOk, Heard, AnswerOk;
    CallerIsUnready(s, nonce);
    UnformedWhileUnready(s, s.rounds[nonce].caller);
    var first := HeardAllHearsSlot0(s, nonce, heard);
    ReadyOnesAreTheReadyOnes(heard);
    ReadySlotsAreHeard(s, nonce, heard);
    HeardFacts(s, nonce, heard);
    hide ReadySlots, Current, Majority;
    forall a | a in heard
      ensures !a.formed && a.counters == map[] && (a.ready ==> a.genesis)
    {
      CurrentIsUnformed(s, a);
      AnswererIsSlot(s, a);
      if a.ready {
        ReadyIsGenesis(s, a);
      }
    }
  }

  lemma ReadySlotsAreHeard(s: State, nonce: Nonce, heard: seq<Answer>)
    requires Shape(s) && Replicas(s) && AnswersOk(s) && !s.replaced && HeardAll(s, nonce, heard)
    requires !s.replicas[s.rounds[nonce].caller].inner.ready
    ensures |ReadySlots(s)| <= |ReadyOnes(heard)|
  {
    hide Shape, Replicas, AnswersOk, SlotsOf, Heard, AnswerOk;
    HeardFacts(s, nonce, heard);
    HeardSlots(s, nonce, heard);
    ReadyOnesAreTheReadyOnes(heard);
    var own := SlotOf(s, s.rounds[nonce].caller);
    FullSubset({own} + SlotsOf(s, heard), Below(|s.slots|));
    forall k | k in ReadySlots(s) ensures k in SlotsOf(s, ReadyOnes(heard)) {
      assert k in {own} + SlotsOf(s, heard);
      assert k != own;
      var a := AnswerFromSlot(s, heard, k);
      AnswererIsSlot(s, a);
      assert Current(s, a);
      SlotIsIn(s, ReadyOnes(heard), a);
    }
    SubsetIsSmaller(ReadySlots(s), SlotsOf(s, ReadyOnes(heard)));
  }

  lemma SlotIsIn(s: State, answers: seq<Answer>, a: Answer)
    requires a in answers
    ensures SlotOf(s, a.from) in SlotsOf(s, answers)
  {
  }

  lemma HeardEveryoneBecomesReady(s: State, nonce: Nonce, heard: seq<Answer>, i': Inner)
    requires Inv(s) && BringUpOk(s) && !s.replaced && !s.expired && HeardAll(s, nonce, heard)
    ensures SyncTail(|s.slots|, s.replicas[s.rounds[nonce].caller].inner, heard, i') ==> i'.ready
  {
    hide Inv, BringUpOk, Heard, GenesisRule, HeardAll, JoinMaps, MapLe, Within;
    if |ReadyOnes(heard)| >= Majority(|s.slots|) {
      NothingToJoin(s, nonce, heard);
    } else {
      FewReadyMeansGenesis(s, nonce, heard);
    }
  }

  lemma NothingToJoin(s: State, nonce: Nonce, heard: seq<Answer>)
    requires Inv(s) && !s.replaced && HeardAll(s, nonce, heard)
    ensures JoinMaps(s.replicas[s.rounds[nonce].caller].inner.views, Maps(ReadyOnes(heard))) == map[] && Within(map[])
  {
    hide Shape, Linked, OneSync, Replicas, Rounds, AnswersOk, Acks, AnswerMeets, RoundMeets, Bringup, Heard;
    CallerIsUnready(s, nonce);
    UnformedWhileUnready(s, s.rounds[nonce].caller);
    EmptyAnswersJoinToEmpty(s, nonce, heard);
  }

  lemma OneMoreIsReady(s: State, nonce: Nonce, heard: seq<Answer>, s': State)
    requires Shape(s) && FinishSyncStep(s, nonce, heard, s')
    requires !s.replicas[s.rounds[nonce].caller].inner.ready && s'.replicas[s.rounds[nonce].caller].inner.ready
    ensures var k := SlotOf(s, s.rounds[nonce].caller);
            && s'.slots == s.slots && k < |s.slots| && k !in ReadySlots(s) && ReadySlots(s') == ReadySlots(s) + {k}
  {
    SyncRaisesReady(s, nonce, heard, s');
    hide Shape, SyncTail, Heard;
    var c := s.rounds[nonce].caller;
    var k := SlotOf(s, c);
    assert s.slots[k] == c;
    forall j | j in ReadySlots(s') ensures j in ReadySlots(s) + {k} {
      if j != k {
        assert InnerOf(s', s.slots[j]) == InnerOf(s, s.slots[j]);
      }
    }
  }

  lemma OneFewerOutside(all: set<nat>, some: set<nat>, k: nat)
    requires k in all && k !in some
    ensures |all - (some + {k})| == |all - some| - 1
  {
    assert all - (some + {k}) == (all - some) - {k};
  }

  lemma OneFewerLeft(s: State, nonce: Nonce, heard: seq<Answer>, s': State)
    requires Shape(s) && FinishSyncStep(s, nonce, heard, s')
    requires !s.replicas[s.rounds[nonce].caller].inner.ready && s'.replicas[s.rounds[nonce].caller].inner.ready
    ensures |s'.slots| == |s.slots| && Unready(s') == Unready(s) - 1
  {
    hide Shape, SyncTail, Heard, ReadySlots;
    OneMoreIsReady(s, nonce, heard, s');
    OneFewerOutside(Below(|s.slots|), ReadySlots(s), SlotOf(s, s.rounds[nonce].caller));
  }

  /**
   While nothing was replaced and genesis has not run out, a sync that hears every other
   replica as it now is succeeds: its replica becomes ready, and one fewer is left.
   */
  lemma SyncWithCurrentAnswersSucceeds(s: State, nonce: Nonce, heard: seq<Answer>, s': State)
    requires Inv(s) && BringUpOk(s) && !s.replaced && !s.expired
    requires HeardAll(s, nonce, heard) && FinishSyncStep(s, nonce, heard, s')
    ensures s'.replicas[s.rounds[nonce].caller].inner.ready
    ensures |s'.slots| == |s.slots| && Unready(s') == Unready(s) - 1
  {
    hide Shape, Linked, OneSync, Replicas, Rounds, AnswersOk, Acks, AnswerMeets, RoundMeets, Bringup, BringUpOk, Heard, SyncTail, Unready;
    CallerIsUnready(s, nonce);
    HeardEveryoneBecomesReady(s, nonce, heard, s'.replicas[s.rounds[nonce].caller].inner);
    OneFewerLeft(s, nonce, heard, s');
  }

  lemma EmptyAnswersJoinToEmpty(s: State, nonce: Nonce, heard: seq<Answer>)
    requires HeardAll(s, nonce, heard)
    requires forall x :: x in s.replicas ==> s.replicas[x].inner.views == map[]
    ensures JoinMaps(s.replicas[s.rounds[nonce].caller].inner.views, Maps(ReadyOnes(heard))) == map[]
    ensures Within(map[])
  {
    ReadyOnesAreTheReadyOnes(heard);
    var ready := ReadyOnes(heard);
    forall m | m in Maps(ready) ensures m == map[] {
      var j :| 0 <= j < |ready| && Maps(ready)[j] == m;
      assert ready[j] in ready && Current(s, ready[j]);
    }
    EmptyMapsJoinToEmpty(Maps(ready));
  }

  // ---- and there is a run to the end ----

  /** `s'` is `n` steps after `s`. */
  ghost predicate ReachesIn(n: nat, s: State, s': State) {
    if n == 0 then s == s'
    else exists step, m :: Next(s, step, m) && ReachesIn(n - 1, m, s')
  }

  lemma ReachesSelf(s: State)
    ensures ReachesIn(0, s, s)
  {
  }

  lemma {:induction false} ReachesOn(n: nat, s: State, m: State, step: Step, s': State)
    requires ReachesIn(n, s, m) && Next(m, step, s')
    ensures ReachesIn(n + 1, s, s')
  {
    hide Next;
    if n == 0 {
      ReachesSelf(s');
    } else {
      var first, t :| Next(s, first, t) && ReachesIn(n - 1, t, m);
      ReachesOn(n - 1, t, m, step, s');
    }
  }

  lemma {:induction false} ReachesFarther(a: nat, s: State, m: State, b: nat, s': State)
    requires ReachesIn(a, s, m) && ReachesIn(b, m, s')
    ensures ReachesIn(a + b, s, s')
    decreases b
  {
    hide Next;
    if b > 0 {
      var step, t :| Next(m, step, t) && ReachesIn(b - 1, t, s');
      ReachesOn(a, s, m, step, t);
      ReachesFarther(a + 1, s, t, b - 1, s');
    }
  }

  ghost predicate Rising(s: State) {
    Inv(s) && BringUpOk(s) && !s.replaced && !s.expired
  }

  /** One more replica answers an open sync; the answer is all that changes. */
  lemma OneMoreAnswer(s: State, nonce: Nonce, k: nat) returns (s': State, a: Answer)
    requires Rising(s) && Running(s, nonce) && s.rounds[nonce].request.ReadAll?
    requires k < |s.slots| && s.slots[k] != s.rounds[nonce].caller
    ensures Next(s, Answers(s.slots[k], nonce), s') && Rising(s')
    ensures a.from == s.slots[k] && a.nonce == nonce && SlotOf(s, a.from) == k && Current(s, a)
    ensures s' == s.(answers := s.answers + {a})
  {
    hide Inv, BringUpOk;
    var id := s.slots[k];
    LiveSlot(s, k);
    SyncMeansUnformed(s, nonce);
    UnformedReplyChangesNothing(s, id, nonce);
    a := AnswerBody(s.replicas[id].inner, id, nonce, s.replicas[id].inner.views);
    s' := s.(answers := s.answers + {a});
    AnswersOnly(s, id, nonce, a, s');
    NextIsRising(s, Answers(id, nonce), s');
  }

  lemma AnswersOnly(s: State, id: Id, nonce: Nonce, a: Answer, s': State)
    requires Live(s, id) && nonce in s.rounds && s.rounds[nonce].request.ReadAll?
    requires Reply(s.replicas[id].inner, id, nonce, s.rounds[nonce].request, s.rounds[nonce].formed).0 == s.replicas[id].inner
    requires a == AnswerBody(s.replicas[id].inner, id, nonce, s.replicas[id].inner.views)
    requires s' == s.(answers := s.answers + {a})
    ensures Next(s, Answers(id, nonce), s')
  {
    assert s.replicas[id := s.replicas[id]] == s.replicas;
  }

  lemma LiveSlot(s: State, k: nat)
    requires Inv(s) && k < |s.slots|
    ensures Live(s, s.slots[k]) && SlotOf(s, s.slots[k]) == k
  {
    hide Linked, OneSync, Rounds, Acks, AnswerMeets, RoundMeets, Bringup, AnswersOk, Replicas;
    SlotIsLive(s, k);
  }

  lemma SlotIsLive(s: State, k: nat)
    requires Shape(s) && k < |s.slots|
    ensures Live(s, s.slots[k]) && SlotOf(s, s.slots[k]) == k
  {
  }

  lemma SyncMeansUnformed(s: State, nonce: Nonce)
    requires Inv(s) && !s.replaced && Running(s, nonce) && s.rounds[nonce].request.ReadAll?
    ensures !s.everFormed
  {
    CallerIsUnready(s, nonce);
    UnformedWhileUnready(s, s.rounds[nonce].caller);
  }

  /** The first `k` slots answer an open sync, one after another. */
  lemma {:induction false} SlotsAnswer(s: State, nonce: Nonce, k: nat) returns (n: nat, s': State, heard: seq<Answer>)
    requires Rising(s) && Running(s, nonce) && s.rounds[nonce].request.ReadAll? && k <= |s.slots|
    ensures ReachesIn(n, s, s') && Rising(s')
    ensures s' == s.(answers := s'.answers)
    ensures Heard(s', nonce, heard) && forall a :: a in heard ==> Current(s', a) && SlotOf(s', a.from) < k
    ensures |heard| == if SlotOf(s, s.rounds[nonce].caller) < k then k - 1 else k
  {
    hide Rising, Next, Heard, Current, ReachesIn, Running;
    if k == 0 {
      n, s', heard := 0, s, [];
      ReachesSelf(s);
      HeardNothing(s, nonce);
    } else {
      var m: nat, t: State, before: seq<Answer>;
      m, t, before := SlotsAnswer(s, nonce, k - 1);
      StillRunning(s, t, nonce);
      if SlotOf(s, s.rounds[nonce].caller) == k - 1 {
        n, s', heard := m, t, before;
      } else {
        n, s', heard := SlotAnswers(s, nonce, k - 1, m, t, before);
      }
    }
  }

  lemma HeardNothing(s: State, nonce: Nonce)
    requires Running(s, nonce)
    ensures Heard(s, nonce, [])
  {
  }

  lemma StillRunning(s: State, t: State, nonce: Nonce)
    requires Running(s, nonce) && t == s.(answers := t.answers)
    ensures Running(t, nonce) && SlotOf(t, t.rounds[nonce].caller) == SlotOf(s, s.rounds[nonce].caller)
  {
  }

  lemma SlotAnswers(s: State, nonce: Nonce, k: nat, m: nat, t: State, before: seq<Answer>) returns (n: nat, s': State, heard: seq<Answer>)
    requires ReachesIn(m, s, t) && Rising(t) && Running(t, nonce) && t.rounds[nonce].request.ReadAll? && k < |t.slots|
    requires SlotOf(t, t.rounds[nonce].caller) != k
    requires Heard(t, nonce, before) && forall a :: a in before ==> Current(t, a) && SlotOf(t, a.from) < k
    ensures ReachesIn(n, s, s') && Rising(s')
    ensures s' == t.(answers := s'.answers)
    ensures Heard(s', nonce, heard) && forall a :: a in heard ==> Current(s', a) && SlotOf(s', a.from) < k + 1
    ensures |heard| == |before| + 1
  {
    hide Rising, Next, Heard, Current, ReachesIn;
    CallerSlot(t, nonce, k);
    var a: Answer;
    s', a := OneMoreAnswer(t, nonce, k);
    n, heard := m + 1, before + [a];
    HeardOneMore(t, nonce, k, before, a, s');
    ReachesOn(m, s, t, Answers(t.slots[k], nonce), s');
  }

  lemma HeardOneMore(t: State, nonce: Nonce, k: nat, before: seq<Answer>, a: Answer, s': State)
    requires nonce in t.rounds && SlotOf(t, t.rounds[nonce].caller) != k
    requires Heard(t, nonce, before) && forall x :: x in before ==> Current(t, x) && SlotOf(t, x.from) < k
    requires a.nonce == nonce && SlotOf(t, a.from) == k && Current(t, a)
    requires s' == t.(answers := t.answers + {a})
    ensures Heard(s', nonce, before + [a])
    ensures forall x :: x in before + [a] ==> Current(s', x) && SlotOf(s', x.from) < k + 1
  {
    assert forall j :: 0 <= j < |before| ==> before[j] in before;
    forall x | x in before + [a] ensures Current(s', x) && SlotOf(s', x.from) < k + 1 {
      assert x == a || x in before;
    }
  }

  lemma CallerSlot(s: State, nonce: Nonce, k: nat)
    requires Running(s, nonce) && k < |s.slots| && SlotOf(s, s.rounds[nonce].caller) != k && Rising(s)
    ensures s.slots[k] != s.rounds[nonce].caller
  {
  }

  lemma NextIsRising(s: State, step: Step, s': State)
    requires Rising(s) && Next(s, step, s') && !s'.replaced && !s'.expired
    ensures Rising(s')
  {
    hide Inv, BringUpOk, Next, Progress;
    NextKeepsInv(s, step, s');
    NextKeepsBringUpOk(s, step, s');
  }

  lemma StartsSync(s: State, k: nat) returns (t: State)
    requires Rising(s) && k < |s.slots| && !InnerOf(s, s.slots[k]).ready
    requires forall r :: OpenSync(s, r) ==> CallerOf(s, r) != s.slots[k]
    ensures Next(s, StartSync(s.slots[k]), t) && Rising(t)
    ensures t.slots == s.slots && t.replicas == s.replicas
    ensures Running(t, s.nextNonce) && t.rounds[s.nextNonce].request.ReadAll? && t.rounds[s.nextNonce].caller == s.slots[k]
  {
    hide Inv, BringUpOk;
    var id := s.slots[k];
    LiveSlot(s, k);
    t := Open(s, Round(id, ReadAll, s.replicas[id].inner.formed, EMPTY, true));
    forall r | r in s.rounds && s.rounds[r].caller == id && s.rounds[r].request.ReadAll?
      ensures !s.rounds[r].open
    {
      assert OpenSync(s, r) || !s.rounds[r].open;
    }
    assert StartSyncStep(s, id, t);
    NextIsRising(s, StartSync(id), t);
  }

  /** What a sync that heard everyone leaves its caller with. */
  lemma SyncHasAnOutcome(s: State, nonce: Nonce, heard: seq<Answer>) returns (i': Inner)
    requires Inv(s) && BringUpOk(s) && !s.replaced && !s.expired && HeardAll(s, nonce, heard)
    ensures SyncTail(|s.slots|, s.replicas[s.rounds[nonce].caller].inner, heard, i')
  {
    hide Inv, BringUpOk, Heard, GenesisRule, AnyFormed, JoinMaps, MapLe, Within;
    var i := s.replicas[s.rounds[nonce].caller].inner;
    if |ReadyOnes(heard)| >= Majority(|s.slots|) {
      NothingToJoin(s, nonce, heard);
      var synced := i.(views := map[], ready := true);
      i' := if AnyFormed(heard) then LearnFormed(synced) else synced;
    } else {
      FewReadyMeansGenesis(s, nonce, heard);
      i' := i.(ready := true, genesis := true);
    }
  }

  lemma FinishesSync(s: State, nonce: Nonce, heard: seq<Answer>) returns (s': State)
    requires Rising(s) && HeardAll(s, nonce, heard)
    ensures Next(s, FinishSync(nonce, heard), s') && Rising(s')
    ensures |s'.slots| == |s.slots| && Unready(s') == Unready(s) - 1
  {
    hide Inv, BringUpOk, Heard, SyncTail, Unready;
    var c := s.rounds[nonce].caller;
    var i' := SyncHasAnOutcome(s, nonce, heard);
    s' := Close(PutInner(s, c, i'), nonce);
    assert FinishSyncStep(s, nonce, heard, s');
    NextIsRising(s, FinishSync(nonce, heard), s');
    SyncWithCurrentAnswersSucceeds(s, nonce, heard, s');
  }

  /** One unready replica asks everyone, everyone answers, and it is ready. */
  lemma OneReplicaSyncs(s: State, k: nat) returns (n: nat, s': State)
    requires Rising(s) && k < |s.slots| && !InnerOf(s, s.slots[k]).ready
    requires forall r :: OpenSync(s, r) ==> CallerOf(s, r) != s.slots[k]
    ensures ReachesIn(n, s, s') && Rising(s')
    ensures |s'.slots| == |s.slots| && Unready(s') == Unready(s) - 1
  {
    hide Rising, Next, InnerOf, Heard, HeardAll, Current, ReachesIn, Unready;
    var nonce := s.nextNonce;
    var t := StartsSync(s, k);
    var m: nat, u: State, heard: seq<Answer>;
    m, u, heard := SlotsAnswer(t, nonce, |t.slots|);
    EveryoneAnswered(t, nonce, u, heard);
    s' := FinishesSync(u, nonce, heard);
    SameUnready(s, u);
    ReachesSelf(s);
    ReachesOn(0, s, s, StartSync(s.slots[k]), t);
    ReachesFarther(1, s, t, m, u);
    ReachesOn(1 + m, s, u, FinishSync(nonce, heard), s');
    n := 1 + m + 1;
  }

  lemma EveryoneAnswered(t: State, nonce: Nonce, u: State, heard: seq<Answer>)
    requires Rising(t) && Running(t, nonce) && t.rounds[nonce].request.ReadAll?
    requires u == t.(answers := u.answers)
    requires Heard(u, nonce, heard) && forall a :: a in heard ==> Current(u, a)
    requires |heard| == if SlotOf(t, t.rounds[nonce].caller) < |t.slots| then |t.slots| - 1 else |t.slots|
    ensures HeardAll(u, nonce, heard)
  {
  }

  lemma SameUnready(s: State, u: State)
    requires u.slots == s.slots && u.replicas == s.replicas
    ensures Unready(u) == Unready(s)
  {
    assert ReadySlots(u) == ReadySlots(s);
  }

  /** Give up on the one sync a replica may have open. */
  lemma AbandonsSync(s: State, r: Nonce) returns (t: State)
    requires Rising(s) && OpenSync(s, r)
    ensures Next(s, Abandon(r), t) && Rising(t)
    ensures t.slots == s.slots && t.replicas == s.replicas
    ensures forall q :: OpenSync(t, q) ==> CallerOf(t, q) != CallerOf(s, r)
  {
    hide Inv, BringUpOk;
    t := Close(s, r);
    OnlyOneWasOpen(s, r);
    NextIsRising(s, Abandon(r), t);
  }

  lemma OnlyOneWasOpen(s: State, r: Nonce)
    requires Inv(s) && OpenSync(s, r)
    ensures forall q :: OpenSync(Close(s, r), q) ==> CallerOf(Close(s, r), q) != CallerOf(s, r)
  {
    hide Shape, Linked, Replicas, Rounds, AnswersOk, Acks, AnswerMeets, RoundMeets, Bringup;
    forall q | OpenSync(Close(s, r), q) ensures CallerOf(Close(s, r), q) != CallerOf(s, r) {
      assert OpenSync(s, q);
    }
  }

  /**
   Bring-up never gets stuck: from every reachable state in which nothing was replaced and
   genesis has not run out, some run makes every replica ready.
   */
  lemma {:induction false} SomeRunCompletesBringUp(s: State) returns (n: nat, s': State)
    requires Rising(s)
    ensures ReachesIn(n, s, s') && Rising(s')
    ensures forall k :: 0 <= k < |s'.slots| ==> InnerOf(s', s'.slots[k]).ready
    decreases Unready(s)
  {
    hide Rising, Next, ReachesIn, OpenSync, Unready, InnerOf, CallerOf, ReadySlots;
    if Unready(s) == 0 {
      n, s' := 0, s;
      ReachesSelf(s);
      NoneLeft(s);
    } else {
      var k := SomeLeft(s);
      var a: nat, t: State;
      a, t := ClearsSync(s, k);
      var b: nat, u: State;
      b, u := OneReplicaSyncs(t, k);
      ReachesFarther(a, s, t, b, u);
      var c: nat;
      c, s' := SomeRunCompletesBringUp(u);
      ReachesFarther(a + b, s, u, c, s');
      n := a + b + c;
    }
  }

  /** At most one step leaves a replica without an open sync. */
  lemma ClearsSync(s: State, k: nat) returns (n: nat, t: State)
    requires Rising(s) && k < |s.slots|
    ensures ReachesIn(n, s, t) && Rising(t)
    ensures t.slots == s.slots && t.replicas == s.replicas && Unready(t) == Unready(s)
    ensures InnerOf(t, t.slots[k]) == InnerOf(s, s.slots[k])
    ensures forall r :: OpenSync(t, r) ==> CallerOf(t, r) != t.slots[k]
  {
    hide Rising, Next, ReachesIn, OpenSync, Unready;
    ReachesSelf(s);
    if r :| OpenSync(s, r) && CallerOf(s, r) == s.slots[k] {
      t := AbandonsSync(s, r);
      SameUnready(s, t);
      ReachesOn(0, s, s, Abandon(r), t);
      n := 1;
    } else {
      n, t := 0, s;
    }
  }

  function CallerOf(s: State, r: Nonce): Id {
    if r in s.rounds then s.rounds[r].caller else 0
  }

  lemma NoneLeft(s: State)
    requires Unready(s) == 0
    ensures forall k :: 0 <= k < |s.slots| ==> InnerOf(s, s.slots[k]).ready
  {
    assert Below(|s.slots|) - ReadySlots(s) == {};
    forall k | 0 <= k < |s.slots| ensures InnerOf(s, s.slots[k]).ready {
      assert k in Below(|s.slots|);
    }
  }

  lemma SomeLeft(s: State) returns (k: nat)
    requires Unready(s) != 0
    ensures k < |s.slots| && !InnerOf(s, s.slots[k]).ready
  {
    k :| k in Below(|s.slots|) - ReadySlots(s);
  }

  /** Every run of a cluster without replacements or expiry can be brought up to the end. */
  lemma {:induction false} RunsRise(states: seq<State>, steps: seq<Step>, k: nat)
    requires IsRun(states, steps) && k < |states| && !states[k].replaced && !states[k].expired
    ensures Rising(states[k])
  {
    hide Inv, Init, Next, BringUpOk;
    RunKeepsInv(states, steps, k);
    RunKeepsBringUpOk(states, steps, k);
  }

  lemma {:induction false} RunKeepsBringUpOk(states: seq<State>, steps: seq<Step>, k: nat)
    requires IsRun(states, steps) && k < |states|
    ensures BringUpOk(states[k])
  {
    hide Inv, Init, Next, BringUpOk;
    if k == 0 {
      InitIsBringUpOk(states[0]);
    } else {
      RunKeepsBringUpOk(states, steps, k - 1);
      RunKeepsInv(states, steps, k - 1);
      RunStep(states, steps, k - 1);
      NextKeepsBringUpOk(states[k - 1], steps[k - 1], states[k]);
    }
  }
}
