/**
 The steps in which answers meet rounds keep the invariant: replies, the tails of
 reads, writes and syncs, and the replacement of a replica.
 */
module CounterFinish {
  import opened Outcomes
  import opened CounterViews
  import opened CounterReplica
  import opened CounterProtocol
  import opened CounterInvariant
  import opened CounterSteps

  // ---- replies ----

  /** An update on its way is below the plain map. */
  lemma UpdateIsBounded(s: State, nonce: Nonce)
    requires Rounds(s) && nonce in s.rounds
    ensures s.rounds[nonce].formed ==> s.everFormed
    ensures s.rounds[nonce].request.Merge? ==>
              s.everFormed && Le(s.rounds[nonce].request.update, Plain(s.writes, s.rounds[nonce].request.path))
  {
    assert RoundOk(s, nonce);
    var r := s.rounds[nonce];
    if r.request.Merge? {
      LeIsTransitive(r.request.update, r.view, Plain(s.writes, r.request.path));
    }
  }

  /** A map below the plain map stays so when it merges what the plain map has. */
  lemma MergeStaysBounded(m: CounterMap, writes: seq<Write>, path: string, update: Cluster)
    requires Bounded(m, writes) && Le(update, Plain(writes, path))
    ensures Bounded(MergeCluster(m, path, update).0, writes)
  {
    var m' := MergeCluster(m, path, update).0;
    if MergeCluster(m, path, update).1.Some? {
      MergeClusterAccepts(m, path, update);
    } else {
      MergeClusterRefuses(m, path, update);
    }
    JoinIsLeastUpperBound(View(m, path), update);
    forall p ensures Le(View(m', p), Plain(writes, p)) {
      assert Le(View(m, p), Plain(writes, p));
    }
  }

  lemma ReplyRaises(s: State, id: Id, nonce: Nonce)
    requires Inv(s) && Live(s, id) && nonce in s.rounds
    ensures var r := s.rounds[nonce];
            RaiseOk(s, id, Reply(s.replicas[id].inner, id, nonce, r.request, r.formed).0)
  {
    hide Rounds, AnswersOk, Acks, AnswerMeets, RoundMeets, Bringup, Linked, Shape, OneSync, Le, Plain;
    var r := s.rounds[nonce];
    var i := s.replicas[id].inner;
    assert ReplicaOk(s, id);
    UpdateIsBounded(s, nonce);
    ReplyGrows(i, id, nonce, r.request, r.formed);
    if r.request.Merge? {
      MergeStaysBounded(i.views, s.writes, r.request.path, r.request.update);
    }
  }

  lemma ReplyIsOk(s: State, id: Id, nonce: Nonce, i: Inner, s1: State, a: Answer)
    requires Live(s, id) && nonce in s.rounds && Within(s.replicas[id].inner.views)
    requires Reply(s.replicas[id].inner, id, nonce, s.rounds[nonce].request, s.rounds[nonce].formed) == (i, Some(a))
    requires s1 == PutInner(s, id, i) && RaiseOk(s, id, i) && (s.rounds[nonce].request.Merge? ==> s.everFormed)
    ensures AnswerOk(s1.(answers := s1.answers + {a}), a)
    ensures a.genesis ==> GenesisAlive(s1)
  {
    var r := s.rounds[nonce];
    ReplyGrows(s.replicas[id].inner, id, nonce, r.request, r.formed);
    forall p ensures Le(View(a.counters, p), Plain(s1.writes, p)) {
      ReplyShowsTheView(s.replicas[id].inner, id, nonce, r.request, r.formed, p);
      LeIsReflexive(Plain(s1.writes, p));
    }
    if r.request.Merge? {
      ReplyTookTheWrite(s.replicas[id].inner, id, nonce, r.request.path, r.request.update, r.formed);
    }
    assert Live(s1, id);
  }

  /** An answer that shows what its live sender holds meets every acknowledgement. */
  lemma ShownViewMeetsAck(s: State, a: Answer, w: Nonce)
    requires Inv(s) && Live(s, a.from) && a.nonce in s.rounds && w in s.acked
    requires a.ready ==> s.replicas[a.from].inner.ready
    requires forall p :: Asks(s.rounds[a.nonce].request, p) ==> View(a.counters, p) == View(s.replicas[a.from].inner.views, p)
    ensures IsWrite(s, w) && AnswerMeetsAck(s, a, w)
  {
    hide Le, View, Shape, OneSync, Replicas, Rounds, AnswersOk, Acks, AnswerMeets, RoundMeets, Bringup, Linked;
    AckIsOld(s, w);
    if a.ready && SlotOf(s, a.from) in s.acked[w].slots {
      LiveReadyHolds(s, a.from, w);
    }
  }

  lemma ReplyShowsWhatIsHeld(s: State, id: Id, nonce: Nonce, i: Inner, a: Answer)
    requires id in s.replicas && nonce in s.rounds && Within(s.replicas[id].inner.views)
    requires Reply(s.replicas[id].inner, id, nonce, s.rounds[nonce].request, s.rounds[nonce].formed) == (i, Some(a))
    ensures a.nonce == nonce && a.from == id && a.ready == i.ready
    ensures forall p :: Asks(s.rounds[nonce].request, p) ==> View(a.counters, p) == View(i.views, p)
  {
    var r := s.rounds[nonce];
    ReplyGrows(s.replicas[id].inner, id, nonce, r.request, r.formed);
    forall p | Asks(r.request, p) ensures View(a.counters, p) == View(i.views, p) {
      ReplyShowsTheView(s.replicas[id].inner, id, nonce, r.request, r.formed, p);
    }
  }

  lemma AnswersKeepsInv(s: State, id: Id, nonce: Nonce, s': State)
    requires Inv(s) && AnswersStep(s, id, nonce, s')
    ensures Inv(s') && Progress(s, s')
  {
    hide Progress;
    assert Within(s.replicas[id].inner.views) by { assert ReplicaOk(s, id); }
    ReplyRaises(s, id, nonce);
    UpdateIsBounded(s, nonce);
    hide Within, Shape, OneSync, Replicas, Rounds, AnswersOk, Acks, AnswerMeets, RoundMeets, Bringup;
    hide Reply, Le, Plain, RaiseOk, AnswerOk, AnswerMeetsAck, GenesisAlive;
    var (i, a) := Reply(s.replicas[id].inner, id, nonce, s.rounds[nonce].request, s.rounds[nonce].formed);
    var s1 := PutInner(s, id, i);
    PutInnerKeepsInv(s, id, i);
    if a.Some? {
      ReplyIsOk(s, id, nonce, i, s1, a.value);
      ReplyShowsWhatIsHeld(s, id, nonce, i, a.value);
      forall w | w in s1.acked ensures IsWrite(s1, w) && AnswerMeetsAck(s1, a.value, w) {
        ShownViewMeetsAck(s1, a.value, w);
      }
      AnswerKeepsInv(s1, a.value);
      ProgressIsTransitive(s, s1, s');
    }
  }

  // ---- what a round heard ----

  /** The answers a round counted are genuine answers to it, from other slots than the caller's. */
  lemma HeardFacts(s: State, nonce: Nonce, heard: seq<Answer>)
    requires Shape(s) && Replicas(s) && AnswersOk(s) && nonce in s.rounds && Heard(s, nonce, heard)
    ensures DistinctSlots(s, heard)
    ensures forall a :: a in heard ==>
              && a in s.answers && a.nonce == nonce && AnswerOk(s, a)
              && SlotOf(s, a.from) != SlotOf(s, s.rounds[nonce].caller)
              && SlotOf(s, a.from) < |s.slots|
  {
    hide AnswerOk;
    forall a | a in heard
      ensures a in s.answers && a.nonce == nonce && AnswerOk(s, a)
      ensures SlotOf(s, a.from) != SlotOf(s, s.rounds[nonce].caller) && SlotOf(s, a.from) < |s.slots|
    {
      var k :| 0 <= k < |heard| && heard[k] == a;
      AnswererIsKnown(s, a);
    }
  }

  lemma AnswererIsKnown(s: State, a: Answer)
    requires Replicas(s) && AnswersOk(s) && a in s.answers
    ensures a.from in s.replicas && SlotOf(s, a.from) < |s.slots|
  {
    assert AnswerOk(s, a) && ReplicaOk(s, a.from);
  }

  /** The slots that were heard, with the caller's own or without it. */
  lemma HeardSlots(s: State, nonce: Nonce, heard: seq<Answer>)
    requires Shape(s) && Replicas(s) && AnswersOk(s) && nonce in s.rounds && Heard(s, nonce, heard)
    requires Live(s, s.rounds[nonce].caller)
    ensures var own := SlotOf(s, s.rounds[nonce].caller);
            && own < |s.slots|
            && own !in SlotsOf(s, heard) && SlotsOf(s, heard) <= Below(|s.slots|)
            && SlotsOf(s, ReadyOnes(heard)) <= SlotsOf(s, heard)
            && |SlotsOf(s, heard)| == |heard|
            && |SlotsOf(s, ReadyOnes(heard))| == |ReadyOnes(heard)|
  {
    HeardFacts(s, nonce, heard);
    hide AnswerOk, ReplicaOk;
    DistinctSlotsCount(s, heard);
    DistinctReadySlotsCount(s, heard);
    ReadyOnesAreTheReadyOnes(heard);
  }

  lemma HeardEverySlot(s: State, nonce: Nonce, heard: seq<Answer>)
    requires Shape(s) && Replicas(s) && AnswersOk(s) && nonce in s.rounds && Heard(s, nonce, heard)
    requires Live(s, s.rounds[nonce].caller)
    requires |ReadyOnes(heard)| + 1 >= |s.slots|
    ensures forall k :: 0 <= k < |s.slots| ==> k == SlotOf(s, s.rounds[nonce].caller) || k in SlotsOf(s, ReadyOnes(heard))
  {
    hide Shape, Replicas, AnswersOk, Heard, SlotsOf;
    HeardSlots(s, nonce, heard);
    var all := {SlotOf(s, s.rounds[nonce].caller)} + SlotsOf(s, ReadyOnes(heard));
    FullSubset(all, Below(|s.slots|));
    forall k | 0 <= k < |s.slots|
      ensures k == SlotOf(s, s.rounds[nonce].caller) || k in SlotsOf(s, ReadyOnes(heard))
    {
      assert k in all;
    }
  }

  /** Short of a replacement, hearing every other replica ready means all are ready. */
  lemma HeardAllReady(s: State, nonce: Nonce, heard: seq<Answer>)
    requires Shape(s) && Replicas(s) && AnswersOk(s) && nonce in s.rounds && Heard(s, nonce, heard)
    requires Live(s, s.rounds[nonce].caller) && s.replicas[s.rounds[nonce].caller].inner.ready
    requires !s.replaced && |ReadyOnes(heard)| + 1 >= |s.slots|
    ensures forall k :: 0 <= k < |s.slots| ==> InnerOf(s, s.slots[k]).ready
  {
    hide Replicas, AnswersOk, Heard, AnswerOk;
    HeardFacts(s, nonce, heard);
    HeardEverySlot(s, nonce, heard);
    ReadyOnesAreTheReadyOnes(heard);
    forall k | 0 <= k < |s.slots|
      ensures InnerOf(s, s.slots[k]).ready
    {
      if k != SlotOf(s, s.rounds[nonce].caller) {
        assert k in SlotsOf(s, ReadyOnes(heard));
        var a :| a in ReadyOnes(heard) && SlotOf(s, a.from) == k;
        ReadyAnswererIsReady(s, a);
      }
    }
  }

  lemma ReadyAnswererIsReady(s: State, a: Answer)
    requires Shape(s) && !s.replaced && AnswerOk(s, a) && a.ready
    ensures Live(s, a.from) && s.replicas[a.from].inner.ready
  {
  }

  lemma FullSubset<T>(a: set<T>, b: set<T>)
    requires a <= b && |a| >= |b|
    ensures a == b
  {
    SubsetIsSmaller(a, b);
    if x :| x in b && x !in a {
      assert |a + {x}| == |a| + 1;
      SubsetIsSmaller(a + {x}, b);
      assert false;
    }
  }

  // ---- the tails ----

  /** What answers a round heard show is below the plain map. */
  lemma FoldedIsBounded(s: State, path: string, view: Cluster, answers: seq<Answer>)
    requires ClusterWithin(view) && Le(view, Plain(s.writes, path))
    requires forall a :: a in answers ==> Bounded(a.counters, s.writes)
    requires FoldViews(view, Collect(answers, path)).Some?
    ensures Le(FoldViews(view, Collect(answers, path)).value, Plain(s.writes, path))
  {
    FoldedViewIsTheJoin(view, answers, path);
    assert forall a :: a in answers ==> Le(View(a.counters, path), Plain(s.writes, path));
  }

  lemma InstallRaises(s: State, id: Id, i: Inner, path: string, folded: Option<Cluster>)
    requires RaiseOk(s, id, i) && s.everFormed
    requires folded.Some? ==> Le(folded.value, Plain(s.writes, path))
    ensures RaiseOk(s, id, Install(i, path, folded).0)
  {
    hide Le, Plain;
    InstallGrows(i, path, folded);
    if folded.Some? {
      MergeStaysBounded(i.views, s.writes, path, folded.value);
    }
    MapLeIsTransitive(s.replicas[id].inner.views, i.views, Install(i, path, folded).0.views);
  }

  lemma LearnRaises(s: State, id: Id)
    requires Replicas(s) && Live(s, id) && s.everFormed
    ensures RaiseOk(s, id, LearnFormed(s.replicas[id].inner))
    ensures RaiseOk(s, id, s.replicas[id].inner)
  {
    assert ReplicaOk(s, id);
    MapLeIsReflexive(s.replicas[id].inner.views);
  }

  // ---- reads finish ----

  lemma ReadTailRaises(s: State, nonce: Nonce, heard: seq<Answer>, formed: bool)
    requires Inv(s) && Running(s, nonce) && s.rounds[nonce].request.ReadOne? && Heard(s, nonce, heard)
    requires formed == (s.everFormed || |ReadyOnes(heard)| + 1 >= |s.slots|)
    ensures var r := s.rounds[nonce];
            RaiseOk(s.(everFormed := formed), r.caller,
                    ReadTail(|s.slots|, s.replicas[r.caller].inner, r.request.path, r.view, heard).0)
  {
    hide Linked, OneSync, Acks, AnswerMeets, RoundMeets, Bringup, Le, Plain;
    var r := s.rounds[nonce];
    var c, path := r.caller, r.request.path;
    var i := s.replicas[c].inner;
    var s1 := s.(everFormed := formed);
    var ready := ReadyOnes(heard);
    var told := if |ready| + 1 >= |s.slots| || AnyFormed(heard) then LearnFormed(i) else i;
    HeardFacts(s, nonce, heard);
    assert ReplicaOk(s, c) && RoundOk(s, nonce);
    ReadyOnesAreTheReadyOnes(heard);
    ToldIsFormed(s, heard);
    MapLeIsReflexive(i.views);
    hide Replicas, Rounds, AnswersOk, Shape, Heard, MapLe;
    assert RaiseOk(s1, c, told);
    if told.formed && |ready| + 1 >= Majority(|s.slots|) {
      var folded := FoldViews(r.view, Collect(ready, path));
      if folded.Some? {
        FoldedIsBounded(s, path, r.view, ready);
      }
      InstallRaises(s1, c, told, path, folded);
    }
  }

  lemma ToldIsFormed(s: State, heard: seq<Answer>)
    requires forall a :: a in heard ==> AnswerOk(s, a)
    ensures AnyFormed(heard) ==> s.everFormed
    ensures forall a :: a in heard ==> Bounded(a.counters, s.writes)
  {
  }

  lemma FinishReadKeepsInv(s: State, nonce: Nonce, heard: seq<Answer>, s': State)
    requires Inv(s) && FinishReadStep(s, nonce, heard, s')
    ensures Inv(s') && Progress(s, s')
  {
    hide Progress;
    var formed := s.everFormed || |ReadyOnes(heard)| + 1 >= |s.slots|;
    var s1 := s.(everFormed := formed);
    ReadTailRaises(s, nonce, heard, formed);
    FormsWhenReady(s, nonce, heard, formed);
    hide Inv, RaiseOk, ReadTail, Heard, FormedWhenReady;
    var r := s.rounds[nonce];
    var i := ReadTail(|s.slots|, s.replicas[r.caller].inner, r.request.path, r.view, heard).0;
    HistoryKeepsInv(s, s1);
    PutInnerKeepsInv(s1, r.caller, i);
    CloseKeepsInv(PutInner(s1, r.caller, i), nonce);
    ProgressIsTransitive(s, s1, PutInner(s1, r.caller, i));
    ProgressIsTransitive(s, PutInner(s1, r.caller, i), s');
  }

  lemma FormsWhenReady(s: State, nonce: Nonce, heard: seq<Answer>, formed: bool)
    requires Inv(s) && Running(s, nonce) && s.rounds[nonce].request.ReadOne? && Heard(s, nonce, heard)
    requires formed == (s.everFormed || |ReadyOnes(heard)| + 1 >= |s.slots|)
    ensures FormedWhenReady(s, s.(everFormed := formed))
  {
    hide Linked, OneSync, Acks, AnswerMeets, RoundMeets, Bringup, Shape, Replicas, AnswersOk, Heard;
    assert RoundOk(s, nonce);
    if !s.replaced && !s.everFormed && formed {
      HeardAllReady(s, nonce, heard);
    }
  }

  // ---- writes finish ----

  lemma WriteTailRaises(s: State, nonce: Nonce, heard: seq<Answer>)
    requires Inv(s) && Running(s, nonce) && s.rounds[nonce].request.Merge? && Heard(s, nonce, heard)
    ensures var r := s.rounds[nonce];
            RaiseOk(s, r.caller, WriteTail(|s.slots|, s.replicas[r.caller].inner, r.request.path, r.view, heard).0)
  {
    hide Linked, OneSync, Acks, AnswerMeets, RoundMeets, Bringup, Le, Plain;
    var r := s.rounds[nonce];
    var path := r.request.path;
    HeardFacts(s, nonce, heard);
    assert RoundOk(s, nonce);
    ToldIsFormed(s, heard);
    LearnRaises(s, r.caller);
    hide Replicas, Rounds, AnswersOk, Shape, Heard, RaiseOk;
    var folded := FoldViews(r.view, Collect(heard, path));
    if folded.Some? {
      FoldedIsBounded(s, path, r.view, heard);
    }
    InstallRaises(s, r.caller, s.replicas[r.caller].inner, path, folded);
  }

  function AckOf(s: State, nonce: Nonce, heard: seq<Answer>): Ack
    requires nonce in s.rounds
  {
    Ack({SlotOf(s, s.rounds[nonce].caller)} + SlotsOf(s, heard), {s.rounds[nonce].caller} + IdsOf(heard), s.nextNonce)
  }

  /** Every replica that took a write, its caller included, is alive and holds it when the round finishes. */
  lemma TakerHolds(s: State, nonce: Nonce, heard: seq<Answer>, k: nat)
    requires Inv(s) && Running(s, nonce) && s.rounds[nonce].request.Merge? && Heard(s, nonce, heard)
    requires k in AckOf(s, nonce, heard).slots
    ensures k < |s.slots| && s.slots[k] in s.replicas && s.slots[k] in AckOf(s, nonce, heard).takers
    ensures Le(s.rounds[nonce].request.update, View(s.replicas[s.slots[k]].inner.views, s.rounds[nonce].request.path))
  {
    hide Linked, OneSync, Acks, AnswerMeets, RoundMeets, Bringup, Le, Plain, Replicas, AnswersOk, Heard;
    var c := s.rounds[nonce].caller;
    assert RoundOk(s, nonce);
    if k == SlotOf(s, c) {
      assert s.slots[k] == c;
    } else {
      HeardFacts(s, nonce, heard);
      var a :| a in heard && SlotOf(s, a.from) == k;
      assert AnswerOk(s, a);
      assert s.slots[k] == a.from;
    }
  }

  lemma QuorumTook(s: State, nonce: Nonce, heard: seq<Answer>)
    requires Inv(s) && Running(s, nonce) && s.rounds[nonce].request.Merge? && Heard(s, nonce, heard)
    requires |heard| + 1 >= Majority(|s.slots|)
    ensures |AckOf(s, nonce, heard).slots| >= Majority(|s.slots|)
    ensures AckOf(s, nonce, heard).takers <= s.replicas.Keys
  {
    hide Linked, OneSync, Acks, AnswerMeets, RoundMeets, Bringup, Rounds, Replicas, AnswersOk, Heard;
    HeardFacts(s, nonce, heard);
    HeardSlots(s, nonce, heard);
    hide Shape, SlotsOf;
    forall a | a in heard ensures a.from in s.replicas { assert AnswerOk(s, a); }
  }

  lemma FinishWriteKeepsInv(s: State, nonce: Nonce, heard: seq<Answer>, s': State)
    requires Inv(s) && FinishWriteStep(s, nonce, heard, s')
    ensures Inv(s') && Progress(s, s')
  {
    hide Progress;
    var r := s.rounds[nonce];
    WriteTailRaises(s, nonce, heard);
    var (i, result) := WriteTail(|s.slots|, s.replicas[r.caller].inner, r.request.path, r.view, heard);
    var s1 := PutInner(s, r.caller, i);
    var s2 := Close(s1, nonce);
    PutInnerKeepsInv(s, r.caller, i);
    CloseKeepsInv(s1, nonce);
    ProgressIsTransitive(s, s1, s2);
    if result.Some? {
      QuorumTook(s, nonce, heard);
      NotAckedYet(s, nonce);
      AckedIsOk(s, nonce, heard, i, s2);
      hide Inv, RaiseOk, WriteTail, Heard, AckOk;
      AckKeepsInv(s2, nonce, AckOf(s, nonce, heard));
      ProgressIsTransitive(s, s2, s');
    }
  }

  lemma NotAckedYet(s: State, nonce: Nonce)
    requires Linked(s) && Rounds(s) && Acks(s) && Running(s, nonce)
    ensures nonce !in s.acked && nonce < s.nextNonce
  {
    RoundsAreOld(s);
    forall w | w in s.acked ensures IsWrite(s, w) && !s.rounds[w].open { assert AckOk(s, w); }
  }

  lemma AckedIsOk(s: State, nonce: Nonce, heard: seq<Answer>, i: Inner, s2: State)
    requires Inv(s) && Running(s, nonce) && s.rounds[nonce].request.Merge? && Heard(s, nonce, heard)
    requires RaiseOk(s, s.rounds[nonce].caller, i) && s2 == Close(PutInner(s, s.rounds[nonce].caller, i), nonce)
    requires nonce < s.nextNonce
    requires |AckOf(s, nonce, heard).slots| >= Majority(|s.slots|) && AckOf(s, nonce, heard).takers <= s.replicas.Keys
    ensures AckOk(s2.(acked := s2.acked[nonce := AckOf(s, nonce, heard)]), nonce)
  {
    hide Shape, Linked, OneSync, Replicas, Rounds, AnswersOk, Acks, AnswerMeets, RoundMeets, Bringup, Heard, Le;
    var ack := AckOf(s, nonce, heard);
    var s3 := s2.(acked := s2.acked[nonce := ack]);
    var update, path := s.rounds[nonce].request.update, s.rounds[nonce].request.path;
    forall k | k in ack.slots
      ensures k < |s3.slots| && s3.slots[k] in s3.replicas && s3.slots[k] in ack.takers
      ensures HoldsIfReady(s3, nonce, s3.slots[k])
    {
      TakerHolds(s, nonce, heard, k);
      if s.slots[k] == s.rounds[nonce].caller {
        LeIsTransitive(update, View(s.replicas[s.slots[k]].inner.views, path), View(i.views, path));
      }
    }
  }

  // ---- syncs finish ----

  /** While genesis is alive anywhere and some replica is not ready, the cluster has not formed. */
  lemma GenesisMeansNotFormed(s: State, id: Id)
    requires Shape(s) && Bringup(s) && GenesisAlive(s) && Live(s, id) && !s.replicas[id].inner.ready
    ensures !s.everFormed && !s.replaced
  {
    hide GenesisAlive;
    assert s.everFormed && !s.replaced ==> InnerOf(s, s.slots[SlotOf(s, id)]).ready;
  }

  lemma GenesisRuleMeansAlive(s: State, nonce: Nonce, heard: seq<Answer>)
    requires Running(s, nonce) && s.rounds[nonce].request.ReadAll? && Shape(s) && Replicas(s) && AnswersOk(s)
    requires Heard(s, nonce, heard) && GenesisRule(heard)
    ensures GenesisAlive(s)
  {
    HeardFacts(s, nonce, heard);
    ReadyOnesAreTheReadyOnes(heard);
    hide Shape, Replicas, AnswersOk, Heard, AnswerOk;
    var a := ReadyOnes(heard)[0];
    assert a in ReadyOnes(heard);
    assert a in s.answers && GenesisInFlight(s, a);
  }

  /** A majority of ready answers contains one from a slot that took the write, which shows it. */
  lemma MajorityShowsAck(s: State, nonce: Nonce, heard: seq<Answer>, w: Nonce) returns (a: Answer)
    requires Inv(s) && Running(s, nonce) && s.rounds[nonce].request.ReadAll? && Heard(s, nonce, heard)
    requires |ReadyOnes(heard)| >= Majority(|s.slots|)
    requires w in s.acked && s.acked[w].at <= nonce
    ensures a in ReadyOnes(heard) && IsWrite(s, w)
    ensures Le(s.rounds[w].request.update, View(a.counters, s.rounds[w].request.path))
  {
    hide Le, OneSync, Rounds, Replicas, AnswersOk, RoundMeets, Bringup, Heard, Shape;
    assert AckOk(s, w);
    HeardFacts(s, nonce, heard);
    HeardSlots(s, nonce, heard);
    ReadyOnesAreTheReadyOnes(heard);
    AckSlotsAreSlots(s, w);
    hide Acks, AckOk, AnswerOk;
    var k := QuorumsMeet(|s.slots|, s.acked[w].slots, SlotsOf(s, ReadyOnes(heard)));
    a :| a in ReadyOnes(heard) && SlotOf(s, a.from) == k;
    assert AnswerMeetsAck(s, a, w);
  }

  lemma AckSlotsAreSlots(s: State, w: Nonce)
    requires Acks(s) && w in s.acked
    ensures s.acked[w].slots <= Below(|s.slots|) && |s.acked[w].slots| >= Majority(|s.slots|)
  {
    assert AckOk(s, w);
  }

  lemma SyncedHolds(s: State, nonce: Nonce, heard: seq<Answer>, w: Nonce)
    requires Inv(s) && Running(s, nonce) && s.rounds[nonce].request.ReadAll? && Heard(s, nonce, heard)
    requires |ReadyOnes(heard)| >= Majority(|s.slots|)
    requires w in s.acked && SlotOf(s, s.rounds[nonce].caller) in s.acked[w].slots
    ensures IsWrite(s, w)
    ensures Le(s.rounds[w].request.update,
               View(JoinMaps(s.replicas[s.rounds[nonce].caller].inner.views, Maps(ReadyOnes(heard))), s.rounds[w].request.path))
  {
    hide Le, OneSync, Rounds, Replicas, AnswersOk, RoundMeets, AnswerMeets, Bringup, Heard, Shape, Majority;
    var c := s.rounds[nonce].caller;
    var views := s.replicas[c].inner.views;
    var ready := ReadyOnes(heard);
    var update, path := s.rounds[w].request.update, s.rounds[w].request.path;
    JoinMapsIsUpperBound(views, Maps(ready));
    assert AckOk(s, w) && HoldsIfReady(s, w, c);
    if c in s.acked[w].takers {
      LeIsTransitive(update, View(views, path), View(JoinMaps(views, Maps(ready)), path));
    } else {
      assert s.acked[w].at <= nonce;
      var a := MajorityShowsAck(s, nonce, heard, w);
      assert a.counters in Maps(ready) by {
        var j :| 0 <= j < |ready| && ready[j] == a;
        assert Maps(ready)[j] == a.counters;
      }
      LeIsTransitive(update, View(a.counters, path), View(JoinMaps(views, Maps(ready)), path));
    }
  }

  /** What a sync's caller holds afterwards is sound. */
  lemma SyncTailIsSound(s: State, nonce: Nonce, heard: seq<Answer>, i': Inner)
    requires Inv(s) && Running(s, nonce) && s.rounds[nonce].request.ReadAll? && Heard(s, nonce, heard)
    requires SyncTail(|s.slots|, s.replicas[s.rounds[nonce].caller].inner, heard, i')
    ensures var i := s.replicas[s.rounds[nonce].caller].inner;
            && MapLe(i.views, i'.views) && (i.ready ==> i'.ready)
            && Within(i'.views) && Bounded(i'.views, s.writes)
            && (i'.formed ==> s.everFormed) && (i'.genesis ==> i'.ready)
            && (!s.everFormed ==> i'.views == map[])
  {
    hide Linked, OneSync, Acks, AnswerMeets, RoundMeets, Bringup, Le, Plain, Heard, Shape;
    var c := s.rounds[nonce].caller;
    var i := s.replicas[c].inner;
    var ready := ReadyOnes(heard);
    assert ReplicaOk(s, c) && RoundOk(s, nonce);
    HeardFacts(s, nonce, heard);
    ToldIsFormed(s, heard);
    ReadyOnesAreTheReadyOnes(heard);
    hide Replicas, Rounds, AnswersOk;
    MapLeIsReflexive(i.views);
    if |ready| >= Majority(|s.slots|) {
      JoinMapsIsUpperBound(i.views, Maps(ready));
      JoinedIsBounded(s, i.views, ready);
      MapLeIsTransitive(i.views, i.views, i.views);
      EmptySyncsToEmpty(s, i.views, ready, i'.views);
    }
  }

  lemma JoinedIsBounded(s: State, views: CounterMap, ready: seq<Answer>)
    requires Bounded(views, s.writes) && forall a :: a in ready ==> Bounded(a.counters, s.writes)
    ensures Bounded(JoinMaps(views, Maps(ready)), s.writes)
    ensures forall m :: MapLe(m, JoinMaps(views, Maps(ready))) ==> Bounded(m, s.writes)
  {
    var joined := JoinMaps(views, Maps(ready));
    hide JoinMaps, Le, Plain;
    forall p ensures Le(View(joined, p), Plain(s.writes, p)) {
      forall x | x in Maps(ready) ensures Le(View(x, p), Plain(s.writes, p)) {
        var j :| 0 <= j < |ready| && Maps(ready)[j] == x;
        assert Bounded(ready[j].counters, s.writes);
      }
      JoinMapsBelow(views, Maps(ready), p, Plain(s.writes, p));
    }
    forall m | MapLe(m, joined) ensures Bounded(m, s.writes) {
      forall p ensures Le(View(m, p), Plain(s.writes, p)) {
        LeIsTransitive(View(m, p), View(joined, p), Plain(s.writes, p));
      }
    }
  }

  lemma {:induction false} EmptyMapsJoinToEmpty(maps: seq<CounterMap>)
    requires forall m :: m in maps ==> m == map[]
    ensures JoinMaps(map[], maps) == map[]
    decreases |maps|
  {
    if maps != [] {
      assert maps[0] in maps && maps[0] == map[];
      assert forall m :: m in maps[1..] ==> m in maps;
      assert JoinMap(map[], maps[0]) == map[];
      EmptyMapsJoinToEmpty(maps[1..]);
    }
  }

  /** Before the cluster forms there is nothing to sync. */
  lemma EmptySyncsToEmpty(s: State, views: CounterMap, ready: seq<Answer>, after: CounterMap)
    requires forall a :: a in ready ==> AnswerOk(s, a)
    requires !s.everFormed ==> views == map[]
    ensures !s.everFormed ==> JoinMaps(views, Maps(ready)) == map[] && Within(map[])
  {
    if !s.everFormed {
      forall m | m in Maps(ready) ensures m == map[] {
        var j :| 0 <= j < |ready| && Maps(ready)[j] == m;
        assert AnswerOk(s, ready[j]);
      }
      EmptyMapsJoinToEmpty(Maps(ready));
    }
  }

  lemma SyncedReplicaOk(s: State, nonce: Nonce, i': Inner, s': State)
    requires nonce in s.rounds && s.rounds[nonce].caller in s.replicas
    requires s' == Close(PutInner(s, s.rounds[nonce].caller, i'), nonce)
    requires Replicas(s)
    requires Within(i'.views) && Bounded(i'.views, s.writes)
    requires (i'.formed ==> s.everFormed) && (i'.genesis ==> i'.ready)
    requires !s.everFormed ==> i'.views == map[]
    ensures ReplicaOk(s', s.rounds[nonce].caller)
  {
    assert ReplicaOk(s, s.rounds[nonce].caller);
  }

  lemma SyncedReplicaParts(s: State, nonce: Nonce, i': Inner, s': State)
    requires Linked(s) && OneSync(s) && OpenSync(s, nonce) && Live(s, s.rounds[nonce].caller)
    requires s' == Close(PutInner(s, s.rounds[nonce].caller, i'), nonce)
    requires var i := s.replicas[s.rounds[nonce].caller].inner;
             && MapLe(i.views, i'.views) && (i.ready ==> i'.ready)
    requires Replicas(s)
    requires Within(i'.views) && Bounded(i'.views, s.writes)
    requires (i'.formed ==> s.everFormed) && (i'.genesis ==> i'.ready)
    requires !s.everFormed ==> i'.views == map[]
    ensures KeepsRecords(s, s') && Linked(s') && RaisesValues(s, s') && NewReplicas(s, s') && SyncsStayUnready(s, s')
    ensures s'.rounds.Keys == s.rounds.Keys
  {
    hide ReplicaOk, Replicas, Within, Bounded, MapLe;
    var c := s.rounds[nonce].caller;
    SyncedReplicaOk(s, nonce, i', s');
    forall x | x in s.replicas
      ensures MapLe(s.replicas[x].inner.views, s'.replicas[x].inner.views)
    {
      MapLeIsReflexive(s.replicas[x].inner.views);
    }
  }

  lemma SyncNewlyReadyHold(s: State, nonce: Nonce, heard: seq<Answer>, s': State)
    requires Inv(s) && FinishSyncStep(s, nonce, heard, s')
    ensures NewlyReadyHold(s, s')
  {
    hide Linked, OneSync, Replicas, Rounds, AnswersOk, Acks, AnswerMeets, RoundMeets, Bringup, Heard, Le, JoinMaps, Within;
    var c := s.rounds[nonce].caller;
    forall w, k | w in s.acked && k in s.acked[w].slots && k < |s.slots|
      ensures IsWrite(s, w) && NewlyReadyHolds(s, s', w, s.slots[k])
    {
      AckIsOld(s, w);
      if s.slots[k] == c && !s.replicas[c].inner.ready && s'.replicas[c].inner.ready {
        if |ReadyOnes(heard)| >= Majority(|s.slots|) {
          SyncedHolds(s, nonce, heard, w);
        } else {
          GenesisRuleMeansAlive(s, nonce, heard);
          GenesisMeansNotFormed(s, c);
          UpdateIsBounded(s, w);
          assert false;
        }
      }
    }
  }

  lemma SyncGenesisPassedOn(s: State, nonce: Nonce, heard: seq<Answer>, s': State)
    requires Inv(s) && FinishSyncStep(s, nonce, heard, s') && KeepsRecords(s, s')
    ensures GenesisPassedOn(s, s')
  {
    hide Linked, OneSync, Rounds, Acks, AnswerMeets, RoundMeets, Bringup, Heard, JoinMaps, Within, MapLe, GenesisAlive;
    var c := s.rounds[nonce].caller;
    assert ReplicaOk(s, c);
    hide Replicas;
    if GenesisRule(heard) {
      GenesisRuleMeansAlive(s, nonce, heard);
    }
  }

  lemma FinishSyncKeepsInv(s: State, nonce: Nonce, heard: seq<Answer>, s': State)
    requires Inv(s) && FinishSyncStep(s, nonce, heard, s')
    ensures Inv(s') && Progress(s, s')
  {
    hide Progress;
    hide Shape, OneSync, Replicas, Rounds, AnswersOk, Acks, AnswerMeets, RoundMeets, Bringup, Heard, SyncTail;
    hide KeepsRecords, RaisesValues, Linked, Within, Bounded, MapLe, NewReplicas, SyncsStayUnready, NewlyReadyHold, GenesisPassedOn;
    var c := s.rounds[nonce].caller;
    var i' := s'.replicas[c].inner;
    SyncTailIsSound(s, nonce, heard, i');
    SyncedReplicaParts(s, nonce, i', s');
    SyncNewlyReadyHold(s, nonce, heard, s');
    SyncGenesisPassedOn(s, nonce, heard, s');
    SameRounds(s, s');
    SameAnswers(s, s');
    SameAcks(s, s');
    KeepInv(s, s');
  }
}
