/**
 Each step of the counter protocol keeps the invariant. A step is taken apart into
 changes that each keep it: a round opened or closed, one replica raised, an answer
 sent, a write acknowledged, a slot replaced.
 */
module CounterSteps {
  import opened Outcomes
  import opened CounterViews
  import opened CounterReplica
  import opened CounterProtocol
  import opened CounterInvariant

  lemma InitHolds(s: State)
    requires Init(s)
    ensures Inv(s)
  {
    forall id | id in s.replicas
      ensures ReplicaOk(s, id)
    {
      forall p ensures Le(View(s.replicas[id].inner.views, p), Plain(s.writes, p)) { LeIsReflexive(EMPTY); }
    }
  }

  // ---- what a change that leaves a part alone need not show ----

  lemma SameReplicas(s: State, s': State)
    requires Linked(s) && KeepsRecords(s, s') && s'.replicas == s.replicas
    requires s.writes <= s'.writes && (s.everFormed ==> s'.everFormed)
    ensures RaisesValues(s, s') && NewReplicas(s, s') && SyncsStayUnready(s, s') && NewlyReadyHold(s, s')
  {
    forall id | id in s.replicas
      ensures MapLe(s.replicas[id].inner.views, s.replicas[id].inner.views)
    {
      MapLeIsReflexive(s.replicas[id].inner.views);
    }
  }

  lemma SameRounds(s: State, s': State)
    requires s'.rounds.Keys == s.rounds.Keys
    ensures NewRounds(s, s') && NewSyncs(s, s')
  {
  }

  lemma SameAnswers(s: State, s': State)
    requires Linked(s') && KeepsRecords(s, s') && s'.answers == s.answers
    ensures NewAnswers(s, s')
    ensures s'.acked == s.acked ==> NewAnswerMeets(s, s')
    ensures s'.replicas == s.replicas ==> GenesisPassedOn(s, s')
  {
  }

  lemma SameAcks(s: State, s': State)
    requires Linked(s') && s'.acked == s.acked
    ensures NewAcks(s, s')
    ensures s'.rounds.Keys == s.rounds.Keys ==> NewRoundMeets(s, s')
  {
  }

  /** Round numbers in use are below the next one. */
  lemma RoundsAreOld(s: State)
    requires Rounds(s)
    ensures forall r :: r in s.rounds ==> r < s.nextNonce
  {
    forall r | r in s.rounds ensures r < s.nextNonce { assert RoundOk(s, r); }
  }

  // ---- the small changes ----

  lemma OpenParts(s: State, round: Round)
    requires Linked(s) && Rounds(s)
    requires round.request.ReadAll? ==> forall r :: OpenSync(s, r) ==> s.rounds[r].caller != round.caller
    ensures KeepsRecords(s, Open(s, round)) && Linked(Open(s, round))
    ensures NewSyncs(s, Open(s, round))
  {
    hide RoundOk;
    RoundsAreOld(s);
  }

  lemma OpenKeepsInv(s: State, round: Round, s': State)
    requires Inv(s) && s' == Open(s, round)
    requires RoundOk(s', s.nextNonce)
    requires round.request.ReadAll? ==> forall r :: OpenSync(s, r) ==> s.rounds[r].caller != round.caller
    requires forall w :: w in s.acked ==> IsWrite(s', w) && RoundMeetsAck(s', s.nextNonce, w)
    ensures Inv(s') && Progress(s, s')
  {
    hide Progress;
    hide RoundOk, RoundMeetsAck, Shape, OneSync, Replicas, Rounds, AnswersOk, Acks, AnswerMeets, RoundMeets, Bringup;
    hide KeepsRecords, RaisesValues, NewSyncs, Linked;
    OpenParts(s, round);
    SameReplicas(s, s');
    SameAnswers(s, s');
    SameAcks(s, s');
    KeepInv(s, s');
  }

  /** What a change of one live replica's state must meet for the invariant to carry over. */
  ghost predicate RaiseOk(s: State, id: Id, i: Inner) {
    && Live(s, id)
    && Grows(s.replicas[id].inner, i)
    && i.ready == s.replicas[id].inner.ready
    && Within(i.views) && Bounded(i.views, s.writes)
    && (i.formed ==> s.everFormed)
    && (i.genesis ==> i.ready)
    && (!s.everFormed ==> i.views == map[])
  }

  lemma PutInnerParts(s: State, id: Id, i: Inner)
    requires Linked(s) && Replicas(s) && RaiseOk(s, id, i)
    ensures var s' := PutInner(s, id, i);
            && KeepsRecords(s, s') && Linked(s') && RaisesValues(s, s') && NewReplicas(s, s')
            && SyncsStayUnready(s, s') && NewlyReadyHold(s, s') && GenesisPassedOn(s, s')
  {
    var s' := PutInner(s, id, i);
    assert ReplicaOk(s, id);
    assert ReplicaOk(s', id);
    hide ReplicaOk, MapLe, Within, Bounded;
    forall x | x in s.replicas
      ensures MapLe(s.replicas[x].inner.views, s'.replicas[x].inner.views)
    {
      MapLeIsReflexive(s.replicas[x].inner.views);
    }
  }

  lemma PutInnerKeepsInv(s: State, id: Id, i: Inner)
    requires Inv(s) && RaiseOk(s, id, i)
    ensures Inv(PutInner(s, id, i)) && Progress(s, PutInner(s, id, i))
  {
    hide Progress;
    var s' := PutInner(s, id, i);
    assert id in s.replicas;
    hide RaiseOk, Shape, OneSync, Replicas, Rounds, AnswersOk, Acks, AnswerMeets, RoundMeets, Bringup;
    hide KeepsRecords, RaisesValues, NewReplicas, SyncsStayUnready, NewlyReadyHold, GenesisPassedOn, Linked;
    PutInnerParts(s, id, i);
    SameRounds(s, s');
    SameAnswers(s, s');
    SameAcks(s, s');
    KeepInv(s, s');
  }

  lemma CloseParts(s: State, nonce: Nonce)
    requires Linked(s) && nonce in s.rounds
    ensures KeepsRecords(s, Close(s, nonce)) && Linked(Close(s, nonce))
    ensures Close(s, nonce).rounds.Keys == s.rounds.Keys
  {
  }

  lemma CloseKeepsInv(s: State, nonce: Nonce)
    requires Inv(s) && nonce in s.rounds
    ensures Inv(Close(s, nonce)) && Progress(s, Close(s, nonce))
  {
    hide Progress;
    var s' := Close(s, nonce);
    CloseParts(s, nonce);
    hide Shape, OneSync, Replicas, Rounds, AnswersOk, Acks, AnswerMeets, RoundMeets, Bringup;
    hide KeepsRecords, RaisesValues, Linked;
    SameReplicas(s, s');
    SameRounds(s, s');
    SameAnswers(s, s');
    SameAcks(s, s');
    KeepInv(s, s');
  }

  lemma HistoryKeepsInv(s: State, s': State)
    requires Inv(s)
    requires s' == s.(expired := s'.expired, writes := s'.writes, everFormed := s'.everFormed)
    requires s.writes <= s'.writes && (s.everFormed ==> s'.everFormed)
    requires FormedWhenReady(s, s')
    ensures Inv(s') && Progress(s, s')
  {
    hide Progress;
    assert KeepsRecords(s, s') && Linked(s');
    hide Shape, OneSync, Replicas, Rounds, AnswersOk, Acks, AnswerMeets, RoundMeets, Bringup;
    hide KeepsRecords, RaisesValues, Linked, FormedWhenReady;
    SameReplicas(s, s');
    SameRounds(s, s');
    SameAnswers(s, s');
    SameAcks(s, s');
    KeepInv(s, s');
  }

  lemma AnswerParts(s: State, a: Answer)
    requires Linked(s) && a.nonce in s.rounds
    requires AnswerOk(s.(answers := s.answers + {a}), a)
    requires forall w :: w in s.acked ==> AnswerMeetsAck(s, a, w)
    requires a.genesis ==> GenesisAlive(s)
    ensures var s' := s.(answers := s.answers + {a});
            && KeepsRecords(s, s') && Linked(s') && NewAnswers(s, s') && NewAnswerMeets(s, s') && GenesisPassedOn(s, s')
  {
    var s' := s.(answers := s.answers + {a});
    hide AnswerOk, GenesisAlive;
    forall w | w in s'.acked
      ensures AnswerMeetsAck(s', a, w)
    {
      assert AnswerMeetsAck(s, a, w);
    }
  }

  lemma AnswerKeepsInv(s: State, a: Answer)
    requires Inv(s) && a.nonce in s.rounds
    requires AnswerOk(s.(answers := s.answers + {a}), a)
    requires forall w :: w in s.acked ==> AnswerMeetsAck(s, a, w)
    requires a.genesis ==> GenesisAlive(s)
    ensures Inv(s.(answers := s.answers + {a})) && Progress(s, s.(answers := s.answers + {a}))
  {
    hide Progress;
    var s' := s.(answers := s.answers + {a});
    hide AnswerOk, AnswerMeetsAck, GenesisAlive;
    hide Shape, OneSync, Replicas, Rounds, AnswersOk, Acks, AnswerMeets, RoundMeets, Bringup;
    hide KeepsRecords, RaisesValues, Linked, NewAnswers, NewAnswerMeets, GenesisPassedOn;
    AnswerParts(s, a);
    SameReplicas(s, s');
    SameRounds(s, s');
    SameAcks(s, s');
    KeepInv(s, s');
  }

  lemma AckParts(s: State, w: Nonce, ack: Ack)
    requires Linked(s) && Rounds(s) && IsWrite(s, w) && w !in s.acked && ack.at == s.nextNonce
    requires AckOk(s.(acked := s.acked[w := ack]), w)
    ensures var s' := s.(acked := s.acked[w := ack]);
            && KeepsRecords(s, s') && Linked(s') && NewAcks(s, s') && NewAnswerMeets(s, s') && NewRoundMeets(s, s')
  {
    var s' := s.(acked := s.acked[w := ack]);
    hide AckOk, RoundOk;
    RoundsAreOld(s);
    forall a | a in s.answers ensures AnswerMeetsAck(s', a, w) { assert a.nonce in s.rounds; }
    forall r | r in s.rounds ensures RoundMeetsAck(s', r, w) { assert r < s.nextNonce; }
  }

  lemma AckKeepsInv(s: State, w: Nonce, ack: Ack)
    requires Inv(s) && IsWrite(s, w) && w !in s.acked && ack.at == s.nextNonce
    requires AckOk(s.(acked := s.acked[w := ack]), w)
    ensures Inv(s.(acked := s.acked[w := ack])) && Progress(s, s.(acked := s.acked[w := ack]))
  {
    hide Progress;
    var s' := s.(acked := s.acked[w := ack]);
    hide AckOk;
    hide Shape, OneSync, Replicas, Rounds, AnswersOk, Acks, AnswerMeets, RoundMeets, Bringup;
    hide KeepsRecords, RaisesValues, Linked, NewAcks, NewAnswerMeets, NewRoundMeets;
    AckParts(s, w, ack);
    SameReplicas(s, s');
    SameRounds(s, s');
    SameAnswers(s, s');
    KeepInv(s, s');
  }

  // ---- rounds start ----

  /** A live, ready replica shows every acknowledged write of its slot. */
  lemma LiveReadyHolds(s: State, id: Id, w: Nonce)
    requires Inv(s) && Live(s, id) && s.replicas[id].inner.ready
    requires w in s.acked && SlotOf(s, id) in s.acked[w].slots
    ensures Le(s.rounds[w].request.update, View(s.replicas[id].inner.views, s.rounds[w].request.path))
  {
    assert AckOk(s, w);
    hide Le, Bounded, Within, AnswerMeetsAck, RoundMeetsAck;
    assert s.slots[SlotOf(s, id)] == id;
    assert HoldsIfReady(s, w, id);
  }

  lemma AckIsOld(s: State, w: Nonce)
    requires Linked(s) && Rounds(s) && w in s.acked
    ensures IsWrite(s, w) && w < s.nextNonce
  {
    hide RoundOk;
    RoundsAreOld(s);
  }

  lemma NewReadMeet(s: State, id: Id, path: string, round: Round, w: Nonce)
    requires Inv(s) && Live(s, id) && s.replicas[id].inner.ready && w in s.acked
    requires round.caller == id && round.request == ReadOne(path) && round.view == View(s.replicas[id].inner.views, path)
    ensures IsWrite(Open(s, round), w) && RoundMeetsAck(Open(s, round), s.nextNonce, w)
  {
    hide Le, Shape, OneSync, Replicas, Rounds, AnswersOk, Acks, AnswerMeets, RoundMeets, Bringup;
    AckIsOld(s, w);
    if SlotOf(s, id) in s.acked[w].slots {
      LiveReadyHolds(s, id, w);
    }
  }

  lemma NewReadRoundOk(s: State, round: Round)
    requires round.request.ReadOne? && round.caller in s.replicas && s.replicas[round.caller].inner.ready
    requires ClusterWithin(round.view) && Le(round.view, Plain(s.writes, round.request.path)) && (round.formed ==> s.everFormed)
    ensures RoundOk(Open(s, round), s.nextNonce)
  {
  }

  lemma ViewIsGood(s: State, id: Id, path: string)
    requires Inv(s) && id in s.replicas
    ensures var v := View(s.replicas[id].inner.views, path);
            ClusterWithin(v) && Le(v, Plain(s.writes, path)) && (s.replicas[id].inner.formed ==> s.everFormed)
  {
    assert ReplicaOk(s, id);
  }

  lemma StartReadKeepsInv(s: State, id: Id, path: string, s': State)
    requires Inv(s) && StartReadStep(s, id, path, s')
    ensures Inv(s') && Progress(s, s')
  {
    hide Progress;
    var i := s.replicas[id].inner;
    var round := Round(id, ReadOne(path), i.formed, View(i.views, path), true);
    ViewIsGood(s, id, path);
    hide Le, Plain, ClusterWithin, RoundOk, RoundMeetsAck, Shape, OneSync, Replicas, Rounds, AnswersOk, Acks, AnswerMeets, RoundMeets, Bringup;
    NewReadRoundOk(s, round);
    forall w | w in s.acked
      ensures IsWrite(s', w) && RoundMeetsAck(s', s.nextNonce, w)
    {
      NewReadMeet(s, id, path, round, w);
    }
    OpenKeepsInv(s, round, s');
  }

  /** A round that is no read of one cluster meets every acknowledgement there is. */
  lemma NewNonceIsNoWrite(s: State, round: Round)
    requires Inv(s) && !round.request.ReadOne?
    ensures forall w :: w in s.acked ==> IsWrite(Open(s, round), w) && RoundMeetsAck(Open(s, round), s.nextNonce, w)
  {
    hide Le, Acks, AnswersOk, Replicas, AnswerMeets, RoundMeets, Bringup, RoundOk;
    RoundsAreOld(s);
    forall w | w in s.acked ensures IsWrite(s, w) && w < s.nextNonce { assert IsWrite(s, w); }
  }

  lemma StartSyncKeepsInv(s: State, id: Id, s': State)
    requires Inv(s) && StartSyncStep(s, id, s')
    ensures Inv(s') && Progress(s, s')
  {
    hide Progress;
    var i := s.replicas[id].inner;
    ViewIsGood(s, id, "");
    assert RoundOk(s', s.nextNonce);
    NewNonceIsNoWrite(s, Round(id, ReadAll, i.formed, EMPTY, true));
    hide RoundOk, Shape, OneSync, Replicas, Rounds, AnswersOk, Acks, AnswerMeets, RoundMeets, Bringup;
    forall r | OpenSync(s, r) ensures s.rounds[r].caller != id { assert r in s.rounds; }
    OpenKeepsInv(s, Round(id, ReadAll, i.formed, EMPTY, true), s');
  }

  lemma RefusedWriteKeepsInv(s: State, id: Id, path: string, update: Cluster)
    requires Inv(s) && Live(s, id) && s.replicas[id].inner.formed
    requires MergeCluster(s.replicas[id].inner.views, path, update).1.None?
    ensures Inv(PutInner(s, id, s.replicas[id].inner.(views := MergeCluster(s.replicas[id].inner.views, path, update).0))) && Progress(s, PutInner(s, id, s.replicas[id].inner.(views := MergeCluster(s.replicas[id].inner.views, path, update).0)))
  {
    hide Progress;
    var i := s.replicas[id].inner;
    var m := MergeCluster(i.views, path, update).0;
    assert ReplicaOk(s, id);
    hide Rounds, AnswersOk, Acks, AnswerMeets, RoundMeets, Bringup;
    MergeClusterOnlyRaises(i.views, path, update);
    MergeClusterRefuses(i.views, path, update);
    assert RaiseOk(s, id, i.(views := m));
    PutInnerKeepsInv(s, id, i.(views := m));
  }

  lemma TakenWriteRaises(s: State, id: Id, path: string, update: Cluster, nonce: Nonce)
    requires Inv(s) && Live(s, id) && s.replicas[id].inner.formed
    requires MergeCluster(s.replicas[id].inner.views, path, update).1.Some?
    ensures var i := s.replicas[id].inner;
            var (m, merged) := MergeCluster(i.views, path, update);
            var s1 := s.(writes := s.writes + [Write(path, update, nonce)]);
            && RaiseOk(s1, id, i.(views := m)) && s.everFormed
            && ClusterWithin(merged.value) && Le(merged.value, Plain(s1.writes, path))
            && View(m, path) == merged.value && Le(update, merged.value)
  {
    var i := s.replicas[id].inner;
    var w := Write(path, update, nonce);
    var (m, merged) := MergeCluster(i.views, path, update);
    assert ReplicaOk(s, id);
    hide Rounds, AnswersOk, Acks, AnswerMeets, RoundMeets, Bringup;
    MergeClusterOnlyRaises(i.views, path, update);
    MergeClusterAccepts(i.views, path, update);
    TakenWriteIsBounded(i.views, s.writes, w, m);
    assert Le(View(m, path), Plain(s.writes + [w], path));
    JoinKeepsLimit(View(i.views, path), update);
  }

  lemma StartWriteKeepsInv(s: State, id: Id, path: string, update: Cluster, s': State)
    requires Inv(s) && StartWriteStep(s, id, path, update, s')
    ensures Inv(s') && Progress(s, s')
  {
    hide Progress;
    hide Shape, OneSync, Replicas, Rounds, AnswersOk, Acks, AnswerMeets, RoundMeets, Bringup;
    hide MergeCluster, Plain, Le, ClusterWithin, RaiseOk, RoundOk, RoundMeetsAck, Linked;
    var i := s.replicas[id].inner;
    var (m, merged) := MergeCluster(i.views, path, update);
    if merged.None? {
      RefusedWriteKeepsInv(s, id, path, update);
    } else {
      var s1 := s.(writes := s.writes + [Write(path, update, s.nextNonce)]);
      var round := Round(id, Merge(path, update), i.formed, merged.value, true);
      var s2 := PutInner(s1, id, i.(views := m));
      TakenWriteRaises(s, id, path, update, s.nextNonce);
      HistoryKeepsInv(s, s1);
      PutInnerKeepsInv(s1, id, i.(views := m));
      NewWriteRoundOk(s2, round);
      NewNonceIsNoWrite(s2, round);
      OpenKeepsInv(s2, round, s');
      ProgressIsTransitive(s, s1, s2);
      ProgressIsTransitive(s, s2, s');
    }
  }

  lemma NewWriteRoundOk(s: State, round: Round)
    requires round.request.Merge? && s.everFormed && round.caller in s.replicas && s.replicas[round.caller].inner.ready
    requires ClusterWithin(round.view) && Le(round.view, Plain(s.writes, round.request.path))
    requires Le(round.request.update, round.view) && View(s.replicas[round.caller].inner.views, round.request.path) == round.view
    ensures RoundOk(Open(s, round), s.nextNonce)
  {
  }

  /** A map that takes a write stays below the plain map that takes it too. */
  lemma TakenWriteIsBounded(m: CounterMap, writes: seq<Write>, w: Write, m': CounterMap)
    requires Bounded(m, writes)
    requires m' == m[w.path := Join(View(m, w.path), w.update)]
    ensures Bounded(m', writes + [w])
  {
    BoundedGrows(m, writes, writes + [w]);
    forall p
      ensures Le(View(m', p), Plain(writes + [w], p))
    {
      assert Le(View(m, p), Plain(writes + [w], p));
      if p == w.path {
        PlainTakesTheWrite(writes, w);
        JoinIsLeastUpperBound(View(m, p), w.update);
      }
    }
  }

  lemma ExpireKeepsInv(s: State, id: Id, s': State)
    requires Inv(s) && ExpireStep(s, id, s')
    ensures Inv(s') && Progress(s, s')
  {
    hide Progress;
    var i := s.replicas[id].inner.(genesis := false);
    ExpireRaises(s, id);
    hide Inv, RaiseOk, Live;
    PutInnerKeepsInv(s, id, i);
    HistoryKeepsInv(PutInner(s, id, i), s');
    ProgressIsTransitive(s, PutInner(s, id, i), s');
  }

  lemma ExpireRaises(s: State, id: Id)
    requires Replicas(s) && Live(s, id)
    ensures RaiseOk(s, id, s.replicas[id].inner.(genesis := false))
  {
    assert ReplicaOk(s, id);
    MapLeIsReflexive(s.replicas[id].inner.views);
  }
}
