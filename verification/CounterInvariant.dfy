/**
 What every step of the counter protocol keeps: acknowledged writes stay held by
 every ready replica of a slot that took them, nothing is held that was never
 written, `formed` is true wherever it is claimed, and genesis ends for good.
 */
module CounterInvariant {
  import opened Outcomes
  import opened CounterViews
  import opened CounterReplica
  import opened CounterProtocol

  // ---- the invariant, part by part ----

  ghost predicate Bounded(m: CounterMap, writes: seq<Write>) {
    forall p :: Le(View(m, p), Plain(writes, p))
  }

  ghost predicate Shape(s: State) {
    && |s.slots| >= 2
    && (forall k :: 0 <= k < |s.slots| ==> s.slots[k] in s.replicas && s.replicas[s.slots[k]].slot == k)
    && (!s.replaced ==> forall id :: id in s.replicas ==> Live(s, id))
  }

  ghost predicate ReplicaOk(s: State, id: Id)
    requires id in s.replicas
  {
    var r := s.replicas[id];
    && id < s.nextId && r.slot < |s.slots|
    && Within(r.inner.views) && Bounded(r.inner.views, s.writes)
    && (r.inner.formed ==> s.everFormed)
    && (r.inner.genesis ==> r.inner.ready)
    && (!s.everFormed ==> r.inner.views == map[])
  }

  ghost predicate RoundOk(s: State, nonce: Nonce)
    requires nonce in s.rounds
  {
    var r := s.rounds[nonce];
    && nonce < s.nextNonce
    && r.caller in s.replicas
    && ClusterWithin(r.view)
    && (r.formed ==> s.everFormed)
    && (!r.request.ReadAll? ==> s.replicas[r.caller].inner.ready)
    && match r.request
       case ReadOne(path) => Le(r.view, Plain(s.writes, path))
       case ReadAll => r.open ==> !s.replicas[r.caller].inner.ready
       case Merge(path, update) =>
         && s.everFormed
         && Le(update, r.view) && Le(r.view, Plain(s.writes, path))
         && Le(update, View(s.replicas[r.caller].inner.views, path))
  }

  ghost predicate AnswerOk(s: State, a: Answer) {
    && a.nonce in s.rounds && a.from in s.replicas
    && (a.ready ==> s.replicas[a.from].inner.ready)
    && (a.formed ==> s.everFormed)
    && (a.genesis ==> a.ready && !a.formed)
    && Bounded(a.counters, s.writes)
    && (!s.everFormed ==> a.counters == map[])
    && (s.rounds[a.nonce].request.Merge? ==>
        && Le(s.rounds[a.nonce].request.update, View(s.replicas[a.from].inner.views, s.rounds[a.nonce].request.path))
        && (Running(s, a.nonce) ==> Live(s, a.from)))
  }

  predicate IsWrite(s: State, w: Nonce) {
    w in s.rounds && s.rounds[w].request.Merge?
  }

  /** `id` holds write `w`, or is neither ready nor one of those that took it. */
  ghost predicate HoldsIfReady(s: State, w: Nonce, id: Id)
    requires w in s.acked && IsWrite(s, w) && id in s.replicas
  {
    (id in s.acked[w].takers || s.replicas[id].inner.ready) ==>
      Le(s.rounds[w].request.update, View(s.replicas[id].inner.views, s.rounds[w].request.path))
  }

  /** An acknowledged write is held by every ready replica in a slot that took it. */
  ghost predicate AckOk(s: State, w: Nonce)
    requires w in s.acked
  {
    var ack := s.acked[w];
    && IsWrite(s, w) && !s.rounds[w].open && w < ack.at <= s.nextNonce
    && |ack.slots| >= Majority(|s.slots|)
    && ack.takers <= s.replicas.Keys
    && forall k :: k in ack.slots ==>
       && k < |s.slots|
       && s.slots[k] in s.replicas
       && HoldsIfReady(s, w, s.slots[k])
       && (s.slots[k] !in ack.takers ==>
           forall r :: r in s.rounds && s.rounds[r].caller == s.slots[k] ==> r >= ack.at)
  }

  predicate Asks(request: Request, path: string) {
    request.ReadAll? || (request.ReadOne? && request.path == path)
  }

  /** A ready answer to a later question, from a slot that took `w`, shows it. */
  ghost predicate AnswerMeetsAck(s: State, a: Answer, w: Nonce)
    requires w in s.acked && IsWrite(s, w) && a.nonce in s.rounds
  {
    s.acked[w].at <= a.nonce && a.ready && SlotOf(s, a.from) in s.acked[w].slots
    && Asks(s.rounds[a.nonce].request, s.rounds[w].request.path)
    ==> Le(s.rounds[w].request.update, View(a.counters, s.rounds[w].request.path))
  }

  /** A later read by a slot that took `w` starts from a view that shows it. */
  ghost predicate RoundMeetsAck(s: State, nonce: Nonce, w: Nonce)
    requires w in s.acked && IsWrite(s, w) && nonce in s.rounds
  {
    var r := s.rounds[nonce];
    s.acked[w].at <= nonce && SlotOf(s, r.caller) in s.acked[w].slots
    && r.request.ReadOne? && r.request.path == s.rounds[w].request.path
    ==> Le(s.rounds[w].request.update, r.view)
  }

  /** Until the first replacement, a formed cluster has every replica ready. */
  ghost predicate Bringup(s: State) {
    && (s.replaced ==> !GenesisAlive(s))
    && (!s.replaced && s.everFormed ==> forall k :: 0 <= k < |s.slots| ==> InnerOf(s, s.slots[k]).ready)
  }

  ghost predicate Linked(s: State) {
    && (forall a :: a in s.answers ==> a.nonce in s.rounds)
    && (forall w :: w in s.acked ==> IsWrite(s, w))
  }

  ghost predicate Replicas(s: State) { forall id :: id in s.replicas ==> ReplicaOk(s, id) }
  ghost predicate Rounds(s: State) { forall r :: r in s.rounds ==> RoundOk(s, r) }
  ghost predicate AnswersOk(s: State) { forall a :: a in s.answers ==> AnswerOk(s, a) }
  ghost predicate Acks(s: State) { forall w :: w in s.acked ==> AckOk(s, w) }

  ghost predicate AnswerMeets(s: State)
    requires Linked(s)
  {
    forall a, w :: a in s.answers && w in s.acked ==> AnswerMeetsAck(s, a, w)
  }

  ghost predicate RoundMeets(s: State)
    requires Linked(s)
  {
    forall r, w :: r in s.rounds && w in s.acked ==> RoundMeetsAck(s, r, w)
  }

  predicate OpenSync(s: State, r: Nonce) {
    r in s.rounds && s.rounds[r].open && s.rounds[r].request.ReadAll?
  }

  /** A replica runs one sync at a time. */
  ghost predicate OneSync(s: State) {
    forall r, q :: OpenSync(s, r) && OpenSync(s, q) && s.rounds[r].caller == s.rounds[q].caller ==> r == q
  }

  ghost predicate Inv(s: State) {
    && Shape(s) && Linked(s) && OneSync(s)
    && Replicas(s) && Rounds(s) && AnswersOk(s) && Acks(s)
    && AnswerMeets(s) && RoundMeets(s)
    && Bringup(s)
  }

  // ---- the plain map ----

  lemma {:induction false} PlainGrows(before: seq<Write>, after: seq<Write>, p: string)
    requires before <= after
    ensures Le(Plain(before, p), Plain(after, p))
    decreases |after|
  {
    if |before| == |after| {
      assert before == after;
      LeIsReflexive(Plain(before, p));
    } else {
      var front := after[..|after| - 1];
      assert before <= front;
      PlainGrows(before, front, p);
      JoinIsLeastUpperBound(Plain(front, p), after[|after| - 1].update);
      LeIsReflexive(Plain(front, p));
      LeIsTransitive(Plain(before, p), Plain(front, p), Plain(after, p));
    }
  }

  lemma BoundedGrows(m: CounterMap, before: seq<Write>, after: seq<Write>)
    requires Bounded(m, before) && before <= after
    ensures Bounded(m, after)
  {
    forall p
      ensures Le(View(m, p), Plain(after, p))
    {
      PlainGrows(before, after, p);
      LeIsTransitive(View(m, p), Plain(before, p), Plain(after, p));
    }
  }

  lemma PlainTakesTheWrite(writes: seq<Write>, w: Write)
    ensures Plain(writes + [w], w.path) == Join(Plain(writes, w.path), w.update)
    ensures Le(w.update, Plain(writes + [w], w.path))
  {
    assert (writes + [w])[..|writes|] == writes;
    JoinIsLeastUpperBound(Plain(writes, w.path), w.update);
  }

  // ---- what carries over from one state to the next ----

  /** No slot changes hands; rounds, answers and acknowledgements stay as they were. */
  ghost predicate KeepsRecords(s: State, s': State) {
    && s'.slots == s.slots && s'.nextId == s.nextId && s'.replaced == s.replaced
    && s'.replicas.Keys == s.replicas.Keys
    && (forall id :: id in s.replicas ==> s'.replicas[id].slot == s.replicas[id].slot)
    && (forall r :: r in s.rounds ==>
        r in s'.rounds && (s'.rounds[r] == s.rounds[r] || s'.rounds[r] == s.rounds[r].(open := false)))
    && (forall r :: r in s'.rounds ==> r in s.rounds || r >= s.nextNonce)
    && s.answers <= s'.answers
    && s.nextNonce <= s'.nextNonce
    && (forall w :: w in s.acked ==> w in s'.acked && s'.acked[w] == s.acked[w])
  }

  /** Every value only rises, and `ready` and `formed` are never taken back. */
  ghost predicate RaisesValues(s: State, s': State)
    requires s'.replicas.Keys == s.replicas.Keys
  {
    && (forall id :: id in s.replicas ==>
        && MapLe(s.replicas[id].inner.views, s'.replicas[id].inner.views)
        && (s.replicas[id].inner.ready ==> s'.replicas[id].inner.ready))
    && s.writes <= s'.writes
    && (s.everFormed ==> s'.everFormed)
  }

  ghost predicate Evolves(s: State, s': State) {
    KeepsRecords(s, s') && RaisesValues(s, s')
  }

  // What a step must show of the parts it makes or changes.

  ghost predicate NewReplicas(s: State, s': State)
    requires KeepsRecords(s, s')
  {
    forall id :: id in s.replicas && s'.replicas[id] != s.replicas[id] ==> ReplicaOk(s', id)
  }

  ghost predicate NewRounds(s: State, s': State) {
    forall r :: r in s'.rounds && r !in s.rounds ==> RoundOk(s', r)
  }

  ghost predicate NewSyncs(s: State, s': State) {
    forall r, q ::
      (&& OpenSync(s', r) && OpenSync(s', q) && (r !in s.rounds || q !in s.rounds)
       && s'.rounds[r].caller == s'.rounds[q].caller) ==> r == q
  }

  /** A replica does not become ready while it has another sync open. */
  ghost predicate SyncsStayUnready(s: State, s': State)
    requires KeepsRecords(s, s')
  {
    forall r :: r in s.rounds && s'.rounds[r].open && s.rounds[r].request.ReadAll? && s.rounds[r].caller in s.replicas
                && s'.replicas[s.rounds[r].caller].inner.ready ==>
      s.replicas[s.rounds[r].caller].inner.ready
  }

  ghost predicate NewAnswers(s: State, s': State) {
    forall a :: a in s'.answers && a !in s.answers ==> AnswerOk(s', a)
  }

  ghost predicate NewAcks(s: State, s': State) {
    forall w :: w in s'.acked && w !in s.acked ==> AckOk(s', w)
  }

  /** A replica that becomes ready holds every acknowledged write of its slot. */
  ghost predicate NewlyReadyHold(s: State, s': State)
    requires Linked(s)
  {
    forall w, k :: w in s.acked && k in s.acked[w].slots && k < |s.slots| ==> NewlyReadyHolds(s, s', w, s.slots[k])
  }

  ghost predicate NewlyReadyHolds(s: State, s': State, w: Nonce, id: Id)
    requires w in s.acked && IsWrite(s, w)
  {
    id in s.replicas && id in s'.replicas && !s.replicas[id].inner.ready && s'.replicas[id].inner.ready ==>
      Le(s.rounds[w].request.update, View(s'.replicas[id].inner.views, s.rounds[w].request.path))
  }

  ghost predicate NewAnswerMeets(s: State, s': State)
    requires Linked(s')
  {
    forall a, w :: a in s'.answers && w in s'.acked && (a !in s.answers || w !in s.acked) ==> AnswerMeetsAck(s', a, w)
  }

  ghost predicate NewRoundMeets(s: State, s': State)
    requires Linked(s')
  {
    forall r, w :: r in s'.rounds && w in s'.acked && (r !in s.rounds || w !in s.acked) ==> RoundMeetsAck(s', r, w)
  }

  /** Genesis passes on only from a live report or an answer in flight. */
  ghost predicate GenesisPassedOn(s: State, s': State)
    requires KeepsRecords(s, s')
  {
    && (forall id :: id in s.replicas && Live(s, id) && ReportsGenesis(s'.replicas[id].inner) ==>
        ReportsGenesis(s.replicas[id].inner) || GenesisAlive(s))
    && (forall a :: a in s'.answers && a !in s.answers && a.genesis ==> GenesisAlive(s))
  }

  /** The cluster forms only when, short of a replacement, every replica is ready. */
  ghost predicate FormedWhenReady(s: State, s': State) {
    !s.everFormed && s'.everFormed && !s'.replaced ==> forall k :: 0 <= k < |s'.slots| ==> InnerOf(s', s'.slots[k]).ready
  }

  ghost predicate GoodStep(s: State, s': State) {
    && Linked(s) && Linked(s') && Evolves(s, s')
    && NewReplicas(s, s') && NewRounds(s, s') && NewSyncs(s, s') && SyncsStayUnready(s, s')
    && NewAnswers(s, s') && NewAcks(s, s') && NewlyReadyHold(s, s')
    && NewAnswerMeets(s, s') && NewRoundMeets(s, s')
    && GenesisPassedOn(s, s') && FormedWhenReady(s, s')
  }

  lemma KeepShape(s: State, s': State)
    requires KeepsRecords(s, s') && Shape(s)
    ensures Shape(s')
  {
  }

  lemma KeepOneSync(s: State, s': State)
    requires KeepsRecords(s, s') && OneSync(s) && NewSyncs(s, s')
    ensures OneSync(s')
  {
    forall r, q | OpenSync(s', r) && OpenSync(s', q) && s'.rounds[r].caller == s'.rounds[q].caller
      ensures r == q
    {
      if r in s.rounds && q in s.rounds {
        assert OpenSync(s, r) && OpenSync(s, q);
      }
    }
  }

  lemma KeepReplica(s: State, s': State, id: Id)
    requires Evolves(s, s') && id in s.replicas && ReplicaOk(s, id)
    requires s'.replicas[id] == s.replicas[id]
    ensures ReplicaOk(s', id)
  {
    BoundedGrows(s.replicas[id].inner.views, s.writes, s'.writes);
  }

  lemma KeepReplicas(s: State, s': State)
    requires Evolves(s, s') && Replicas(s) && NewReplicas(s, s')
    ensures Replicas(s')
  {
    hide ReplicaOk, MapLe;
    forall id | id in s'.replicas
      ensures ReplicaOk(s', id)
    {
      if s'.replicas[id] == s.replicas[id] {
        KeepReplica(s, s', id);
      }
    }
  }

  lemma KeepRound(s: State, s': State, r: Nonce)
    requires Evolves(s, s') && r in s.rounds && RoundOk(s, r)
    requires SyncsStayUnready(s, s')
    ensures RoundOk(s', r)
  {
    var round := s.rounds[r];
    if !round.request.ReadAll? {
      var path := round.request.path;
      PlainGrows(s.writes, s'.writes, path);
      LeIsTransitive(round.view, Plain(s.writes, path), Plain(s'.writes, path));
      if round.request.Merge? {
        LeIsTransitive(round.request.update, View(s.replicas[round.caller].inner.views, path),
                       View(s'.replicas[round.caller].inner.views, path));
      }
    }
  }

  lemma KeepRounds(s: State, s': State)
    requires Evolves(s, s') && Rounds(s) && NewRounds(s, s') && SyncsStayUnready(s, s')
    ensures Rounds(s')
  {
    hide RoundOk, MapLe, SyncsStayUnready;
    forall r | r in s'.rounds
      ensures RoundOk(s', r)
    {
      if r in s.rounds {
        KeepRound(s, s', r);
      }
    }
  }

  lemma KeepAnswer(s: State, s': State, a: Answer)
    requires Evolves(s, s') && AnswerOk(s, a)
    ensures AnswerOk(s', a)
  {
    BoundedGrows(a.counters, s.writes, s'.writes);
    var request := s.rounds[a.nonce].request;
    if request.Merge? {
      LeIsTransitive(request.update, View(s.replicas[a.from].inner.views, request.path),
                     View(s'.replicas[a.from].inner.views, request.path));
    }
  }

  lemma KeepAnswers(s: State, s': State)
    requires Evolves(s, s') && AnswersOk(s) && NewAnswers(s, s')
    ensures AnswersOk(s')
  {
    hide AnswerOk, MapLe;
    forall a | a in s'.answers
      ensures AnswerOk(s', a)
    {
      if a in s.answers {
        KeepAnswer(s, s', a);
      }
    }
  }

  lemma KeepAck(s: State, s': State, w: Nonce)
    requires Linked(s) && Evolves(s, s') && w in s.acked && AckOk(s, w) && NewlyReadyHold(s, s')
    ensures AckOk(s', w)
  {
    var ack, update, path := s.acked[w], s.rounds[w].request.update, s.rounds[w].request.path;
    forall k | k in ack.slots
      ensures HoldsIfReady(s', w, s'.slots[k])
    {
      var id := s.slots[k];
      assert HoldsIfReady(s, w, id) && NewlyReadyHolds(s, s', w, id);
      if id in ack.takers || s.replicas[id].inner.ready {
        LeIsTransitive(update, View(s.replicas[id].inner.views, path), View(s'.replicas[id].inner.views, path));
      }
    }
  }

  lemma KeepAcks(s: State, s': State)
    requires Linked(s) && Evolves(s, s') && Acks(s) && NewAcks(s, s') && NewlyReadyHold(s, s')
    ensures Acks(s')
  {
    hide AckOk, MapLe, NewlyReadyHold;
    forall w | w in s'.acked
      ensures AckOk(s', w)
    {
      if w in s.acked {
        KeepAck(s, s', w);
      }
    }
  }

  lemma KeepAnswerMeets(s: State, s': State)
    requires Linked(s) && Linked(s') && KeepsRecords(s, s') && AnswerMeets(s) && NewAnswerMeets(s, s')
    ensures AnswerMeets(s')
  {
    forall a, w | a in s'.answers && w in s'.acked
      ensures AnswerMeetsAck(s', a, w)
    {
      if a in s.answers && w in s.acked {
        assert AnswerMeetsAck(s, a, w);
      }
    }
  }

  lemma KeepRoundMeets(s: State, s': State)
    requires Linked(s) && Linked(s') && KeepsRecords(s, s') && RoundMeets(s) && NewRoundMeets(s, s')
    ensures RoundMeets(s')
  {
    forall r, w | r in s'.rounds && w in s'.acked
      ensures RoundMeetsAck(s', r, w)
    {
      if r in s.rounds && w in s.acked {
        assert RoundMeetsAck(s, r, w);
      }
    }
  }

  /** Genesis cannot start again. */
  lemma GenesisStaysOver(s: State, s': State)
    requires Linked(s) && KeepsRecords(s, s') && GenesisPassedOn(s, s')
    ensures !GenesisAlive(s) ==> !GenesisAlive(s')
  {
    if GenesisAlive(s') {
      if id :| id in s'.replicas && Live(s', id) && ReportsGenesis(s'.replicas[id].inner) {
        assert Live(s, id);
      } else {
        var a :| a in s'.answers && GenesisInFlight(s', a);
        if a in s.answers {
          assert GenesisInFlight(s, a);
        }
      }
    }
  }

  lemma KeepBringup(s: State, s': State)
    requires Shape(s) && Linked(s) && Evolves(s, s') && Bringup(s) && GenesisPassedOn(s, s') && FormedWhenReady(s, s')
    ensures Bringup(s')
  {
    hide MapLe, GenesisAlive;
    GenesisStaysOver(s, s');
    if !s'.replaced && s.everFormed {
      forall k | 0 <= k < |s.slots|
        ensures InnerOf(s', s'.slots[k]).ready
      {
        assert InnerOf(s, s.slots[k]).ready;
      }
    }
  }

  /** Replicas only grow, for as long as they exist. */
  ghost predicate OnlyGrow(s: State, s': State) {
    forall id :: id in s.replicas ==>
      && id in s'.replicas && s'.replicas[id].slot == s.replicas[id].slot
      && MapLe(s.replicas[id].inner.views, s'.replicas[id].inner.views)
      && (s.replicas[id].inner.ready ==> s'.replicas[id].inner.ready)
  }

  /** Records are never taken back, replicas only grow, and genesis never starts again. */
  ghost predicate Progress(s: State, s': State) {
    && |s'.slots| == |s.slots|
    && (s.replaced ==> s'.replaced) && (!s'.replaced ==> s'.slots == s.slots)
    && OnlyGrow(s, s')
    && (forall r :: r in s.rounds ==>
        && r in s'.rounds
        && s'.rounds[r].request == s.rounds[r].request && s'.rounds[r].caller == s.rounds[r].caller)
    && (forall w :: w in s.acked ==> w in s'.acked && s'.acked[w] == s.acked[w])
    && s.nextNonce <= s'.nextNonce
    && s.answers <= s'.answers
    && s.writes <= s'.writes
    && (s.everFormed ==> s'.everFormed)
    && (!GenesisAlive(s) ==> !GenesisAlive(s'))
  }

  lemma ProgressIsTransitive(s: State, t: State, u: State)
    requires Progress(s, t) && Progress(t, u)
    ensures Progress(s, u)
  {
    hide GenesisAlive, OnlyGrow;
    OnlyGrowIsTransitive(s, t, u);
  }

  lemma OnlyGrowIsTransitive(s: State, t: State, u: State)
    requires OnlyGrow(s, t) && OnlyGrow(t, u)
    ensures OnlyGrow(s, u)
  {
    hide MapLe;
    forall id | id in s.replicas ensures MapLe(s.replicas[id].inner.views, u.replicas[id].inner.views) {
      MapLeIsTransitive(s.replicas[id].inner.views, t.replicas[id].inner.views, u.replicas[id].inner.views);
    }
  }

  lemma ProgressIsReflexive(s: State)
    ensures Progress(s, s)
  {
    forall id | id in s.replicas ensures MapLe(s.replicas[id].inner.views, s.replicas[id].inner.views) {
      MapLeIsReflexive(s.replicas[id].inner.views);
    }
  }

  lemma KeepProgress(s: State, s': State)
    requires Linked(s) && Evolves(s, s') && GenesisPassedOn(s, s')
    ensures Progress(s, s')
  {
    GenesisStaysOver(s, s');
    hide GenesisAlive, MapLe, GenesisPassedOn;
  }

  lemma KeepInv(s: State, s': State)
    requires Inv(s) && GoodStep(s, s')
    ensures Inv(s') && Progress(s, s')
  {
    hide Shape, OneSync, NewSyncs, Replicas, Rounds, AnswersOk, Acks, AnswerMeets, RoundMeets, Bringup;
    hide NewReplicas, NewRounds, SyncsStayUnready, NewAnswers, NewAcks, NewlyReadyHold, NewAnswerMeets, NewRoundMeets;
    hide GenesisPassedOn, FormedWhenReady, KeepsRecords, RaisesValues, Linked, Progress;
    KeepShape(s, s');
    KeepOneSync(s, s');
    KeepReplicas(s, s');
    KeepRounds(s, s');
    KeepAnswers(s, s');
    KeepAcks(s, s');
    KeepAnswerMeets(s, s');
    KeepRoundMeets(s, s');
    KeepBringup(s, s');
    KeepProgress(s, s');
  }

  // ---- quorums ----

  ghost predicate DistinctSlots(s: State, answers: seq<Answer>) {
    forall j, k :: 0 <= j < k < |answers| ==> SlotOf(s, answers[j].from) != SlotOf(s, answers[k].from)
  }

  lemma FirstSlotIsNew(s: State, answers: seq<Answer>)
    requires answers != [] && DistinctSlots(s, answers)
    ensures DistinctSlots(s, answers[1..])
    ensures SlotOf(s, answers[0].from) !in SlotsOf(s, answers[1..])
  {
    var rest := answers[1..];
    forall a | a in rest
      ensures SlotOf(s, a.from) != SlotOf(s, answers[0].from)
    {
      var k :| 0 <= k < |rest| && rest[k] == a;
      assert answers[k + 1] == a;
    }
  }

  lemma {:induction false} DistinctSlotsCount(s: State, answers: seq<Answer>)
    requires DistinctSlots(s, answers)
    ensures |SlotsOf(s, answers)| == |answers|
  {
    if answers != [] {
      FirstSlotIsNew(s, answers);
      DistinctSlotsCount(s, answers[1..]);
      assert SlotsOf(s, answers) == {SlotOf(s, answers[0].from)} + SlotsOf(s, answers[1..]);
    }
  }

  lemma {:induction false} DistinctReadySlotsCount(s: State, answers: seq<Answer>)
    requires DistinctSlots(s, answers)
    ensures |SlotsOf(s, ReadyOnes(answers))| == |ReadyOnes(answers)|
  {
    if answers != [] {
      var rest := answers[1..];
      FirstSlotIsNew(s, answers);
      DistinctReadySlotsCount(s, rest);
      ReadyOnesAreTheReadyOnes(rest);
      if answers[0].ready {
        assert ReadyOnes(answers) == [answers[0]] + ReadyOnes(rest);
        assert SlotsOf(s, ReadyOnes(rest)) <= SlotsOf(s, rest);
        assert SlotsOf(s, ReadyOnes(answers)) == {SlotOf(s, answers[0].from)} + SlotsOf(s, ReadyOnes(rest));
      } else {
        assert ReadyOnes(answers) == ReadyOnes(rest);
      }
    }
  }

  /** Two majorities of the same slots share one. */
  lemma QuorumsMeet(n: nat, a: set<nat>, b: set<nat>) returns (k: nat)
    requires a <= Below(n) && b <= Below(n) && |a| + |b| > n
    ensures k in a && k in b
  {
    if a * b == {} {
      assert |a + b| == |a| + |b|;
      SubsetIsSmaller(a + b, Below(n));
      assert false;
    }
    k :| k in a * b;
  }
}
