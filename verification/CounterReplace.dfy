/**
 Replacing a replica keeps the invariant, and with it every step does.
 */
module CounterReplace {
  import opened Outcomes
  import opened CounterViews
  import opened CounterReplica
  import opened CounterProtocol
  import opened CounterInvariant
  import opened CounterSteps
  import opened CounterFinish

  lemma NewIdIsFresh(s: State)
    requires Replicas(s)
    ensures s.nextId !in s.replicas
  {
    forall id | id in s.replicas ensures id < s.nextId { assert ReplicaOk(s, id); }
  }

  lemma ReplaceKeepsShape(s: State, k: nat, s': State)
    requires Shape(s) && Linked(s) && OneSync(s) && ReplaceStep(s, k, s') && s.nextId !in s.replicas
    ensures Shape(s') && Linked(s') && OneSync(s')
  {
    hide GenesisAlive, AnsweredARunningWrite;
    forall r, q | OpenSync(s', r) && OpenSync(s', q) && s'.rounds[r].caller == s'.rounds[q].caller
      ensures r == q
    {
      assert OpenSync(s, r) && OpenSync(s, q);
    }
  }

  lemma ReplaceKeepsReplicas(s: State, k: nat, s': State)
    requires Replicas(s) && ReplaceStep(s, k, s') && s.nextId !in s.replicas
    ensures Replicas(s')
  {
    hide GenesisAlive, AnsweredARunningWrite;
    forall id | id in s'.replicas
      ensures ReplicaOk(s', id)
    {
      if id in s.replicas {
        assert ReplicaOk(s, id);
      } else {
        forall p ensures Le(View(map[], p), Plain(s.writes, p)) { LeIsReflexive(Plain(s.writes, p)); }
      }
    }
  }

  lemma ReplaceKeepsRounds(s: State, k: nat, s': State)
    requires Rounds(s) && ReplaceStep(s, k, s') && s.nextId !in s.replicas
    ensures Rounds(s')
  {
    hide GenesisAlive, AnsweredARunningWrite, Le, Plain;
    forall r | r in s'.rounds
      ensures RoundOk(s', r)
    {
      assert RoundOk(s, r);
    }
  }

  lemma ReplaceKeepsAnswers(s: State, k: nat, s': State)
    requires Rounds(s) && AnswersOk(s) && ReplaceStep(s, k, s') && s.nextId !in s.replicas
    ensures AnswersOk(s')
  {
    hide GenesisAlive, Le, Bounded;
    forall a | a in s'.answers
      ensures AnswerOk(s', a)
    {
      assert AnswerOk(s, a) && RoundOk(s, a.nonce);
      if s.rounds[a.nonce].request.Merge? && Running(s', a.nonce) {
        assert Running(s, a.nonce);
        assert a.from != s.slots[k];
      }
    }
  }

  lemma ReplaceKeepsHolder(s: State, k: nat, s': State, w: Nonce, j: nat)
    requires Rounds(s) && ReplaceStep(s, k, s') && s.nextId !in s.replicas
    requires w in s.acked && AckOk(s, w) && j in s.acked[w].slots
    ensures j < |s'.slots| && s'.slots[j] in s'.replicas && IsWrite(s', w) && HoldsIfReady(s', w, s'.slots[j])
    ensures s'.slots[j] !in s.acked[w].takers ==>
              forall r :: r in s'.rounds && s'.rounds[r].caller == s'.slots[j] ==> r >= s.acked[w].at
  {
    hide GenesisAlive, AnsweredARunningWrite, Le, RoundOk;
    if j == k {
      CallersAreKnown(s);
    } else {
      assert HoldsIfReady(s, w, s.slots[j]);
    }
  }

  lemma CallersAreKnown(s: State)
    requires Rounds(s)
    ensures forall r :: r in s.rounds ==> s.rounds[r].caller in s.replicas
  {
    forall r | r in s.rounds ensures s.rounds[r].caller in s.replicas { assert RoundOk(s, r); }
  }

  lemma ReplaceKeepsAcks(s: State, k: nat, s': State)
    requires Rounds(s) && Acks(s) && ReplaceStep(s, k, s') && s.nextId !in s.replicas
    ensures Acks(s')
  {
    hide GenesisAlive, AnsweredARunningWrite, Rounds, HoldsIfReady;
    forall w | w in s'.acked
      ensures AckOk(s', w)
    {
      assert AckOk(s, w);
      forall j | j in s.acked[w].slots
        ensures j < |s'.slots| && s'.slots[j] in s'.replicas && HoldsIfReady(s', w, s'.slots[j])
        ensures s'.slots[j] !in s.acked[w].takers ==>
                  forall r :: r in s'.rounds && s'.rounds[r].caller == s'.slots[j] ==> r >= s.acked[w].at
      {
        ReplaceKeepsHolder(s, k, s', w, j);
      }
    }
  }

  lemma ReplaceKeepsMeets(s: State, k: nat, s': State)
    requires Linked(s) && Linked(s') && Rounds(s) && AnswersOk(s) && AnswerMeets(s) && RoundMeets(s)
    requires ReplaceStep(s, k, s') && s.nextId !in s.replicas
    ensures AnswerMeets(s') && RoundMeets(s')
  {
    hide GenesisAlive, AnsweredARunningWrite, Le;
    forall a | a in s.answers ensures SlotOf(s', a.from) == SlotOf(s, a.from) { assert AnswerOk(s, a); }
    forall r | r in s.rounds ensures SlotOf(s', s.rounds[r].caller) == SlotOf(s, s.rounds[r].caller) { assert RoundOk(s, r); }
    hide AnswersOk, Rounds;
    forall a, w | a in s'.answers && w in s'.acked ensures AnswerMeetsAck(s', a, w) { assert AnswerMeetsAck(s, a, w); }
    forall r, w | r in s'.rounds && w in s'.acked ensures RoundMeetsAck(s', r, w) { assert RoundMeetsAck(s, r, w); }
  }

  lemma ReplaceEndsGenesis(s: State, k: nat, s': State)
    requires Rounds(s) && ReplaceStep(s, k, s') && s.nextId !in s.replicas
    ensures Bringup(s') && !GenesisAlive(s')
  {
    hide AnsweredARunningWrite;
    forall id | id in s'.replicas && Live(s', id)
      ensures !ReportsGenesis(s'.replicas[id].inner)
    {
      if id in s.replicas {
        assert Live(s, id);
      }
    }
    forall a | a in s'.answers
      ensures !GenesisInFlight(s', a)
    {
      if a.nonce in s.rounds {
        assert RoundOk(s, a.nonce);
        assert GenesisInFlight(s', a) ==> GenesisInFlight(s, a);
      }
    }
  }

  lemma ReplaceKeepsInv(s: State, k: nat, s': State)
    requires Inv(s) && ReplaceStep(s, k, s')
    ensures Inv(s') && Progress(s, s')
  {
    hide Progress;
    hide Shape, Linked, OneSync, Replicas, Rounds, AnswersOk, Acks, AnswerMeets, RoundMeets, Bringup, ReplaceStep;
    NewIdIsFresh(s);
    ReplaceKeepsShape(s, k, s');
    ReplaceKeepsReplicas(s, k, s');
    ReplaceKeepsRounds(s, k, s');
    ReplaceKeepsAnswers(s, k, s');
    ReplaceKeepsAcks(s, k, s');
    ReplaceKeepsMeets(s, k, s');
    ReplaceEndsGenesis(s, k, s');
    ReplaceProgress(s, k, s');
  }

  lemma ReplaceProgress(s: State, k: nat, s': State)
    requires ReplaceStep(s, k, s') && !GenesisAlive(s') && s.nextId !in s.replicas
    ensures Progress(s, s')
  {
    hide GenesisAlive, AnsweredARunningWrite;
    forall id | id in s.replicas ensures MapLe(s.replicas[id].inner.views, s'.replicas[id].inner.views) {
      MapLeIsReflexive(s.replicas[id].inner.views);
    }
  }

  /** Every step keeps the invariant, takes back no record, and never starts genesis again. */
  lemma NextKeepsInv(s: State, step: Step, s': State)
    requires Inv(s) && Next(s, step, s')
    ensures Inv(s') && Progress(s, s')
  {
    hide Progress;
    match step
    case StartRead(id, path) => StartReadKeepsInv(s, id, path, s');
    case StartSync(id) => StartSyncKeepsInv(s, id, s');
    case StartWrite(id, path, update) => StartWriteKeepsInv(s, id, path, update, s');
    case Answers(id, nonce) => AnswersKeepsInv(s, id, nonce, s');
    case FinishRead(nonce, heard) => FinishReadKeepsInv(s, nonce, heard, s');
    case FinishWrite(nonce, heard) => FinishWriteKeepsInv(s, nonce, heard, s');
    case FinishSync(nonce, heard) => FinishSyncKeepsInv(s, nonce, heard, s');
    case Abandon(nonce) => CloseKeepsInv(s, nonce);
    case Expire(id) => ExpireKeepsInv(s, id, s');
    case Replace(k) => ReplaceKeepsInv(s, k, s');
  }
}
