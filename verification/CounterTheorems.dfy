/**
 What the counter protocol promises over every run: reads meet every acknowledged
 write and nothing that was never written, `formed` is true, genesis ends for good.
 */
module CounterTheorems {
  import opened Outcomes
  import opened CounterViews
  import opened CounterReplica
  import opened CounterProtocol
  import opened CounterInvariant
  import opened CounterSteps
  import opened CounterFinish
  import opened CounterReplace

  /** A run of the cluster: states from an initial one, each a step from the one before. */
  ghost predicate IsRun(states: seq<State>, steps: seq<Step>) {
    && |states| == |steps| + 1
    && Init(states[0])
    && forall k :: 0 <= k < |steps| ==> Next(states[k], steps[k], states[k + 1])
  }

  lemma RunStep(states: seq<State>, steps: seq<Step>, k: nat)
    requires IsRun(states, steps) && k < |steps|
    ensures Next(states[k], steps[k], states[k + 1])
  {
    hide Init, Next;
  }

  lemma {:induction false} RunKeepsInv(states: seq<State>, steps: seq<Step>, k: nat)
    requires IsRun(states, steps) && k < |states|
    ensures Inv(states[k])
  {
    hide Inv, Init, Next, Progress;
    if k == 0 {
      InitHolds(states[0]);
    } else {
      RunKeepsInv(states, steps, k - 1);
      RunStep(states, steps, k - 1);
      NextKeepsInv(states[k - 1], steps[k - 1], states[k]);
    }
  }

  /** Over every run, records are never taken back and genesis ends for good. */
  lemma {:induction false} RunProgress(states: seq<State>, steps: seq<Step>, j: nat, k: nat)
    requires IsRun(states, steps) && j <= k < |states|
    ensures Progress(states[j], states[k])
    decreases k
  {
    hide Inv, Init, Next, Progress;
    if j == k {
      ProgressIsReflexive(states[k]);
    } else {
      RunProgress(states, steps, j, k - 1);
      RunKeepsInv(states, steps, k - 1);
      RunStep(states, steps, k - 1);
      NextKeepsInv(states[k - 1], steps[k - 1], states[k]);
      ProgressIsTransitive(states[j], states[k - 1], states[k]);
    }
  }

  // ---- acknowledged writes ----

  /**
   Once a write is acknowledged, every replica of a slot that took it holds it
   whenever it is ready, in every later state, however many replicas were replaced.
   */
  lemma AckedWriteIsHeld(states: seq<State>, steps: seq<Step>, j: nat, k: nat, w: Nonce, slot: nat)
    requires IsRun(states, steps) && j <= k < |states|
    requires w in states[j].acked && slot in states[j].acked[w].slots
    ensures IsWrite(states[j], w) && slot < |states[k].slots| && |states[j].acked[w].slots| >= Majority(|states[k].slots|)
    ensures var i := InnerOf(states[k], states[k].slots[slot]);
            i.ready ==> Le(states[j].rounds[w].request.update, View(i.views, states[j].rounds[w].request.path))
  {
    RunProgress(states, steps, j, k);
    RunKeepsInv(states, steps, j);
    RunKeepsInv(states, steps, k);
    hide Le, IsRun, Shape, OnlyGrow, GenesisAlive, OneSync, Replicas, Rounds, AnswersOk, AnswerMeets, RoundMeets, Bringup;
    assert AckOk(states[j], w);
    assert AckOk(states[k], w) && HoldsIfReady(states[k], w, states[k].slots[slot]);
  }

  /** A finished read shows every write acknowledged before it started, and nothing beyond the plain map. */
  lemma ReadIsBetween(s: State, nonce: Nonce, heard: seq<Answer>, v: Cluster)
    requires Inv(s) && Running(s, nonce) && s.rounds[nonce].request.ReadOne? && Heard(s, nonce, heard)
    requires var r := s.rounds[nonce];
             ReadTail(|s.slots|, s.replicas[r.caller].inner, r.request.path, r.view, heard).1 == Some(v)
    ensures Le(v, Plain(s.writes, s.rounds[nonce].request.path))
    ensures forall w :: w in s.acked && s.acked[w].at <= nonce && IsWrite(s, w)
                        && s.rounds[w].request.path == s.rounds[nonce].request.path ==>
              Le(s.rounds[w].request.update, v)
  {
    hide Le, Plain, Inv, Heard, RoundOk;
    var r := s.rounds[nonce];
    var path := r.request.path;
    var ready := ReadyOnes(heard);
    ReadFolds(s, nonce, heard, v);
    forall w | w in s.acked && s.acked[w].at <= nonce && IsWrite(s, w) && s.rounds[w].request.path == path
      ensures Le(s.rounds[w].request.update, v)
    {
      ReadMeetsAck(s, nonce, heard, v, w);
    }
  }

  /** A read's result is above its own view and every ready answer's, and below the plain map. */
  lemma ReadFolds(s: State, nonce: Nonce, heard: seq<Answer>, v: Cluster)
    requires Inv(s) && Running(s, nonce) && s.rounds[nonce].request.ReadOne? && Heard(s, nonce, heard)
    requires var r := s.rounds[nonce];
             ReadTail(|s.slots|, s.replicas[r.caller].inner, r.request.path, r.view, heard).1 == Some(v)
    ensures var r := s.rounds[nonce];
            && Le(r.view, v) && Le(v, Plain(s.writes, r.request.path))
            && |ReadyOnes(heard)| + 1 >= Majority(|s.slots|)
            && forall a :: a in ReadyOnes(heard) ==> Le(View(a.counters, r.request.path), v)
  {
    hide Le, Plain, Shape, OneSync, Replicas, Acks, AnswerMeets, RoundMeets, Bringup, Linked;
    var r := s.rounds[nonce];
    HeardAreOk(s, nonce, heard);
    assert RoundOk(s, nonce);
    hide Rounds, AnswersOk, Heard, AnswerOk;
    ToldIsFormed(s, heard);
    ReadyOnesAreTheReadyOnes(heard);
    FoldedViewIsTheJoin(r.view, ReadyOnes(heard), r.request.path);
    FoldedIsBounded(s, r.request.path, r.view, ReadyOnes(heard));
  }

  lemma HeardAreOk(s: State, nonce: Nonce, heard: seq<Answer>)
    requires AnswersOk(s) && nonce in s.rounds && Heard(s, nonce, heard)
    ensures forall a :: a in heard ==> AnswerOk(s, a)
  {
    hide AnswerOk;
    forall a | a in heard ensures AnswerOk(s, a) {
      var k :| 0 <= k < |heard| && heard[k] == a;
    }
  }

  lemma ReadMeetsAck(s: State, nonce: Nonce, heard: seq<Answer>, v: Cluster, w: Nonce)
    requires Inv(s) && Running(s, nonce) && s.rounds[nonce].request.ReadOne? && Heard(s, nonce, heard)
    requires |ReadyOnes(heard)| + 1 >= Majority(|s.slots|)
    requires Le(s.rounds[nonce].view, v)
    requires forall a :: a in ReadyOnes(heard) ==> Le(View(a.counters, s.rounds[nonce].request.path), v)
    requires w in s.acked && s.acked[w].at <= nonce && IsWrite(s, w) && s.rounds[w].request.path == s.rounds[nonce].request.path
    ensures Le(s.rounds[w].request.update, v)
  {
    hide Le, OneSync, Rounds, Acks, Bringup, Shape, Replicas, AnswersOk, Linked, AnswerMeets, RoundMeets, Heard;
    var r := s.rounds[nonce];
    var ready := ReadyOnes(heard);
    var update, path := s.rounds[w].request.update, s.rounds[w].request.path;
    HeardSlots(s, nonce, heard);
    AckSlotsAreSlots(s, w);
    var own := SlotOf(s, r.caller);
    var k := QuorumsMeet(|s.slots|, s.acked[w].slots, {own} + SlotsOf(s, ready));
    if k == own {
      RoundMeets1(s, nonce, w);
      LeIsTransitive(update, r.view, v);
    } else {
      var a :| a in ready && SlotOf(s, a.from) == k;
      HeardFacts(s, nonce, heard);
      ReadyOnesAreTheReadyOnes(heard);
      AnswerMeets1(s, a, w);
      LeIsTransitive(update, View(a.counters, path), v);
    }
  }

  lemma RoundMeets1(s: State, r: Nonce, w: Nonce)
    requires Linked(s) && RoundMeets(s) && r in s.rounds && w in s.acked
    ensures IsWrite(s, w) && RoundMeetsAck(s, r, w)
  {
  }

  lemma AnswerMeets1(s: State, a: Answer, w: Nonce)
    requires Linked(s) && AnswerMeets(s) && a in s.answers && w in s.acked
    ensures a.nonce in s.rounds && IsWrite(s, w) && AnswerMeetsAck(s, a, w)
  {
  }

  /**
   Over every run: a read that started after a write was acknowledged and that
   succeeds returns a view at or above that write.
   */
  lemma EveryReadMeetsEveryAckedWrite(states: seq<State>, steps: seq<Step>, j: nat, k: nat, w: Nonce, v: Cluster)
    requires IsRun(states, steps) && j <= k < |steps|
    requires w in states[j].acked
    requires steps[k].FinishRead? && steps[k].nonce >= states[j].nextNonce
    requires var s := states[k];
             && steps[k].nonce in s.rounds && s.rounds[steps[k].nonce].request.ReadOne?
             && var r := s.rounds[steps[k].nonce];
             && w in states[j].rounds && states[j].rounds[w].request.Merge? && r.request.path == states[j].rounds[w].request.path
             && ReadTail(|s.slots|, InnerOf(s, r.caller), r.request.path, r.view, steps[k].heard).1 == Some(v)
    ensures Le(states[j].rounds[w].request.update, v)
  {
    hide Le, Init, ReadTail, Heard, GenesisAlive, OnlyGrow, Shape, OneSync, Replicas, Rounds, AnswersOk, Acks, AnswerMeets, RoundMeets, Bringup;
    RunProgress(states, steps, j, k);
    RunKeepsInv(states, steps, j);
    RunKeepsInv(states, steps, k);
    RunStep(states, steps, k);
    AckAtIsPast(states[j], w);
    ReadIsBetween(states[k], steps[k].nonce, steps[k].heard, v);
  }

  lemma AckAtIsPast(s: State, w: Nonce)
    requires Acks(s) && w in s.acked
    ensures s.acked[w].at <= s.nextNonce
  {
    assert AckOk(s, w);
  }

  // ---- the plain map ----

  /** Every value of the plain map was written: its epoch, and each node's entry. */
  lemma {:induction false} PlainValuesWereWritten(writes: seq<Write>, path: string)
    ensures var c := Plain(writes, path);
            && (c.epoch == 0 || exists w :: w in writes && w.path == path && w.update.epoch == c.epoch)
            && forall n :: n in c.nodes ==> exists w :: w in writes && w.path == path && n in w.update.nodes && w.update.nodes[n] == c.nodes[n]
    decreases |writes|
  {
    if writes != [] {
      var front, last := writes[..|writes| - 1], writes[|writes| - 1];
      PlainValuesWereWritten(front, path);
      var before, c := Plain(front, path), Plain(writes, path);
      assert last in writes && forall w :: w in front ==> w in writes;
      forall n | n in c.nodes
        ensures exists w :: w in writes && w.path == path && n in w.update.nodes && w.update.nodes[n] == c.nodes[n]
      {
        if last.path == path && n in last.update.nodes && c.nodes[n] == last.update.nodes[n] {
          assert last in writes;
        } else {
          assert n in before.nodes && c.nodes[n] == before.nodes[n];
          var w :| w in front && w.path == path && n in w.update.nodes && w.update.nodes[n] == before.nodes[n];
          assert w in writes;
        }
      }
      if c.epoch != 0 && !(last.path == path && last.update.epoch == c.epoch) {
        var w :| w in front && w.path == path && w.update.epoch == before.epoch;
        assert w in writes;
      }
    }
  }

  lemma {:induction false} PlainIsLeast(writes: seq<Write>, path: string, v: Cluster)
    requires forall w :: w in writes && w.path == path ==> Le(w.update, v)
    ensures Le(Plain(writes, path), v)
    decreases |writes|
  {
    if writes != [] {
      var front, last := writes[..|writes| - 1], writes[|writes| - 1];
      assert last in writes && forall w :: w in front ==> w in writes;
      PlainIsLeast(front, path, v);
      JoinIsLeastUpperBound(Plain(front, path), last.update);
    }
  }

  /** The history of writes is the history of write rounds. */
  ghost predicate WritesAreRounds(s: State) {
    forall w :: w in s.writes ==> w.nonce in s.rounds && s.rounds[w.nonce].request == Merge(w.path, w.update)
  }

  lemma OnlyStartWriteAddsAWrite(s: State, step: Step, s': State)
    requires Next(s, step, s')
    ensures s'.writes == s.writes
            || (step.StartWrite? && s'.writes == s.writes + [Write(step.path, step.update, s.nextNonce)]
                && s.nextNonce in s'.rounds && s'.rounds[s.nextNonce].request == Merge(step.path, step.update))
  {
    hide Heard, GenesisAlive, AnsweredARunningWrite, Reply, ReadTail, WriteTail, SyncTail, MergeCluster;
    hide Live, Running, SlotOf, SlotsOf, IdsOf, ReadyOnes, View;
  }

  lemma NextKeepsWritesAreRounds(s: State, step: Step, s': State)
    requires Inv(s) && WritesAreRounds(s) && Next(s, step, s')
    ensures WritesAreRounds(s')
  {
    hide Inv, Next, GenesisAlive, OnlyGrow;
    NextKeepsInv(s, step, s');
    OnlyStartWriteAddsAWrite(s, step, s');
  }

  lemma NothingWrittenYet(s: State)
    requires Init(s)
    ensures WritesAreRounds(s)
  {
  }

  lemma {:induction false} RunKeepsWritesAreRounds(states: seq<State>, steps: seq<Step>, k: nat)
    requires IsRun(states, steps) && k < |states|
    ensures WritesAreRounds(states[k])
  {
    hide Inv, Next, Init, WritesAreRounds;
    if k == 0 {
      NothingWrittenYet(states[0]);
    } else {
      RunKeepsWritesAreRounds(states, steps, k - 1);
      RunKeepsInv(states, steps, k - 1);
      NextKeepsWritesAreRounds(states[k - 1], steps[k - 1], states[k]);
    }
  }

  /**
   The cluster is one plain map: when every write of a cluster that was ever started
   was acknowledged before a read began, the read returns exactly what a single
   server would hold after the same writes.
   */
  lemma QuietReadIsThePlainMap(states: seq<State>, steps: seq<Step>, k: nat, v: Cluster)
    requires IsRun(states, steps) && k < |steps| && steps[k].FinishRead?
    requires var s := states[k];
             && steps[k].nonce in s.rounds && s.rounds[steps[k].nonce].request.ReadOne?
             && var r := s.rounds[steps[k].nonce];
             && ReadTail(|s.slots|, InnerOf(s, r.caller), r.request.path, r.view, steps[k].heard).1 == Some(v)
             && forall w :: w in s.writes && w.path == r.request.path ==>
                w.nonce in s.acked && s.acked[w.nonce].at <= steps[k].nonce
    ensures v == Plain(states[k].writes, states[k].rounds[steps[k].nonce].request.path)
  {
    hide Le, Plain, Init, ReadTail, Heard;
    var s, nonce := states[k], steps[k].nonce;
    var path := s.rounds[nonce].request.path;
    RunStep(states, steps, k);
    RunKeepsInv(states, steps, k);
    RunKeepsWritesAreRounds(states, steps, k);
    hide Inv;
    ReadIsBetween(s, nonce, steps[k].heard, v);
    forall w | w in s.writes && w.path == path ensures Le(w.update, v) {
      assert IsWrite(s, w.nonce);
    }
    PlainIsLeast(s.writes, path, v);
    LeIsAntisymmetric(v, Plain(s.writes, path));
  }

  // ---- what a round counts ----

  /**
   Under drop, duplication, reordering and replay, the answers one round counts come
   from pairwise distinct replicas other than the caller's, none was made before the
   round's nonce was drawn, and a counted write answer means that replica holds this
   very update.
   */
  lemma CountedAnswersAreGenuine(states: seq<State>, steps: seq<Step>, j: nat, k: nat, nonce: Nonce, heard: seq<Answer>)
    requires IsRun(states, steps) && j <= k < |states|
    requires nonce in states[k].rounds && Heard(states[k], nonce, heard)
    ensures forall x, y :: 0 <= x < y < |heard| ==> heard[x].from != heard[y].from
    ensures forall a :: a in heard ==> a.from in states[k].replicas && a.from != states[k].rounds[nonce].caller
    ensures states[j].nextNonce <= nonce ==> forall a :: a in heard ==> a !in states[j].answers
    ensures states[k].rounds[nonce].request.Merge? ==>
              forall a :: a in heard ==>
                Le(states[k].rounds[nonce].request.update,
                   View(InnerOf(states[k], a.from).views, states[k].rounds[nonce].request.path))
  {
    hide Le, Init, Next, OnlyGrow, GenesisAlive;
    RunKeepsInv(states, steps, j);
    RunKeepsInv(states, steps, k);
    var s := states[k];
    RoundsAreOld(states[j]);
    hide Replicas, Rounds, Acks, AnswerMeets, RoundMeets, Bringup, OneSync, Shape;
    HeardAreOk(s, nonce, heard);
    forall a | a in heard
      ensures a.from in s.replicas && a.from != s.rounds[nonce].caller
      ensures states[j].nextNonce <= nonce ==> a !in states[j].answers
    {
      var x :| 0 <= x < |heard| && heard[x] == a;
      assert AnswerOk(s, a);
      if a in states[j].answers {
        assert a.nonce in states[j].rounds;
      }
    }
  }

  // ---- formed ----

  /** Somebody, or some message on the wire, says that the cluster has formed. */
  ghost predicate ClaimsFormed(s: State) {
    || (exists id :: id in s.replicas && s.replicas[id].inner.formed)
    || (exists r :: r in s.rounds && (s.rounds[r].formed || s.rounds[r].request.Merge?))
    || (exists a :: a in s.answers && a.formed)
  }

  lemma ClaimsAreTrue(s: State)
    requires Inv(s) && ClaimsFormed(s)
    ensures s.everFormed
  {
    hide Le, Within, Bounded, Shape, Linked, OneSync, Acks, AnswerMeets, RoundMeets, Bringup;
    forall id | id in s.replicas ensures s.replicas[id].inner.formed ==> s.everFormed { assert ReplicaOk(s, id); }
    forall r | r in s.rounds ensures s.rounds[r].formed || s.rounds[r].request.Merge? ==> s.everFormed { UpdateIsBounded(s, r); }
    forall a | a in s.answers ensures a.formed ==> s.everFormed { assert AnswerOk(s, a); }
  }

  /** One read's round heard a ready answer from the slot of every other replica. */
  ghost predicate HeardEveryone(s: State, step: Step) {
    && step.FinishRead?
    && step.nonce in s.rounds && Heard(s, step.nonce, step.heard)
    && forall k :: 0 <= k < |s.slots| ==>
       k == SlotOf(s, s.rounds[step.nonce].caller) || k in SlotsOf(s, ReadyOnes(step.heard))
  }

  /**
   `formed` is sound: if any replica has it, any request or answer carries it, or any
   write is on the wire, then some earlier single round heard ready answers from all
   the other replicas.
   */
  lemma {:induction false} FormedMeansSomeRoundHeardEveryone(states: seq<State>, steps: seq<Step>, k: nat) returns (m: nat)
    requires IsRun(states, steps) && k < |states| && states[k].everFormed
    ensures m < k && HeardEveryone(states[m], steps[m])
  {
    assert k > 0;
    hide Init, Next, HeardEveryone, Inv;
    if states[k - 1].everFormed {
      m := FormedMeansSomeRoundHeardEveryone(states, steps, k - 1);
    } else {
      m := k - 1;
      RunKeepsInv(states, steps, m);
      RunStep(states, steps, m);
      FormingStepHeardEveryone(states[m], steps[m], states[k]);
    }
  }

  lemma FormingStepHeardEveryone(s: State, step: Step, s': State)
    requires Inv(s) && Next(s, step, s') && !s.everFormed && s'.everFormed
    ensures HeardEveryone(s, step)
  {
    hide Linked, OneSync, Rounds, Acks, AnswerMeets, RoundMeets, Bringup, Heard, GenesisAlive, AnsweredARunningWrite;
    hide Reply, ReadTail, WriteTail, SyncTail, MergeCluster, Shape, Replicas, AnswersOk;
    HeardEverySlot(s, step.nonce, step.heard);
  }

  lemma FormedIsSound(states: seq<State>, steps: seq<Step>, k: nat)
    requires IsRun(states, steps) && k < |states| && ClaimsFormed(states[k])
    ensures exists m :: 0 <= m < k && HeardEveryone(states[m], steps[m])
  {
    RunKeepsInv(states, steps, k);
    hide Inv, HeardEveryone;
    ClaimsAreTrue(states[k]);
    var m := FormedMeansSomeRoundHeardEveryone(states, steps, k);
  }

  // ---- genesis ----

  /** Once the cluster has formed, a sync makes its replica ready only from a majority. */
  lemma NoGenesisOnceFormed(s: State, nonce: Nonce, heard: seq<Answer>, s': State)
    requires Inv(s) && FinishSyncStep(s, nonce, heard, s') && s.everFormed
    ensures !GenesisRule(heard)
    ensures s'.replicas[s.rounds[nonce].caller].inner.ready ==> |ReadyOnes(heard)| >= Majority(|s.slots|)
  {
    hide Linked, OneSync, Acks, AnswerMeets, RoundMeets, Heard, JoinMaps, Within, MapLe, Le;
    var c := s.rounds[nonce].caller;
    assert RoundOk(s, nonce);
    hide Rounds;
    if GenesisRule(heard) {
      hide SyncTail;
      GenesisRuleMeansAlive(s, nonce, heard);
      GenesisMeansNotFormed(s, c);
      assert false;
    }
  }

  /** No replica becomes ready by the genesis rule after any write was acknowledged. */
  lemma NoGenesisAfterAnAckedWrite(states: seq<State>, steps: seq<Step>, j: nat, k: nat)
    requires IsRun(states, steps) && j <= k < |steps|
    requires states[j].acked != map[] && steps[k].FinishSync?
    ensures !GenesisRule(steps[k].heard)
    ensures var s := states[k];
            && steps[k].nonce in s.rounds
            && (InnerOf(states[k + 1], s.rounds[steps[k].nonce].caller).ready ==> |ReadyOnes(steps[k].heard)| >= Majority(|s.slots|))
  {
    hide Inv, GenesisRule, GenesisAlive, OnlyGrow, Init, Heard, SyncTail;
    RunProgress(states, steps, j, k);
    RunKeepsInv(states, steps, j);
    RunKeepsInv(states, steps, k);
    RunStep(states, steps, k);
    AckedMeansFormed(states[j]);
    NoGenesisOnceFormed(states[k], steps[k].nonce, steps[k].heard, states[k + 1]);
  }

  lemma AckedMeansFormed(s: State)
    requires Inv(s) && s.acked != map[]
    ensures s.everFormed
  {
    hide Le, Shape, OneSync, Replicas, AnswersOk, AnswerMeets, RoundMeets, Bringup;
    var w :| w in s.acked;
    AckIsOld(s, w);
    UpdateIsBounded(s, w);
  }

  /** Over every run: once genesis is over everywhere, it stays over. */
  lemma GenesisEndsForGood(states: seq<State>, steps: seq<Step>, j: nat, k: nat)
    requires IsRun(states, steps) && j <= k < |states| && !GenesisAlive(states[j])
    ensures !GenesisAlive(states[k])
  {
    hide IsRun, GenesisAlive, OnlyGrow;
    RunProgress(states, steps, j, k);
  }
}
