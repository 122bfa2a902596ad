/**
 One replica's calls inside the cluster's protocol: how a call begins and ends in
 `CounterCalls` are steps of `CounterProtocol`, and the answers that the de-duplication by
 replica id counts come from different slots, which is what the quorum arguments rest on.
 */
module CounterRefinement {
  import opened Outcomes
  import opened CounterViews
  import opened CounterReplica
  import opened CounterCalls
  import opened CounterProtocol
  import opened CounterInvariant
  import opened CounterTheorems

  // ---- how calls begin ----

  /** The round a call asks for, as its step opens it. */
  function RoundOf(id: Id, begun: Begun): Round
    requires begun.Ask?
  {
    Round(id, begun.request, begun.formed, begun.view, true)
  }

  /** A read begins exactly when its step can, with the round it asks for. */
  lemma BeginReadIsTheStep(s: State, id: Id, path: string, s': State)
    requires Live(s, id) && |s.slots| > 1
    ensures var begun := BeganRead(|s.slots|, s.replicas[id].inner, path);
            && (begun.Ok? ==> begun.value.Ask?)
            && (StartReadStep(s, id, path, s') <==> begun.Ok? && s' == Open(s, RoundOf(id, begun.value)))
  {
  }

  /** A write begins as its step does: refused and raised alike, or raised and sent on. */
  lemma BeginWriteIsTheStep(s: State, id: Id, path: string, update: Cluster, s': State)
    requires Live(s, id) && |s.slots| > 1
    ensures var (i', begun) := BeganWrite(|s.slots|, s.replicas[id].inner, path, update);
            StartWriteStep(s, id, path, update, s')
            <==> (begun == Err(CounterLimit) && s' == PutInner(s, id, i'))
                 || (begun.Ok? && begun.value.Ask?
                     && s' == Open(PutInner(s, id, i').(writes := s.writes + [Write(path, update, s.nextNonce)]), RoundOf(id, begun.value)))
  {
    hide MergeCluster;
  }

  /** A sync begins exactly when its step can, one at a time. */
  lemma BeginSyncIsTheStep(s: State, id: Id, s': State)
    requires Live(s, id) && |s.slots| > 1
    requires forall r :: r in s.rounds && s.rounds[r].caller == id && s.rounds[r].request.ReadAll? ==> !s.rounds[r].open
    ensures var begun := BeganSync(|s.slots|, s.replicas[id].inner);
            && (begun.Some? ==> begun.value.Ask?)
            && (StartSyncStep(s, id, s') <==> begun.Some? && s' == Open(s, RoundOf(id, begun.value)))
  {
  }

  // ---- which answers a round counts ----

  predicate IsAnswer(reply: PeerReply, nonce: Nonce) {
    reply.Verified? && reply.answer.nonce == nonce
  }

  /**
   What the network may hand a round: verified answers were made by replicas (nobody else
   has the key), and one call goes to each other slot.
   */
  ghost predicate OneReplyPerSlot(s: State, nonce: Nonce, peers: seq<nat>, replies: seq<PeerReply>)
    requires nonce in s.rounds
  {
    && |replies| == |peers|
    && (forall j, k :: 0 <= j < k < |peers| ==> peers[j] != peers[k])
    && (forall k :: 0 <= k < |peers| ==> peers[k] != SlotOf(s, s.rounds[nonce].caller))
    && (forall k :: 0 <= k < |replies| && IsAnswer(replies[k], nonce) ==>
          replies[k].answer in s.answers && SlotOf(s, replies[k].answer.from) == peers[k])
  }

  predicate SameSlot(s: State, nonce: Nonce, r: PeerReply, q: PeerReply) {
    IsAnswer(r, nonce) && IsAnswer(q, nonce) && SlotOf(s, r.answer.from) == SlotOf(s, q.answer.from)
  }

  /**
   A weaker promise, with any routing at all, even two addresses that reach one replica:
   no two incarnations of one slot answered the same round.
   */
  ghost predicate OneIncarnationPerSlot(s: State, nonce: Nonce, replies: seq<PeerReply>)
    requires nonce in s.rounds
  {
    && (forall r :: r in replies && IsAnswer(r, nonce) ==> r.answer in s.answers)
    && (forall r :: r in replies && IsAnswer(r, nonce) && SlotOf(s, r.answer.from) == SlotOf(s, s.rounds[nonce].caller) ==>
          r.answer.from == s.rounds[nonce].caller)
    && (forall r, q :: r in replies && q in replies && SameSlot(s, nonce, r, q) ==> r.answer.from == q.answer.from)
  }

  /** The answers the caller of this round counts. */
  ghost function CountedBy(s: State, nonce: Nonce, replies: seq<PeerReply>): seq<Answer>
    requires nonce in s.rounds
  {
    AnswersOf(CountedOf(replies, nonce, {s.rounds[nonce].caller}))
  }

  /**
   Counting one answer per replica id is counting one per slot: what the round collects is
   what the protocol's steps are given, for replies in any order and any number.
   */
  lemma CountedByIdIsCountedBySlot(s: State, nonce: Nonce, replies: seq<PeerReply>)
    requires nonce in s.rounds && OneIncarnationPerSlot(s, nonce, replies)
    ensures Heard(s, nonce, CountedBy(s, nonce, replies))
  {
    hide SlotOf;
    var caller := s.rounds[nonce].caller;
    var counted := CountedOf(replies, nonce, {caller});
    CountedAnswersAreDistinct(replies, nonce, {caller});
    var heard := AnswersOf(counted);
    forall k | 0 <= k < |heard|
      ensures heard[k] in s.answers && heard[k].nonce == nonce && SlotOf(s, heard[k].from) != SlotOf(s, caller)
    {
      assert counted[k] in counted;
      assert IsAnswer(Verified(counted[k].answer, counted[k].genesisSecs), nonce);
    }
    forall j, k | 0 <= j < k < |heard|
      ensures SlotOf(s, heard[j].from) != SlotOf(s, heard[k].from)
    {
      assert counted[j] in counted && counted[k] in counted;
      var (r, q) := (Verified(counted[j].answer, counted[j].genesisSecs), Verified(counted[k].answer, counted[k].genesisSecs));
      assert IsAnswer(r, nonce) && IsAnswer(q, nonce);
    }
  }

  /** With one call to each other slot, what the round counts is what the protocol's steps are given. */
  lemma RoundIsHeard(s: State, nonce: Nonce, peers: seq<nat>, replies: seq<PeerReply>)
    requires nonce in s.rounds && OneReplyPerSlot(s, nonce, peers, replies)
    ensures Heard(s, nonce, CountedBy(s, nonce, replies))
  {
    hide SlotOf;
    forall r, q | r in replies && q in replies && SameSlot(s, nonce, r, q)
      ensures r.answer.from == q.answer.from
    {
      var j :| 0 <= j < |replies| && replies[j] == r;
      var k :| 0 <= k < |replies| && replies[k] == q;
      assert peers[j] == peers[k];
      assert j == k;
    }
    CountedByIdIsCountedBySlot(s, nonce, replies);
  }

  /**
   Over every run, whatever was dropped, repeated, reordered or replayed: the answers a
   round counts come from different replicas in different slots, none of them the caller or
   in its slot; none was made before the round's nonce was drawn; and in a write's round
   each of those replicas holds the update. Every slot that answered is counted.
   */
  lemma RoundCountsGenuineAnswers(
      states: seq<State>, steps: seq<Step>, j: nat, k: nat, nonce: Nonce, peers: seq<nat>, replies: seq<PeerReply>)
    requires IsRun(states, steps) && j <= k < |states|
    requires nonce in states[k].rounds && OneReplyPerSlot(states[k], nonce, peers, replies)
    ensures var s := states[k];
            var caller := s.rounds[nonce].caller;
            var heard := CountedBy(s, nonce, replies);
            && (forall x, y :: 0 <= x < y < |heard| ==>
                  heard[x].from != heard[y].from && SlotOf(s, heard[x].from) != SlotOf(s, heard[y].from))
            && (forall a :: a in heard ==>
                  a.from in s.replicas && a.from != caller && SlotOf(s, a.from) != SlotOf(s, caller)
                  && (states[j].nextNonce <= nonce ==> a !in states[j].answers)
                  && (s.rounds[nonce].request.Merge? ==>
                        Le(s.rounds[nonce].request.update, View(InnerOf(s, a.from).views, s.rounds[nonce].request.path))))
            && (forall x :: 0 <= x < |replies| && IsAnswer(replies[x], nonce) ==>
                  exists a :: a in heard && SlotOf(s, a.from) == peers[x])
  {
    hide Le, IsRun, InnerOf;
    var s := states[k];
    RoundIsHeard(s, nonce, peers, replies);
    CountedAnswersAreGenuine(states, steps, j, k, nonce, CountedBy(s, nonce, replies));
    forall x | 0 <= x < |replies| && IsAnswer(replies[x], nonce)
      ensures exists a :: a in CountedBy(s, nonce, replies) && SlotOf(s, a.from) == peers[x]
    {
      AnswererIsCounted(s, nonce, peers, replies, x);
    }
  }

  lemma AnswererIsCounted(s: State, nonce: Nonce, peers: seq<nat>, replies: seq<PeerReply>, x: nat)
    requires nonce in s.rounds && OneReplyPerSlot(s, nonce, peers, replies)
    requires x < |replies| && IsAnswer(replies[x], nonce)
    ensures exists a :: a in CountedBy(s, nonce, replies) && SlotOf(s, a.from) == peers[x]
  {
    var caller := s.rounds[nonce].caller;
    assert replies[x].answer.from != caller;
    EveryAnswererIsCounted(replies, nonce, {caller}, replies[x]);
    var counted := CountedOf(replies, nonce, {caller});
    var c :| c in counted && c.answer.from == replies[x].answer.from;
    var m :| 0 <= m < |counted| && counted[m] == c;
    assert CountedBy(s, nonce, replies)[m] == c.answer;
  }

  // ---- how calls end ----

  /** A read's end is its step, and answers what the step computes. */
  lemma FinishReadIsTheStep(s: State, nonce: Nonce, peers: seq<nat>, replies: seq<PeerReply>)
    requires Running(s, nonce) && s.rounds[nonce].request.ReadOne? && OneReplyPerSlot(s, nonce, peers, replies)
    ensures var r := s.rounds[nonce];
            var heard := CountedBy(s, nonce, replies);
            exists s' :: FinishReadStep(s, nonce, heard, s')
                         && s'.replicas[r.caller].inner == FinishedRead(|s.slots|, s.replicas[r.caller].inner, r.request.path, r.view, heard).0
  {
    hide ReadTail, OneReplyPerSlot;
    RoundIsHeard(s, nonce, peers, replies);
    hide Heard;
    var r := s.rounds[nonce];
    var heard := CountedBy(s, nonce, replies);
    var i := ReadTail(|s.slots|, s.replicas[r.caller].inner, r.request.path, r.view, heard).0;
    var s' := Close(PutInner(s, r.caller, i), nonce).(everFormed := s.everFormed || |ReadyOnes(heard)| + 1 >= |s.slots|);
    assert FinishReadStep(s, nonce, heard, s');
  }

  /** A write's end is its step, acknowledged there exactly when the call is answered. */
  lemma FinishWriteIsTheStep(s: State, nonce: Nonce, peers: seq<nat>, replies: seq<PeerReply>)
    requires Running(s, nonce) && s.rounds[nonce].request.Merge? && OneReplyPerSlot(s, nonce, peers, replies)
    ensures var r := s.rounds[nonce];
            var heard := CountedBy(s, nonce, replies);
            var (i', v) := FinishedWrite(|s.slots|, s.replicas[r.caller].inner, r.request.path, r.view, heard);
            exists s' :: FinishWriteStep(s, nonce, heard, s')
                         && s'.replicas[r.caller].inner == i' && (v.Ok? ==> nonce in s'.acked) && (v.Err? ==> s'.acked == s.acked)
  {
    hide WriteTail, OneReplyPerSlot;
    RoundIsHeard(s, nonce, peers, replies);
    hide Heard, CountedBy;
    var r := s.rounds[nonce];
    var heard := CountedBy(s, nonce, replies);
    var (i, result) := WriteTail(|s.slots|, s.replicas[r.caller].inner, r.request.path, r.view, heard);
    var closed := Close(PutInner(s, r.caller, i), nonce);
    var s' := if result.None? then closed
              else closed.(acked := s.acked[nonce := Ack({SlotOf(s, r.caller)} + SlotsOf(s, heard), {r.caller} + IdsOf(heard), s.nextNonce)]);
    assert FinishWriteStep(s, nonce, heard, s');
  }

  /** A sync's end is its step, for every state the sync may leave the replica in. */
  lemma FinishSyncIsTheStep(s: State, nonce: Nonce, peers: seq<nat>, replies: seq<PeerReply>, i': Inner)
    requires Running(s, nonce) && s.rounds[nonce].request.ReadAll? && OneReplyPerSlot(s, nonce, peers, replies)
    requires SyncTail(|s.slots|, s.replicas[s.rounds[nonce].caller].inner, CountedBy(s, nonce, replies), i')
    ensures var c := s.rounds[nonce].caller;
            exists s' :: FinishSyncStep(s, nonce, CountedBy(s, nonce, replies), s') && s'.replicas[c].inner == i'
  {
    hide SyncTail, OneReplyPerSlot;
    RoundIsHeard(s, nonce, peers, replies);
    hide Heard, CountedBy;
    var s' := Close(PutInner(s, s.rounds[nonce].caller, i'), nonce);
    assert FinishSyncStep(s, nonce, CountedBy(s, nonce, replies), s');
  }

  /**
   The promise of the service, from the replies on the wire: a read call that began after a
   write was acknowledged, in whatever state its replica then is, answers at least that
   write, and nothing beyond the writes that were started.
   */
  lemma AnsweredReadMeetsEveryAckedWrite(
      states: seq<State>, steps: seq<Step>, j: nat, k: nat, w: Nonce, nonce: Nonce, peers: seq<nat>, replies: seq<PeerReply>, v: Cluster)
    requires IsRun(states, steps) && j <= k < |states| && w in states[j].acked && states[j].nextNonce <= nonce
    requires Running(states[k], nonce) && states[k].rounds[nonce].request.ReadOne? && OneReplyPerSlot(states[k], nonce, peers, replies)
    requires IsWrite(states[j], w) && states[j].rounds[w].request.path == states[k].rounds[nonce].request.path
    requires var r := states[k].rounds[nonce];
             FinishedRead(|states[k].slots|, states[k].replicas[r.caller].inner, r.request.path, r.view, CountedBy(states[k], nonce, replies)).1 == Ok(v)
    ensures Le(states[j].rounds[w].request.update, v) && Le(v, Plain(states[k].writes, states[k].rounds[nonce].request.path))
  {
    hide Le, Plain, Init, ReadTail, Heard, CountedBy, OneReplyPerSlot;
    hide GenesisAlive, OnlyGrow, Shape, OneSync, Replicas, Rounds, AnswersOk, Acks, AnswerMeets, RoundMeets, Bringup;
    RoundIsHeard(states[k], nonce, peers, replies);
    RunProgress(states, steps, j, k);
    RunKeepsInv(states, steps, j);
    RunKeepsInv(states, steps, k);
    AckAtIsPast(states[j], w);
    ReadIsBetween(states[k], nonce, CountedBy(states[k], nonce, replies), v);
  }
}
