/** What holds of every run of the cluster join. */
module ClusterJoinTheorems {
  import opened Outcomes
  import opened Text
  import opened CounterViews
  import opened Framing
  import opened Challenges
  import opened JoinNonces
  import opened ClusterJoin

  ghost predicate IsRun(states: seq<State>, steps: seq<Step>) {
    && |states| == |steps| + 1
    && Init(states[0])
    && forall k :: 0 <= k < |steps| ==> Next(states[k], steps[k], states[k + 1])
  }

  lemma RunStart(states: seq<State>, steps: seq<Step>)
    requires IsRun(states, steps)
    ensures Inv(states[0]) && Spending(states[0])
  {
    hide Next;
  }

  lemma {:induction false} RunKeepsInv(states: seq<State>, steps: seq<Step>, k: nat)
    requires IsRun(states, steps) && k < |states|
    ensures Inv(states[k])
  {
    hide Inv, Next, Init;
    if k == 0 {
      RunStart(states, steps);
    } else {
      RunKeepsInv(states, steps, k - 1);
      NextKeepsInv(states[k - 1], steps[k - 1], states[k]);
    }
  }

  lemma ExtendsIsReflexive(a: State)
    ensures Extends(a, a)
  {
  }

  lemma {:induction false} RunExtends(states: seq<State>, steps: seq<Step>, j: nat, k: nat)
    requires IsRun(states, steps) && j <= k < |states|
    ensures Extends(states[j], states[k])
  {
    hide Extends, Next, Init;
    if j < k {
      RunExtends(states, steps, j, k - 1);
      NextExtends(states[k - 1], steps[k - 1], states[k]);
      ExtendsIsTransitive(states[j], states[k - 1], states[k]);
    } else {
      ExtendsIsReflexive(states[j]);
    }
  }

  /** A replica's root never changes once set. */
  lemma RootNeverChanges(states: seq<State>, steps: seq<Step>, j: nat, k: nat, id: Id)
    requires IsRun(states, steps) && j <= k < |states|
    requires id in states[j].replicas && states[j].replicas[id].root.Some?
    ensures id in states[k].replicas && states[k].replicas[id].root == states[j].replicas[id].root
  {
    RunExtends(states, steps, j, k);
  }

  /**
   Join agreement: over every run and every network, a replica that holds a root holds
   one generated by a bootstrapping replica with exactly its MRTD and RTMR0 to RTMR3.
   */
  lemma JoinAgreement(states: seq<State>, steps: seq<Step>, k: nat, id: Id)
    requires IsRun(states, steps) && k < |states|
    requires id in states[k].replicas && states[k].replicas[id].root.Some?
    ensures RootOf(states[k], states[k].replicas[id].root.value, states[k].replicas[id].own)
  {
    RunKeepsInv(states, steps, k);
    hide Grounded, JoinQuotes, GiveQuotes, Seals, IsRun;
  }

  /** Replicas with the same root run the same image, even if they held it at different times. */
  lemma SameRootSameImage(states: seq<State>, steps: seq<Step>, j: nat, k: nat, id: Id, id': Id)
    requires IsRun(states, steps) && j <= k < |states|
    requires id in states[j].replicas && id' in states[k].replicas
    requires states[j].replicas[id].root.Some? && states[j].replicas[id].root == states[k].replicas[id'].root
    ensures states[j].replicas[id].own == states[k].replicas[id'].own
  {
    JoinAgreement(states, steps, j, id);
    JoinAgreement(states, steps, k, id');
    RunExtends(states, steps, j, k);
    hide IsRun;
    RootOfStays(states[j], states[k], states[j].replicas[id].root.value, states[j].replicas[id].own);
  }

  /** Where one replica of an image bootstrapped, all of that image's replicas hold the one root. */
  lemma OneBootstrapOneCluster(states: seq<State>, steps: seq<Step>, k: nat, id: Id, id': Id)
    requires IsRun(states, steps) && k < |states|
    requires var s := states[k];
             && id in s.replicas && id' in s.replicas && s.replicas[id].root.Some? && s.replicas[id'].root.Some?
             && s.replicas[id].own == s.replicas[id'].own
             && forall r, r' :: RootOf(s, r, s.replicas[id].own) && RootOf(s, r', s.replicas[id].own) ==> r == r'
    ensures states[k].replicas[id].root == states[k].replicas[id'].root
  {
    JoinAgreement(states, steps, k, id);
    JoinAgreement(states, steps, k, id');
  }

  /**
   No cluster's root is exposed: every sealed copy of it is between two replicas' one-time
   keys, and the one that opens it belongs to a replica with the measurements of the
   replica that generated the root.
   */
  lemma RootsStayAmongEquals(states: seq<State>, steps: seq<Step>, k: nat, root: Root)
    requires IsRun(states, steps) && k < |states| && root in states[k].generated
    ensures !Exposed(states[k], root)
    ensures forall ct :: ct in states[k].seals && states[k].seals[ct].root == root ==>
              var p := states[k].seals[ct].joinerPublic;
              && p in states[k].keys && states[k].keys[p] in states[k].replicas
              && RootOf(states[k], root, states[k].replicas[states[k].keys[p]].own)
  {
    RunKeepsInv(states, steps, k);
    hide Grounded, Agreed, JoinQuotes, GiveQuotes, IsRun, Exposed;
    NotExposed(states[k], root);
    forall ct | ct in states[k].seals && states[k].seals[ct].root == root ensures SealOk(states[k], states[k].seals[ct]) {}
  }

  /** What `/attest` signs for anyone who asks never passes as a joiner's or a giver's quote. */
  lemma AttestQuoteIsNoPeerQuote(
      r: Replica, q: Quote, asked: Bytes, m: Message, own: Measurements, allowed: seq<string>, nonce: Bytes, peer: Message)
    requires WellFormed(m) && (m.PlainAttest? || m.Transport? || m.TransportV2?) && OwnQuote(r, q, asked, Frame(m))
    requires WellFormed(peer) && (peer.Join? || peer.Give?)
    ensures CheckPeer(own, allowed, true, q, nonce, Frame(peer)) == Some(NotVerified)
  {
    hide Frame, WellFormed, Lowered, IsDebugTd;
    if Frame(m) == Frame(peer) {
      FrameIsInjective(m, peer);
    }
  }

  // ---- one join nonce gives the root at most once while it is unexpired ----

  ghost predicate GaveIsHeld(s: State, g: Gave) {
    && g.giver in s.replicas && |g.nonce| == 32 && IsBytes(g.nonce) && g.expiresAt == NonceExpiry(g.nonce)
    && g.openedAt <= g.expiresAt
    && var r := s.replicas[g.giver];
    && g.spentAt <= r.clock
    && (r.clock <= g.expiresAt ==> g.nonce in r.spent && r.spent[g.nonce] == g.expiresAt)
  }

  ghost predicate Spending(s: State) {
    && (forall k :: 0 <= k < |s.gave| ==> GaveIsHeld(s, s.gave[k]))
    && (forall j, k :: 0 <= j < k < |s.gave| && s.gave[j].giver == s.gave[k].giver && s.gave[j].nonce == s.gave[k].nonce ==>
          s.gave[j].expiresAt < s.gave[k].spentAt)
  }

  /** A held nonce stays held through any spend while unexpired. */
  lemma HeldThroughASpend(spent: SpentMap, nonce: Bytes, e: U64, other: Bytes, e': U64, now: U64)
    requires now <= e && nonce in spent && spent[nonce] == e && (nonce == other ==> e == e')
    ensures var after := SpendNonce(spent, other, e', now).0; nonce in after && after[nonce] == e
    ensures nonce == other ==> SpendNonce(spent, other, e', now).1.Err?
  {
  }

  lemma SpentReplicaHolds(s: State, step: Step, g: Gave)
    requires step.GiveRoot? && JoinAccepted(s, step) && GaveIsHeld(s, g)
    ensures var s' := PutReplica(s, step.id, SpentReplica(s, step)); GaveIsHeld(s', g)
    ensures g.giver == step.id && g.nonce == step.nonce && CanGive(s, step) ==> g.expiresAt < step.later
  {
    hide CheckPeer, OpenNonce, NonceExpiry, Frame, IsBytes, SpendNonce;
    if g.giver == step.id && step.later <= g.expiresAt {
      HeldThroughASpend(s.replicas[g.giver].spent, g.nonce, g.expiresAt, step.nonce, NonceExpiry(step.nonce), step.later);
    }
  }

  lemma NewlyGivenIsHeld(s: State, step: Step, g: Gave)
    requires step.GiveRoot? && JoinAccepted(s, step)
    requires g == Gave(step.id, step.nonce, step.joinerPublic, NonceExpiry(step.nonce), step.now, step.later)
    ensures GaveIsHeld(PutReplica(s, step.id, SpentReplica(s, step)), g)
  {
    hide CheckPeer, NonceExpiry, Frame, IsBytes, Prune;
  }

  /** Holding depends on the giver alone. */
  lemma SameHeld(s: State, s': State, g: Gave)
    requires GaveIsHeld(s, g) && g.giver in s'.replicas
    requires s'.replicas[g.giver].spent == s.replicas[g.giver].spent && s'.replicas[g.giver].clock == s.replicas[g.giver].clock
    ensures GaveIsHeld(s', g)
  {
  }

  lemma GiveKeepsSpending(s: State, step: Step, s': State)
    requires Spending(s) && step.GiveRoot? && GiveRootStep(s, step, s')
    ensures Spending(s')
  {
    hide CheckPeer, OpenNonce, NonceExpiry, Frame, IsBytes, SpendNonce, GaveIsHeld, CanGive, OwnQuote;
    var mid := PutReplica(s, step.id, SpentReplica(s, step));
    forall k | 0 <= k < |s.gave|
      ensures GaveIsHeld(s', s.gave[k])
      ensures s.gave[k].giver == step.id && s.gave[k].nonce == step.nonce && CanGive(s, step) ==> s.gave[k].expiresAt < step.later
    {
      SpentReplicaHolds(s, step, s.gave[k]);
      HeldGiver(mid, s.gave[k]);
      SameHeld(mid, s', s.gave[k]);
    }
    if CanGive(s, step) {
      var g := Gave(step.id, step.nonce, step.joinerPublic, NonceExpiry(step.nonce), step.now, step.later);
      NewlyGivenIsHeld(s, step, g);
      SameHeld(mid, s', g);
    }
  }

  lemma HeldGiver(s: State, g: Gave)
    requires GaveIsHeld(s, g)
    ensures g.giver in s.replicas
  {
  }

  /** Every other step leaves what replicas have spent, and their clocks, alone. */
  lemma OthersSpendNothing(s: State, step: Step, s': State, id: Id)
    requires Next(s, step, s') && !step.GiveRoot? && id in s.replicas
    ensures id in s'.replicas && s'.replicas[id].spent == s.replicas[id].spent && s'.replicas[id].clock == s.replicas[id].clock
    ensures s'.gave == s.gave
  {
    hide CheckPeer, Frame, Trusted, OwnQuote, Exposed, Lowered, ProductionAttributes, Trim, WellFormed;
  }

  lemma OthersKeepGave(s: State, step: Step, s': State)
    requires Next(s, step, s') && !step.GiveRoot?
    ensures s'.gave == s.gave
  {
    hide CheckPeer, Frame, Trusted, OwnQuote, Exposed, Lowered, ProductionAttributes, Trim, WellFormed;
  }

  lemma IsGiveStep(s: State, step: Step, s': State)
    requires Next(s, step, s') && step.GiveRoot?
    ensures GiveRootStep(s, step, s')
  {
    hide GiveRootStep;
  }

  lemma SameGaveKeepsSpending(s: State, s': State)
    requires Spending(s) && s'.gave == s.gave && forall k :: 0 <= k < |s.gave| ==> GaveIsHeld(s', s.gave[k])
    ensures Spending(s')
  {
    hide GaveIsHeld;
  }

  lemma GaveIsHeldIn(s: State, k: nat)
    requires Spending(s) && k < |s.gave|
    ensures GaveIsHeld(s, s.gave[k])
  {
    hide GaveIsHeld;
  }

  lemma NextKeepsSpending(s: State, step: Step, s': State)
    requires Spending(s) && Next(s, step, s')
    ensures Spending(s')
  {
    hide Next, Spending, GaveIsHeld, GiveRootStep;
    if step.GiveRoot? {
      IsGiveStep(s, step, s');
      GiveKeepsSpending(s, step, s');
    } else {
      OthersKeepGave(s, step, s');
      forall k | 0 <= k < |s.gave| ensures GaveIsHeld(s', s.gave[k]) {
        GaveIsHeldIn(s, k);
        HeldGiver(s, s.gave[k]);
        OthersSpendNothing(s, step, s', s.gave[k].giver);
        SameHeld(s, s', s.gave[k]);
      }
      SameGaveKeepsSpending(s, s');
    }
  }

  lemma {:induction false} RunKeepsSpending(states: seq<State>, steps: seq<Step>, k: nat)
    requires IsRun(states, steps) && k < |states|
    ensures Spending(states[k])
  {
    hide Spending, Next, Init;
    if k == 0 {
      RunStart(states, steps);
    } else {
      RunKeepsSpending(states, steps, k - 1);
      NextKeepsSpending(states[k - 1], steps[k - 1], states[k]);
    }
  }

  /**
   One nonce gives the root twice only if the second join was opened by the nonce's
   expiry and spent after it.
   */
  lemma OneRootPerNonce(states: seq<State>, steps: seq<Step>, k: nat, i: nat, j: nat)
    requires IsRun(states, steps) && k < |states| && i < j < |states[k].gave|
    requires states[k].gave[i].giver == states[k].gave[j].giver && states[k].gave[i].nonce == states[k].gave[j].nonce
    ensures states[k].gave[j].openedAt <= states[k].gave[i].expiresAt < states[k].gave[j].spentAt
  {
    RunKeepsSpending(states, steps, k);
    hide IsRun;
    assert GaveIsHeld(states[k], states[k].gave[i]) && GaveIsHeld(states[k], states[k].gave[j]);
  }

  /** What a replica notes of a spent nonce is the expiry in it. */
  ghost predicate NotesExpiries(s: State) {
    forall id, n :: id in s.replicas && n in s.replicas[id].spent ==>
      |n| == 32 && IsBytes(n) && s.replicas[id].spent[n] == NonceExpiry(n)
  }

  lemma GivenReplicas(s: State, step: Step, s': State)
    requires step.GiveRoot? && GiveRootStep(s, step, s')
    ensures s'.replicas == s.replicas[step.id := SpentReplica(s, step)] && s'.lowOrder == s.lowOrder && s.quotes <= s'.quotes
  {
    hide CheckPeer, OpenNonce, NonceExpiry, Frame, IsBytes, OwnQuote, SpendNonce;
  }

  lemma GiveKeepsNotes(s: State, step: Step, s': State)
    requires NotesExpiries(s) && step.GiveRoot? && JoinAccepted(s, step)
    requires s'.replicas == s.replicas[step.id := SpentReplica(s, step)]
    ensures NotesExpiries(s')
  {
    hide CheckPeer, OpenNonce, NonceExpiry, Frame, IsBytes;
  }

  lemma NextKeepsNotes(s: State, step: Step, s': State)
    requires NotesExpiries(s) && Next(s, step, s')
    ensures NotesExpiries(s')
  {
    hide Next, IsBytes, NonceExpiry, GiveRootStep, JoinAccepted;
    if step.GiveRoot? {
      hide NotesExpiries;
      IsGiveStep(s, step, s');
      GivenReplicas(s, step, s');
      GiveIsAccepted(s, step, s');
      GiveKeepsNotes(s, step, s');
    } else {
      forall id | id in s'.replicas
        ensures s'.replicas[id].spent == if id in s.replicas then s.replicas[id].spent else map[]
      {
        if id in s.replicas {
          OthersSpendNothing(s, step, s', id);
        } else {
          NewReplicasSpentNothing(s, step, s', id);
        }
      }
    }
  }

  lemma GiveIsAccepted(s: State, step: Step, s': State)
    requires step.GiveRoot? && GiveRootStep(s, step, s')
    ensures JoinAccepted(s, step)
  {
    hide JoinAccepted;
  }

  lemma NewReplicasSpentNothing(s: State, step: Step, s': State, id: Id)
    requires Next(s, step, s') && id !in s.replicas && id in s'.replicas
    ensures s'.replicas[id].spent == map[]
  {
    hide CheckPeer, Frame, Trusted, OwnQuote, Exposed, Lowered, ProductionAttributes, Trim, WellFormed, OpenNonce, SpendNonce, NonceExpiry, IsBytes;
  }

  lemma {:induction false} RunKeepsNotes(states: seq<State>, steps: seq<Step>, k: nat)
    requires IsRun(states, steps) && k < |states|
    ensures NotesExpiries(states[k])
  {
    hide Next;
    if k > 0 {
      hide NotesExpiries, Init;
      RunKeepsNotes(states, steps, k - 1);
      NextKeepsNotes(states[k - 1], steps[k - 1], states[k]);
    }
  }

  /**
   The exact condition, over every run: a join that is accepted with a nonce that gave the
   root before gives it again if and only if the nonce is spent after its expiry (and the
   replica holds a root and the joiner's key is usable, as for any join).
   */
  lemma GivesAgainIffExpired(states: seq<State>, steps: seq<Step>, k: nat, i: nat)
    requires IsRun(states, steps) && k < |steps| && steps[k].GiveRoot? && JoinAccepted(states[k], steps[k])
    requires i < |states[k].gave| && states[k].gave[i].giver == steps[k].id && states[k].gave[i].nonce == steps[k].nonce
    ensures CanGive(states[k], steps[k]) <==>
              && steps[k].later > states[k].gave[i].expiresAt
              && states[k].replicas[steps[k].id].root.Some? && steps[k].joinerPublic !in states[k].lowOrder
  {
    RunKeepsSpending(states, steps, k);
    RunKeepsNotes(states, steps, k);
    hide IsRun, CheckPeer, OpenNonce, NonceExpiry, Frame, IsBytes;
    assert GaveIsHeld(states[k], states[k].gave[i]);
  }

  /**
   And it happens: a join that gave the root gives it again if it is repeated, opened when
   its nonce expires and spent a second later.
   */
  lemma AnyNonceCanGiveTwice(s: State, first: Step, s': State, again: Step)
    requires first.GiveRoot? && GiveRootStep(s, first, s') && CanGive(s, first)
    requires NonceExpiry(first.nonce) < U64_MAX && first.later <= NonceExpiry(first.nonce) + 1
    requires again.GiveRoot? && again.id == first.id && again.nonce == first.nonce
             && again.joinerPublic == first.joinerPublic && again.joinQuote == first.joinQuote
    requires again.now == NonceExpiry(first.nonce) && again.later == NonceExpiry(first.nonce) + 1
    ensures JoinAccepted(s', again) && CanGive(s', again)
  {
    hide CheckPeer, OpenNonce, NonceExpiry, Frame, IsBytes, OwnQuote, GiveRootStep, SpendNonce;
    GiveIsAccepted(s, first, s');
    GivenReplicas(s, first, s');
    var r := s.replicas[first.id];
    OpensAtItsExpiry(r.mac, first.nonce, first.now);
    PassedIsGenuine(r.own, r.allowedTcb, first.joinQuote in s.quotes, first.joinQuote, first.nonce, Frame(Join(first.joinerPublic)));
    SpentAgainAfterIt(r.spent, first.nonce, NonceExpiry(first.nonce), first.later, again.later);
  }

  lemma OpensAtItsExpiry(mac: Mac, nonce: Bytes, now: U64)
    requires |nonce| == NONCE_BYTES && IsBytes(nonce)
    ensures OpenNonce(mac, nonce, now).Ok? ==> OpenNonce(mac, nonce, NonceExpiry(nonce)).Ok?
  {
    hide NonceExpiry, IsBytes;
  }

  lemma PassedIsGenuine(own: Measurements, allowed: seq<string>, genuine: bool, q: Quote, nonce: Bytes, binding: Bytes)
    ensures CheckPeer(own, allowed, genuine, q, nonce, binding).None? ==> genuine
  {
  }

  lemma SpentAgainAfterIt(spent: SpentMap, nonce: Bytes, e: U64, now: U64, later: U64)
    requires e < later
    ensures SpendNonce(SpendNonce(spent, nonce, e, now).0, nonce, e, later).1.Ok?
  {
  }

  // ---- an honest join goes through ----

  lemma StartedAttemptStays(s: State, start: Step, s1: State, give: Step, s2: State)
    requires start.StartJoin? && StartJoinStep(s, start, s1)
    requires give.GiveRoot? && GiveRootStep(s1, give, s2)
    ensures start.joinerPublic in s2.attempts && s2.attempts[start.joinerPublic] == JoinAttempt(start.id, start.nonce)
    ensures start.id in s2.replicas && |start.joinerPublic| == 32
  {
    hide CheckPeer, Frame, OwnQuote, OpenNonce, SpendNonce, IsBytes;
  }

  lemma WhatWasGiven(s1: State, give: Step, s2: State)
    requires give.GiveRoot? && GiveRootStep(s1, give, s2) && CanGive(s1, give)
    ensures |give.giverPublic| == 32 && |give.sealNonce| == 12 && give.quote in s2.quotes && give.sealedRoot in s2.seals
    ensures s2.seals[give.sealedRoot]
            == Sealed(s1.replicas[give.id].root.value, give.giverPublic, give.joinerPublic, give.nonce, give.sealNonce)
    ensures OwnQuote(s1.replicas[give.id], give.quote, give.nonce,
                     Frame(Give(give.joinerPublic, give.giverPublic, give.sealNonce, give.sealedRoot)))
  {
    hide CheckPeer, Frame, OwnQuote, OpenNonce, SpendNonce, IsBytes;
  }

  lemma AnEqualPasses(giver: Replica, q: Quote, nonce: Bytes, binding: Bytes, allowed: seq<string>)
    requires OwnQuote(giver, q, nonce, binding) && ProductionAttributes(Trim(giver.attributes)) && q.tcb.Some?
    requires exists k :: 0 <= k < |allowed| && SameIgnoringCase(allowed[k], q.tcb.value)
    ensures CheckPeer(giver.own, allowed, true, q, nonce, binding).None?
  {
    DebugUnlessProduction(q.attributes);
    hide IsDebugTd, ProductionAttributes, Trim, SameIgnoringCase, Lowered;
  }

  /**
   The other half: when a joiner starts, an equal gives, and each one's TCB status is in
   the other's policy, the response completes the join and hands over the giver's root.
   */
  lemma AnHonestJoinSucceeds(s: State, start: Step, s1: State, give: Step, s2: State)
    requires start.StartJoin? && StartJoinStep(s, start, s1)
    requires give.GiveRoot? && GiveRootStep(s1, give, s2) && CanGive(s1, give)
    requires give.joinerPublic == start.joinerPublic && give.nonce == start.nonce
    requires start.id in s2.replicas && s2.replicas[start.id].own == s1.replicas[give.id].own && s2.replicas[start.id].root.None?
    requires ProductionAttributes(Trim(s1.replicas[give.id].attributes)) && give.quote.tcb.Some?
    requires exists k :: 0 <= k < |s2.replicas[start.id].allowedTcb| && SameIgnoringCase(s2.replicas[start.id].allowedTcb[k], give.quote.tcb.value)
    ensures var finish := FinishJoin(start.id, start.joinerPublic, give.giverPublic, give.sealNonce, give.sealedRoot, give.quote);
            FinishJoinStep(s2, finish, PutReplica(s2, start.id, s2.replicas[start.id].(root := s1.replicas[give.id].root)))
  {
    StartedAttemptStays(s, start, s1, give, s2);
    WhatWasGiven(s1, give, s2);
    hide StartJoinStep, GiveRootStep, CanGive, CheckPeer, OwnQuote, Frame, ProductionAttributes, Trim, SameIgnoringCase;
    AnEqualPasses(s1.replicas[give.id], give.quote, give.nonce,
                  Frame(Give(give.joinerPublic, give.giverPublic, give.sealNonce, give.sealedRoot)),
                  s2.replicas[start.id].allowedTcb);
  }
}
