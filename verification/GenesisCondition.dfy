/**
 `GenesisAlive`, the guard on replacements, is exactly the condition under which genesis
 can still be reported: it holds just when some live replica reports it or one more step
 leads to one that does, and just when some run from here ever reports it again.
 */
module GenesisCondition {
  import opened Outcomes
  import opened CounterViews
  import opened CounterReplica
  import opened CounterProtocol
  import opened CounterInvariant
  import opened CounterSteps
  import opened CounterFinish
  import opened CounterReplace
  import opened BringUp

  ghost predicate Reported(s: State) {
    exists id :: id in s.replicas && Live(s, id) && ReportsGenesis(s.replicas[id].inner)
  }

  /** One sync that may finish now leaves a live replica that reports genesis. */
  ghost predicate CanReport(s: State) {
    exists nonce, heard, s' :: FinishSyncStep(s, nonce, heard, s') && Reported(s')
  }

  /** In flight, an answer comes from another slot than the sync's, which has not learned `formed`. */
  lemma InFlightFacts(s: State, a: Answer)
    requires Inv(s) && a in s.answers && GenesisInFlight(s, a)
    ensures !s.everFormed && |s.slots| >= 2 && Heard(s, a.nonce, [a]) && Running(s, a.nonce)
    ensures a.ready && a.genesis && !a.formed && a.counters == map[]
    ensures s.replicas[s.rounds[a.nonce].caller].inner.formed == false
  {
    hide Linked, OneSync, Acks, AnswerMeets, RoundMeets, Bringup, Le, Within, Bounded;
    var c := s.rounds[a.nonce].caller;
    assert RoundOk(s, a.nonce) && AnswerOk(s, a) && ReplicaOk(s, c) && ReplicaOk(s, a.from);
    InFlightIsAlive(s, a);
    GenesisMeansNotFormed(s, c);
  }

  lemma InFlightIsAlive(s: State, a: Answer)
    requires a in s.answers && GenesisInFlight(s, a)
    ensures GenesisAlive(s)
  {
  }

  lemma OneGenesisAnswer(n: nat, i: Inner, a: Answer)
    requires n >= 2 && a.ready && a.genesis && !a.formed && a.counters == map[]
    ensures SyncTail(n, i, [a], i.(ready := true, genesis := true))
  {
    assert ReadyOnes([a]) == [a];
  }

  /** The sync may finish on the one answer in flight, and its replica then reports genesis. */
  lemma InFlightCanReport(s: State, a: Answer)
    requires Inv(s) && a in s.answers && GenesisInFlight(s, a)
    ensures CanReport(s)
  {
    InFlightFacts(s, a);
    var c := s.rounds[a.nonce].caller;
    var i' := s.replicas[c].inner.(ready := true, genesis := true);
    OneGenesisAnswer(|s.slots|, s.replicas[c].inner, a);
    hide Inv, SyncTail, Heard;
    var s' := Close(PutInner(s, c, i'), a.nonce);
    assert FinishSyncStep(s, a.nonce, [a], s');
    assert Live(s', c) && ReportsGenesis(s'.replicas[c].inner);
  }

  lemma ReportedIsAlive(s: State)
    requires Reported(s)
    ensures GenesisAlive(s)
  {
  }

  lemma OverIsNotReportedNext(s: State, step: Step, s': State)
    requires Inv(s) && !GenesisAlive(s) && Next(s, step, s')
    ensures Inv(s') && !GenesisAlive(s') && !Reported(s')
  {
    hide Inv, Next, GenesisAlive, Reported, OnlyGrow;
    NextKeepsInv(s, step, s');
    if Reported(s') {
      ReportedIsAlive(s');
    }
  }

  lemma FinishSyncIsNext(s: State, nonce: Nonce, heard: seq<Answer>, s': State)
    requires FinishSyncStep(s, nonce, heard, s')
    ensures Next(s, FinishSync(nonce, heard), s')
  {
    hide FinishSyncStep;
  }

  /** The guard is exact: genesis is alive just when it is reported, or one more step reports it. */
  lemma AliveIffReportedOrOneStepAway(s: State)
    requires Inv(s)
    ensures GenesisAlive(s) <==> Reported(s) || CanReport(s)
  {
    hide Inv, FinishSyncStep, Next;
    if Reported(s) {
      ReportedIsAlive(s);
    }
    if nonce, heard, s' :| FinishSyncStep(s, nonce, heard, s') && Reported(s') {
      FinishSyncIsNext(s, nonce, heard, s');
      if !GenesisAlive(s) {
        OverIsNotReportedNext(s, FinishSync(nonce, heard), s');
      }
    }
    if GenesisAlive(s) && !Reported(s) {
      var a :| a in s.answers && GenesisInFlight(s, a);
      InFlightCanReport(s, a);
    }
  }

  lemma {:induction false} OverStaysOver(n: nat, s: State, s': State)
    requires Inv(s) && !GenesisAlive(s) && ReachesIn(n, s, s')
    ensures !Reported(s')
    decreases n
  {
    hide Inv, Next, GenesisAlive, Reported;
    if n == 0 {
      if Reported(s') {
        ReportedIsAlive(s');
      }
    } else {
      var step, m :| Next(s, step, m) && ReachesIn(n - 1, m, s');
      OverIsNotReportedNext(s, step, m);
      OverStaysOver(n - 1, m, s');
    }
  }

  /** Over runs: from here on no run ever reports genesis, if and only if genesis is not alive. */
  lemma NeverReportedAgainIffNotAlive(s: State)
    requires Inv(s)
    ensures (forall n, s' :: ReachesIn(n, s, s') ==> !Reported(s')) <==> !GenesisAlive(s)
  {
    hide Inv, Next, GenesisAlive, Reported, FinishSyncStep;
    if !GenesisAlive(s) {
      forall n, s' | ReachesIn(n, s, s') ensures !Reported(s') {
        OverStaysOver(n, s, s');
      }
    } else {
      var n, s' := SomeRunReports(s);
    }
  }

  lemma SomeRunReports(s: State) returns (n: nat, s': State)
    requires Inv(s) && GenesisAlive(s)
    ensures ReachesIn(n, s, s') && Reported(s')
  {
    hide Inv, Next, GenesisAlive, Reported, FinishSyncStep, ReachesIn;
    AliveIffReportedOrOneStepAway(s);
    ReachesSelf(s);
    if Reported(s) {
      n, s' := 0, s;
    } else {
      var nonce, heard, t :| FinishSyncStep(s, nonce, heard, t) && Reported(t);
      FinishSyncIsNext(s, nonce, heard, t);
      ReachesOn(0, s, s, FinishSync(nonce, heard), t);
      n, s' := 1, t;
    }
  }
}
