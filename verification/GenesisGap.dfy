/**
 Why a replacement waits for genesis answers still on their way, and not only for
 live reports. With the weaker guard (no live replica reports genesis) a run of three
 replicas loses an acknowledged write: a sync that was answered before genesis ended
 finishes after it, reports genesis afresh, and lets a replacement become ready empty.
 `GenesisEndsForGood` and `AckedWriteIsHeld` show that the guard of
 `CounterProtocol.ReplaceStep` is enough.
 */
module GenesisGap {
  import opened Outcomes
  import opened CounterViews
  import opened CounterReplica
  import opened CounterProtocol

  /** The weaker guard: only live reports count. */
  ghost predicate LooseReplaceStep(s: State, k: nat, s': State) {
    && k < |s.slots|
    && !AnsweredARunningWrite(s, s.slots[k])
    && (forall id :: id in s.replicas && Live(s, id) ==> !ReportsGenesis(s.replicas[id].inner))
    && s' == s.(slots := s.slots[k := s.nextId],
                replicas := s.replicas[s.nextId := Replica(k, FRESH)],
                nextId := s.nextId + 1,
                replaced := true)
  }

  ghost predicate LooseNext(s: State, step: Step, s': State) {
    if step.Replace? then LooseReplaceStep(s, step.slot, s') else Next(s, step, s')
  }

  ghost predicate LooselyReaches(n: nat, s: State, s': State)
    decreases n
  {
    if n == 0 then s == s'
    else exists step, m :: LooselyReaches(n - 1, s, m) && LooseNext(m, step, s')
  }

  /** A ready replica in a slot that took an acknowledged write does not hold it. */
  ghost predicate LostWrite(s: State, w: Nonce, k: nat) {
    && w in s.acked && w in s.rounds && s.rounds[w].request.Merge?
    && k in s.acked[w].slots && k < |s.slots|
    && var i := InnerOf(s, s.slots[k]);
    && i.ready && !Le(s.rounds[w].request.update, View(i.views, s.rounds[w].request.path))
  }

  const PATH: string := "p"
  const UPDATE: Cluster := Cluster(0, map[7 := Entry(0, 1)])

  function Hears(nonce: Nonce, from: Id, genesis: bool): Answer {
    Answer(nonce, from, true, false, genesis, map[])
  }

  function Syncing(caller: Id, open: bool): Round {
    Round(caller, ReadAll, false, EMPTY, open)
  }

  const READY: Inner := Inner(map[], true, false, false)
  const GENESIS: Inner := Inner(map[], true, false, true)

  function Start(): State {
    State([0, 1, 2], map[0 := Replica(0, GENESIS), 1 := Replica(1, FRESH), 2 := Replica(2, FRESH)],
          map[], {}, 3, 0, [], map[], false, false, false)
  }

  /** Replica 1 joined in genesis; replica 2 asked replica 0 and has not finished; genesis ran out. */
  function InFlight(): State {
    State([0, 1, 2], map[0 := Replica(0, READY), 1 := Replica(1, READY), 2 := Replica(2, FRESH)],
          map[0 := Syncing(1, false), 1 := Syncing(2, true)],
          {Hears(0, 0, true), Hears(1, 0, true)}, 3, 2, [], map[], false, false, true)
  }

  /** While replica 0 reads, replica 1 is replaced, and replica 2 finishes its sync and answers. */
  function Revived(): State {
    State([0, 3, 2],
          map[0 := Replica(0, READY), 1 := Replica(1, READY), 2 := Replica(2, GENESIS), 3 := Replica(1, FRESH)],
          map[0 := Syncing(1, false), 1 := Syncing(2, false), 2 := Round(0, ReadOne(PATH), false, EMPTY, true), 3 := Syncing(3, true)],
          {Hears(0, 0, true), Hears(1, 0, true), Hears(2, 1, false), Hears(2, 2, true), Hears(3, 2, true)},
          4, 4, [], map[], false, true, true)
  }

  const TOOK: Answer := Answer(4, 2, true, true, false, map[PATH := UPDATE])
  const HOLDS: Inner := Inner(map[PATH := UPDATE], true, true, false)

  lemma OneMoreStep(n: nat, s: State, m: State, step: Step, s': State)
    requires LooselyReaches(n, s, m) && LooseNext(m, step, s')
    ensures LooselyReaches(n + 1, s, s')
  {
    hide LooseNext;
  }

  lemma ZeroSteps(s: State)
    ensures LooselyReaches(0, s, s)
  {
  }

  /** An unready replica's sync that hears one empty genesis replica makes it ready in genesis. */
  lemma GenesisSync(s: State, nonce: Nonce, caller: Id, from: Id)
    requires |s.slots| == 3 && nonce in s.rounds && s.rounds[nonce] == Syncing(caller, true)
    requires Live(s, caller) && s.replicas[caller].inner == FRESH
    requires Hears(nonce, from, true) in s.answers && SlotOf(s, from) != SlotOf(s, caller)
    ensures LooseNext(s, FinishSync(nonce, [Hears(nonce, from, true)]), Close(PutInner(s, caller, GENESIS), nonce))
  {
    hide SyncTail, ReadyOnes;
    OneGenesisAnswer(nonce, from);
  }

  /** One empty genesis answer makes an empty replica ready in genesis. */
  lemma OneGenesisAnswer(nonce: Nonce, from: Id)
    ensures SyncTail(3, FRESH, [Hears(nonce, from, true)], GENESIS)
  {
    var heard := [Hears(nonce, from, true)];
    assert ReadyOnes(heard) == heard;
  }

  /** A ready replica that holds nothing, or a fresh one, answers a sync with what it is. */
  lemma AnswersASync(s: State, id: Id, nonce: Nonce, caller: Id, a: Answer)
    requires Live(s, id) && nonce in s.rounds && s.rounds[nonce].request.ReadAll? && !s.rounds[nonce].formed
    requires s.replicas[id].inner.views == map[] && a == AnswerBody(s.replicas[id].inner, id, nonce, map[])
    ensures LooseNext(s, Answers(id, nonce), s.(answers := s.answers + {a}))
  {
    assert s.replicas[id := s.replicas[id]] == s.replicas;
  }

  /** Replica 1 joined in genesis. */
  function Joined(): State {
    State([0, 1, 2], map[0 := Replica(0, GENESIS), 1 := Replica(1, GENESIS), 2 := Replica(2, FRESH)],
          map[0 := Syncing(1, false)], {Hears(0, 0, true)}, 3, 1, [], map[], false, false, false)
  }

  lemma ToJoined()
    ensures LooselyReaches(3, Start(), Joined())
  {
    hide LooselyReaches, SyncTail, Reply;
    var s0 := Start();
    var s1 := Open(s0, Syncing(1, true));
    var s2 := s1.(answers := s1.answers + {Hears(0, 0, true)});
    ZeroSteps(s0);
    OneMoreStep(0, s0, s0, StartSync(1), s1);
    AnswersASync(s1, 0, 0, 1, Hears(0, 0, true));
    OneMoreStep(1, s0, s1, Answers(0, 0), s2);
    GenesisSync(s2, 0, 1, 0);
    hide LooseNext;
    OneMoreStep(2, s0, s2, FinishSync(0, [Hears(0, 0, true)]), Joined());
  }

  lemma ToInFlight()
    ensures LooselyReaches(7, Start(), InFlight())
  {
    hide LooselyReaches, Start, SyncTail, Reply;
    ToJoined();
    var s0, s3 := Start(), Joined();
    var s4 := Open(s3, Syncing(2, true));
    var s5 := s4.(answers := s4.answers + {Hears(1, 0, true)});
    var s6 := PutInner(s5, 0, READY).(expired := true);
    OneMoreStep(3, s0, s3, StartSync(2), s4);
    AnswersASync(s4, 0, 1, 2, Hears(1, 0, true));
    OneMoreStep(4, s0, s4, Answers(0, 1), s5);
    OneMoreStep(5, s0, s5, Expire(0), s6);
    OneMoreStep(6, s0, s6, Expire(1), InFlight());
  }

  /** As replica 0 reads, replica 1 answers and is replaced. */
  function Replaced(): State {
    State([0, 3, 2],
          map[0 := Replica(0, READY), 1 := Replica(1, READY), 2 := Replica(2, FRESH), 3 := Replica(1, FRESH)],
          map[0 := Syncing(1, false), 1 := Syncing(2, true), 2 := Round(0, ReadOne(PATH), false, EMPTY, true)],
          {Hears(0, 0, true), Hears(1, 0, true), Hears(2, 1, false)},
          4, 3, [], map[], false, true, true)
  }

  lemma ToReplaced()
    ensures LooselyReaches(10, Start(), Replaced())
  {
    hide LooselyReaches, Start;
    ToInFlight();
    var s0, s7 := Start(), InFlight();
    var s8 := Open(s7, Round(0, ReadOne(PATH), false, EMPTY, true));
    var s9 := s8.(answers := s8.answers + {Hears(2, 1, false)});
    OneMoreStep(7, s0, s7, StartRead(0, PATH), s8);
    assert s8.replicas == s8.replicas[1 := s8.replicas[1]];
    OneMoreStep(8, s0, s8, Answers(1, 2), s9);
    assert s9.slots[1 := 3] == [0, 3, 2];
    OneMoreStep(9, s0, s9, Replace(1), Replaced());
  }

  /** Replica 2's sync finishes on the answer made before genesis ran out. */
  function Late(): State {
    Close(PutInner(Replaced(), 2, GENESIS), 1)
  }

  lemma ToLate()
    ensures LooselyReaches(11, Start(), Late())
  {
    hide LooselyReaches, Start, LooseNext;
    ToReplaced();
    GenesisSync(Replaced(), 1, 2, 0);
    OneMoreStep(10, Start(), Replaced(), FinishSync(1, [Hears(1, 0, true)]), Late());
  }

  lemma ReadAnswer(s: State)
    requires Live(s, 2) && s.replicas[2].inner == GENESIS && 2 in s.rounds && s.rounds[2] == Round(0, ReadOne(PATH), false, EMPTY, true)
    ensures LooseNext(s, Answers(2, 2), s.(answers := s.answers + {Hears(2, 2, true)}))
  {
    assert s.replicas[2 := s.replicas[2]] == s.replicas;
  }

  lemma ToRevived()
    ensures LooselyReaches(14, Start(), Revived())
  {
    hide LooselyReaches, Start, SyncTail, Reply;
    ToLate();
    var s0, s11 := Start(), Late();
    var s12 := s11.(answers := s11.answers + {Hears(2, 2, true)});
    var s13 := Open(s12, Syncing(3, true));
    ReadAnswer(s11);
    OneMoreStep(11, s0, s11, Answers(2, 2), s12);
    OneMoreStep(12, s0, s12, StartSync(3), s13);
    AnswersASync(s13, 2, 3, 3, Hears(3, 2, true));
    hide LooseNext;
    OneMoreStep(13, s0, s13, Answers(2, 3), Revived());
  }

  lemma Joins()
    ensures Join(EMPTY, EMPTY) == EMPTY && Join(EMPTY, UPDATE) == UPDATE && Join(UPDATE, UPDATE) == UPDATE
    ensures Fits(EMPTY, EMPTY) && Fits(EMPTY, UPDATE) && Fits(UPDATE, UPDATE)
  {
    assert EMPTY.nodes.Keys + UPDATE.nodes.Keys == {7} == UPDATE.nodes.Keys + UPDATE.nodes.Keys;
    assert Join(EMPTY, EMPTY).nodes == map[];
    assert Join(EMPTY, UPDATE).nodes == UPDATE.nodes;
    assert Join(UPDATE, UPDATE).nodes == UPDATE.nodes;
  }

  lemma ReadForms()
    ensures ReadTail(3, READY, PATH, EMPTY, [Hears(2, 1, false), Hears(2, 2, true)])
            == (Inner(map[PATH := EMPTY], true, true, false), Some(EMPTY))
    ensures |ReadyOnes([Hears(2, 1, false), Hears(2, 2, true)])| == 2
  {
    var heard := [Hears(2, 1, false), Hears(2, 2, true)];
    Joins();
    assert heard[1..] == [Hears(2, 2, true)];
    assert ReadyOnes([Hears(2, 2, true)]) == [Hears(2, 2, true)];
    assert ReadyOnes(heard) == heard;
    assert Collect([Hears(2, 2, true)], PATH) == [];
    assert Collect(heard, PATH) == [];
  }

  lemma WriteIsTaken()
    ensures MergeCluster(map[PATH := EMPTY], PATH, UPDATE) == (map[PATH := UPDATE], Some(UPDATE))
    ensures Reply(GENESIS, 2, 4, Merge(PATH, UPDATE), true) == (HOLDS, Some(TOOK))
    ensures WriteTail(3, HOLDS, PATH, UPDATE, [TOOK]) == (HOLDS, Some(UPDATE))
  {
    Joins();
    assert MergeCluster(map[PATH := EMPTY], PATH, UPDATE).0 == map[PATH := UPDATE];
    assert MergeCluster(map[], PATH, UPDATE).0 == map[PATH := UPDATE];
    assert Collect([TOOK], PATH) == [UPDATE];
    assert FoldViews(UPDATE, [UPDATE]) == Some(UPDATE);
    assert MergeCluster(map[PATH := UPDATE], PATH, UPDATE).0 == map[PATH := UPDATE];
  }

  /** The read forms the cluster. */
  function Formed(): State {
    Close(PutInner(Revived(), 0, Inner(map[PATH := EMPTY], true, true, false)), 2).(everFormed := true)
  }

  /** Replica 0 starts a write, replica 2 takes it, and it is acknowledged by slots 0 and 2. */
  function Writing(): State {
    var s := Formed();
    Open(PutInner(s, 0, HOLDS).(writes := s.writes + [Write(PATH, UPDATE, 4)]), Round(0, Merge(PATH, UPDATE), true, UPDATE, true))
  }

  function Taken(): State {
    PutInner(Writing(), 2, HOLDS).(answers := Writing().answers + {TOOK})
  }

  function Acked(): State {
    Close(PutInner(Taken(), 0, HOLDS), 4).(acked := Taken().acked[4 := Ack({0} + {2}, {0} + {2}, 5)])
  }

  /** Slot 2 is replaced; no live replica reports genesis. */
  function Gone(): State {
    var s := Acked();
    s.(slots := s.slots[2 := 4], replicas := s.replicas[4 := Replica(2, FRESH)], nextId := 5)
  }

  /** The sync answered long ago finishes: genesis is back, after the acknowledged write. */
  function Returned(): State {
    Close(PutInner(Gone(), 3, GENESIS), 3)
  }

  /** The replacement in slot 2 hears only the empty genesis replica. */
  function Asking(): State {
    Open(Returned(), Syncing(4, true))
  }

  function Answered(): State {
    PutInner(Asking(), 3, GENESIS).(answers := Asking().answers + {Hears(5, 3, true)})
  }

  function Lost(): State {
    Close(PutInner(Answered(), 4, GENESIS), 5)
  }

  lemma FormsStep()
    ensures LooseNext(Revived(), FinishRead(2, [Hears(2, 1, false), Hears(2, 2, true)]), Formed())
  {
    ReadForms();
    hide ReadTail, ReadyOnes;
  }

  lemma WriteStep()
    ensures LooseNext(Formed(), StartWrite(0, PATH, UPDATE), Writing())
  {
    WriteIsTaken();
    hide MergeCluster;
  }

  lemma TakeStep()
    ensures LooseNext(Writing(), Answers(2, 4), Taken())
  {
    WriteIsTaken();
    hide Reply;
  }

  lemma TakenFacts()
    ensures var s := Taken();
            && |s.slots| == 3 && 4 in s.rounds && s.rounds[4] == Round(0, Merge(PATH, UPDATE), true, UPDATE, true)
            && Live(s, 0) && s.replicas[0].inner == HOLDS && TOOK in s.answers
            && SlotOf(s, 0) == 0 && SlotOf(s, 2) == 2 && s.nextNonce == 5
  {
  }

  lemma AckStep()
    ensures LooseNext(Taken(), FinishWrite(4, [TOOK]), Acked())
  {
    TakenFacts();
    WriteIsTaken();
    hide WriteTail, Taken;
    assert SlotsOf(Taken(), [TOOK]) == {2} && IdsOf([TOOK]) == {2};
  }

  lemma AckedFacts()
    ensures var s := Acked();
            && |s.slots| == 3 && s.nextId == 4 && s.replaced
            && (forall r :: r in s.rounds && s.rounds[r].request.Merge? ==> !s.rounds[r].open)
            && (forall id :: id in s.replicas && Live(s, id) ==> !ReportsGenesis(s.replicas[id].inner))
  {
  }

  lemma ReplaceAgainStep()
    ensures LooseNext(Acked(), Replace(2), Gone())
  {
    AckedFacts();
    hide Acked, ReportsGenesis, Live;
  }

  lemma GoneFacts()
    ensures var s := Gone();
            && |s.slots| == 3 && 3 in s.rounds && s.rounds[3] == Syncing(3, true)
            && Live(s, 3) && s.replicas[3].inner == FRESH
            && Hears(3, 2, true) in s.answers && SlotOf(s, 2) != SlotOf(s, 3)
  {
  }

  lemma ReturnStep()
    ensures LooseNext(Gone(), FinishSync(3, [Hears(3, 2, true)]), Returned())
  {
    GoneFacts();
    hide Gone, LooseNext;
    GenesisSync(Gone(), 3, 3, 2);
  }

  lemma ReturnedFacts()
    ensures var s := Returned();
            && |s.slots| == 3 && s.nextNonce == 5 && Live(s, 4) && s.replicas[4].inner == FRESH
            && Live(s, 3) && s.replicas[3].inner == GENESIS
            && (forall r :: r in s.rounds ==> s.rounds[r].caller != 4)
            && SlotOf(s, 3) != SlotOf(s, 4)
  {
  }

  lemma LastSteps()
    ensures LooseNext(Returned(), StartSync(4), Asking())
    ensures LooseNext(Asking(), Answers(3, 5), Answered())
  {
    ReturnedFacts();
    hide Returned;
    var s := Asking();
    AnswersASync(s, 3, 5, 4, Hears(5, 3, true));
    assert s.replicas[3 := s.replicas[3]] == s.replicas;
  }

  lemma FinalStep()
    ensures LooseNext(Answered(), FinishSync(5, [Hears(5, 3, true)]), Lost())
  {
    ReturnedFacts();
    hide Returned, LooseNext;
    GenesisSync(Answered(), 5, 4, 3);
  }

  lemma LostIsLost()
    ensures LostWrite(Lost(), 4, 2)
  {
    assert 7 in UPDATE.nodes;
  }

  lemma StartIsInit()
    ensures Init(Start())
  {
  }

  /** With the weaker guard, 23 steps lose a write that a majority of three acknowledged. */
  lemma LiveReportsAreNotEnough()
    ensures Init(Start())
    ensures LooselyReaches(23, Start(), Lost()) && LostWrite(Lost(), 4, 2)
  {
    hide Init, Start, LooselyReaches, LooseNext, LostWrite, Revived, Formed, Writing, Taken, Acked, Gone, Returned, Asking, Answered, Lost;
    ToRevived();
    FormsStep();
    WriteStep();
    TakeStep();
    AckStep();
    ReplaceAgainStep();
    ReturnStep();
    LastSteps();
    FinalStep();
    LostIsLost();
    StartIsInit();
    var s := Start();
    OneMoreStep(14, s, Revived(), FinishRead(2, [Hears(2, 1, false), Hears(2, 2, true)]), Formed());
    OneMoreStep(15, s, Formed(), StartWrite(0, PATH, UPDATE), Writing());
    OneMoreStep(16, s, Writing(), Answers(2, 4), Taken());
    OneMoreStep(17, s, Taken(), FinishWrite(4, [TOOK]), Acked());
    OneMoreStep(18, s, Acked(), Replace(2), Gone());
    OneMoreStep(19, s, Gone(), FinishSync(3, [Hears(3, 2, true)]), Returned());
    OneMoreStep(20, s, Returned(), StartSync(4), Asking());
    OneMoreStep(21, s, Asking(), Answers(3, 5), Answered());
    OneMoreStep(22, s, Answered(), FinishSync(5, [Hears(5, 3, true)]), Lost());
  }
}
