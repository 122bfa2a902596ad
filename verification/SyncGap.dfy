/**
 A sync that hears every other replica and still fails: five replicas, everyone
 reachable, nothing replaced, expired or written. Replica 1 asks first and hears two
 answers while replicas 3 and 4 are unready; the others become ready in the meantime, one
 of them from a majority and so outside genesis; then the last two answers arrive.
 */
module SyncGap {
  import opened Outcomes
  import opened CounterViews
  import opened CounterReplica
  import opened CounterProtocol
  import opened CounterInvariant
  import opened BringUp
  import opened BringUpEnds

  const GENESIS: Inner := Inner(map[], true, false, true)
  const READY: Inner := Inner(map[], true, false, false)

  function Says(i: Inner, from: Id, nonce: Nonce): Answer {
    AnswerBody(i, from, nonce, map[])
  }

  /** Five replicas that have written nothing; the state is what each has become. */
  ghost predicate Five(s: State) {
    && s.slots == [0, 1, 2, 3, 4] && s.replicas.Keys == {0, 1, 2, 3, 4}
    && (forall id :: id in s.replicas ==> s.replicas[id].slot == id && s.replicas[id].inner.views == map[] && !s.replicas[id].inner.formed)
    && s.writes == [] && !s.replaced && !s.expired
  }

  /** A replica answers a sync; nothing but the answer changes. */
  lemma AnswersASync(n: nat, s0: State, s: State, id: Id, nonce: Nonce)
    requires ReachesIn(n, s0, s) && Five(s) && id < 5
    requires nonce in s.rounds && s.rounds[nonce].request.ReadAll? && !s.rounds[nonce].formed
    ensures var s' := s.(answers := s.answers + {Says(s.replicas[id].inner, id, nonce)}); ReachesIn(n + 1, s0, s') && Five(s')
  {
    hide ReachesIn;
    var s' := s.(answers := s.answers + {Says(s.replicas[id].inner, id, nonce)});
    assert s.replicas[id := s.replicas[id]] == s.replicas;
    assert AnswersStep(s, id, nonce, s');
    ReachesOn(n, s0, s, Answers(id, nonce), s');
  }

  function Asked(s: State, c: Id): State {
    Open(s, Round(c, ReadAll, false, EMPTY, true))
  }

  function Told(s: State, nonce: Nonce, o: seq<Id>): (answers: seq<Answer>)
    requires forall k :: 0 <= k < |o| ==> o[k] in s.replicas
    ensures |answers| == |o| && forall k :: 0 <= k < |o| ==> answers[k] == Says(s.replicas[o[k]].inner, o[k], nonce)
  {
    seq(|o|, k requires 0 <= k < |o| => Says(s.replicas[o[k]].inner, o[k], nonce))
  }

  lemma Asks(n: nat, s0: State, s: State, c: Id)
    requires ReachesIn(n, s0, s) && Five(s) && c < 5 && !s.replicas[c].inner.ready
    requires forall r :: r in s.rounds && s.rounds[r].caller == c ==> !s.rounds[r].open
    ensures ReachesIn(n + 1, s0, Asked(s, c)) && Five(Asked(s, c))
  {
    hide ReachesIn;
    assert StartSyncStep(s, c, Asked(s, c));
    ReachesOn(n, s0, s, StartSync(c), Asked(s, c));
  }

  /** Four answers, from four different replicas, none of them `c`. */
  predicate FromTheOthers(c: Id, heard: seq<Answer>) {
    && |heard| == 4
    && (forall k :: 0 <= k < 4 ==> heard[k].from < 5 && heard[k].from != c)
    && forall j, k :: 0 <= j < k < 4 ==> heard[j].from != heard[k].from
  }

  /** A sync hears the four other replicas as they now are, and ends as it must. */
  lemma Ends(n: nat, s0: State, s: State, c: Id, nonce: Nonce, heard: seq<Answer>, i': Inner)
    requires ReachesIn(n, s0, s) && Five(s) && c < 5 && nonce in s.rounds && s.rounds[nonce] == Round(c, ReadAll, false, EMPTY, true)
    requires FromTheOthers(c, heard)
    requires forall k :: 0 <= k < 4 ==> heard[k] in s.answers && heard[k].nonce == nonce
    requires SyncTail(5, s.replicas[c].inner, heard, i') && i'.views == map[] && !i'.formed
    ensures var s' := Close(PutInner(s, c, i'), nonce); ReachesIn(n + 1, s0, s') && Five(s') && HeardOthers(s, nonce, heard, s')
  {
    hide ReachesIn, SyncTail, Heard;
    HeardFour(s, c, nonce, heard);
    FiveStays(s, c, i', nonce);
    var s' := Close(PutInner(s, c, i'), nonce);
    assert FinishSyncStep(s, nonce, heard, s');
    hide FinishSyncStep;
    ReachesOn(n, s0, s, FinishSync(nonce, heard), s');
  }

  lemma HeardFour(s: State, c: Id, nonce: Nonce, heard: seq<Answer>)
    requires Five(s) && c < 5 && nonce in s.rounds && s.rounds[nonce].caller == c
    requires FromTheOthers(c, heard)
    requires forall k :: 0 <= k < 4 ==> heard[k] in s.answers && heard[k].nonce == nonce
    ensures Heard(s, nonce, heard)
  {
    assert forall id :: 0 <= id < 5 ==> SlotOf(s, id) == id;
  }

  lemma FiveStays(s: State, c: Id, i': Inner, nonce: Nonce)
    requires Five(s) && c < 5 && nonce in s.rounds && i'.views == map[] && !i'.formed
    ensures Five(Close(PutInner(s, c, i'), nonce))
    ensures Live(s, c) && c in Close(PutInner(s, c, i'), nonce).replicas && |s.slots| == 5
  {
  }

  /** One whole sync: asked, answered by the four others, ended. */
  function Synced(s: State, c: Id, o: seq<Id>, i': Inner): (s': State)
    requires c in s.replicas && forall k :: 0 <= k < |o| ==> o[k] in s.replicas
    requires |o| == 4
    ensures forall id :: id in s.replicas ==> id in s'.replicas
  {
    var t := Told(s, s.nextNonce, o);
    Close(PutInner(Asked(s, c).(answers := (((s.answers + {t[0]}) + {t[1]}) + {t[2]}) + {t[3]}), c, i'), s.nextNonce)
  }

  /** The state in which all four have answered. */
  function Answered(s: State, c: Id, o: seq<Id>): State
    requires |o| == 4 && forall k :: 0 <= k < |o| ==> o[k] in s.replicas
  {
    var t := Told(s, s.nextNonce, o);
    Asked(s, c).(answers := (((s.answers + {t[0]}) + {t[1]}) + {t[2]}) + {t[3]})
  }

  lemma FourAnswer(n: nat, s0: State, s: State, c: Id, o: seq<Id>)
    requires ReachesIn(n, s0, Asked(s, c)) && Five(Asked(s, c)) && |o| == 4
    requires o[0] < 5 && o[1] < 5 && o[2] < 5 && o[3] < 5
    ensures forall k :: 0 <= k < |o| ==> o[k] in s.replicas
    ensures ReachesIn(n + 4, s0, Answered(s, c, o)) && Five(Answered(s, c, o))
  {
    hide ReachesIn;
    assert forall id :: id in s.replicas <==> id in Asked(s, c).replicas;
    assert forall k :: 0 <= k < |o| ==> o[k] in s.replicas;
    var nonce, t := s.nextNonce, Told(s, s.nextNonce, o);
    var s1 := Asked(s, c);
    AnswersASync(n, s0, s1, o[0], nonce);
    var s2 := s1.(answers := s1.answers + {t[0]});
    AnswersASync(n + 1, s0, s2, o[1], nonce);
    var s3 := s2.(answers := s2.answers + {t[1]});
    AnswersASync(n + 2, s0, s3, o[2], nonce);
    var s4 := s3.(answers := s3.answers + {t[2]});
    hide Five;
    AnswersASync(n + 3, s0, s4, o[3], nonce);
  }

  lemma WholeSync(n: nat, s0: State, s: State, c: Id, o: seq<Id>, i': Inner)
    requires ReachesIn(n, s0, s) && Five(s) && c < 5 && !s.replicas[c].inner.ready
    requires forall r :: r in s.rounds && s.rounds[r].caller == c ==> !s.rounds[r].open
    requires |o| == 4 && o[0] < 5 && o[1] < 5 && o[2] < 5 && o[3] < 5 && FromTheOthers(c, Told(s, s.nextNonce, o))
    requires SyncTail(5, s.replicas[c].inner, Told(s, s.nextNonce, o), i') && i'.views == map[] && !i'.formed
    ensures ReachesIn(n + 6, s0, Synced(s, c, o, i')) && Five(Synced(s, c, o, i'))
  {
    hide ReachesIn, SyncTail, FromTheOthers;
    Asks(n, s0, s, c);
    FourAnswer(n + 1, s0, s, c, o);
    hide Five, Told;
    Ends(n + 5, s0, Answered(s, c, o), c, s.nextNonce, Told(s, s.nextNonce, o), i');
  }

  // ---- what each sync makes of what it hears ----

  lemma ReadyOf(a: Answer, b: Answer, c: Answer, d: Answer)
    ensures ReadyOnes([a, b, c, d]) == (((if a.ready then [a] else []) + (if b.ready then [b] else []))
                                        + (if c.ready then [c] else [])) + (if d.ready then [d] else [])
  {
    ReadyOfTwo(c, d);
    assert [a, b, c, d][1..] == [b, c, d] && [b, c, d][1..] == [c, d];
  }

  lemma ReadyOfTwo(c: Answer, d: Answer)
    ensures ReadyOnes([c, d]) == (if c.ready then [c] else []) + (if d.ready then [d] else [])
  {
    assert [c, d][1..] == [d] && [d][1..] == [];
    assert ReadyOnes([d]) == if d.ready then [d] else [];
  }

  /** Too few ready answers, all of genesis: ready in genesis. */
  lemma JoinsInGenesis(heard: seq<Answer>)
    requires ReadyOnes(heard) != [] && |ReadyOnes(heard)| < 3
    requires forall a :: a in ReadyOnes(heard) ==> a.genesis && !a.formed && a.counters == map[]
    requires !AnyFormed(heard)
    ensures SyncTail(5, FRESH, heard, GENESIS)
  {
    hide ReadyOnes;
  }

  /** Three ready answers: ready, and not in genesis. */
  lemma JoinsByMajority(heard: seq<Answer>)
    requires |ReadyOnes(heard)| >= 3 && !AnyFormed(heard) && forall a :: a in ReadyOnes(heard) ==> a.counters == map[]
    ensures SyncTail(5, FRESH, heard, READY)
  {
    EmptyMaps(ReadyOnes(heard));
    hide ReadyOnes, JoinMaps, Within;
  }

  /** Too few ready answers, one out of genesis: nothing changes. */
  lemma StaysUnready(heard: seq<Answer>)
    requires |ReadyOnes(heard)| < 3 && exists a :: a in ReadyOnes(heard) && !a.genesis
    ensures forall i' :: SyncTail(5, FRESH, heard, i') <==> i' == FRESH
  {
    hide ReadyOnes, JoinMaps, Within;
  }

  // ---- the run ----

  function Reps(i2: Inner, i3: Inner, i4: Inner): map<Id, Replica> {
    map[0 := Replica(0, GENESIS), 1 := Replica(1, FRESH), 2 := Replica(2, i2), 3 := Replica(3, i3), 4 := Replica(4, i4)]
  }

  function Start(): State {
    State([0, 1, 2, 3, 4], Reps(FRESH, FRESH, FRESH), map[], {}, 5, 0, [], map[], false, false, false)
  }

  /** Replica 1 has asked; 3 and 4 have answered, unready. */
  function First(): (s: State)
    ensures forall id: Id :: id < 5 ==> id in s.replicas
  {
    var s := Asked(Start(), 1);
    s.(answers := {Says(FRESH, 3, 0)} + {Says(FRESH, 4, 0)})
  }

  function Third(): (s: State)
    ensures forall id: Id :: id < 5 ==> id in s.replicas
  {
    hide First;
    Synced(First(), 3, [0, 1, 2, 4], GENESIS)
  }

  function Fourth(): (s: State)
    ensures forall id: Id :: id < 5 ==> id in s.replicas
  {
    hide Third;
    Synced(Third(), 4, [0, 1, 2, 3], GENESIS)
  }

  function Second(): (s: State)
    ensures forall id: Id :: id < 5 ==> id in s.replicas
  {
    hide Fourth;
    Synced(Fourth(), 2, [0, 1, 3, 4], READY)
  }

  /** Replicas 0 and 2 answer replica 1 at last. */
  function Last(): State {
    var s := Second();
    s.(answers := (s.answers + {Says(GENESIS, 0, 0)}) + {Says(READY, 2, 0)})
  }

  const HEARD: seq<Answer> := [Says(FRESH, 3, 0), Says(FRESH, 4, 0), Says(GENESIS, 0, 0), Says(READY, 2, 0)]

  /** What the steps ahead need to know of a state on the way. */
  ghost predicate Way(s: State, nonce: Nonce, i2: Inner, i3: Inner, i4: Inner) {
    && Five(s) && s.replicas == Reps(i2, i3, i4) && s.nextNonce == nonce
    && 0 in s.rounds && s.rounds[0] == Round(1, ReadAll, false, EMPTY, true)
    && (forall r :: r in s.rounds && r != 0 ==> !s.rounds[r].open)
    && Says(FRESH, 3, 0) in s.answers && Says(FRESH, 4, 0) in s.answers
  }

  lemma ToFirst()
    ensures ReachesIn(3, Start(), First()) && Way(First(), 1, FRESH, FRESH, FRESH)
  {
    hide ReachesIn;
    var s := Start();
    ReachesSelf(s);
    Asks(0, s, s, 1);
    var t := Asked(s, 1);
    AnswersASync(1, s, t, 3, 0);
    var u := t.(answers := t.answers + {Says(FRESH, 3, 0)});
    AnswersASync(2, s, u, 4, 0);
    assert u.(answers := u.answers + {Says(FRESH, 4, 0)}) == First();
  }

  lemma SyncKeepsWay(s: State, nonce: Nonce, c: Id, o: seq<Id>, i': Inner, i2: Inner, i3: Inner, i4: Inner)
    requires Way(s, nonce, i2, i3, i4) && nonce > 0 && 2 <= c < 5 && |o| == 4 && forall k :: 0 <= k < 4 ==> o[k] in s.replicas
    requires Five(Synced(s, c, o, i'))
    ensures Way(Synced(s, c, o, i'), nonce + 1, if c == 2 then i' else i2, if c == 3 then i' else i3, if c == 4 then i' else i4)
  {
  }

  lemma ThirdHears(s: State)
    requires Way(s, 1, FRESH, FRESH, FRESH)
    ensures var t := Told(s, 1, [0, 1, 2, 4]); SyncTail(5, FRESH, t, GENESIS) && FromTheOthers(3, t)
  {
    hide SyncTail;
    var t := Told(s, 1, [0, 1, 2, 4]);
    assert t == [Says(GENESIS, 0, 1), Says(FRESH, 1, 1), Says(FRESH, 2, 1), Says(FRESH, 4, 1)];
    ReadyOf(t[0], t[1], t[2], t[3]);
    JoinsInGenesis(t);
  }

  lemma ToThird()
    ensures ReachesIn(9, Start(), Third()) && Way(Third(), 2, FRESH, GENESIS, FRESH)
  {
    hide ReachesIn, Start, SyncTail, FromTheOthers, Told;
    ToFirst();
    hide First;
    var s := First();
    ThirdHears(s);
    WholeSync(3, Start(), s, 3, [0, 1, 2, 4], GENESIS);
    SyncKeepsWay(s, 1, 3, [0, 1, 2, 4], GENESIS, FRESH, FRESH, FRESH);
  }

  lemma FourthHears(s: State)
    requires Way(s, 2, FRESH, GENESIS, FRESH)
    ensures var t := Told(s, 2, [0, 1, 2, 3]); SyncTail(5, FRESH, t, GENESIS) && FromTheOthers(4, t)
  {
    hide SyncTail;
    var t := Told(s, 2, [0, 1, 2, 3]);
    assert t == [Says(GENESIS, 0, 2), Says(FRESH, 1, 2), Says(FRESH, 2, 2), Says(GENESIS, 3, 2)];
    ReadyOf(t[0], t[1], t[2], t[3]);
    JoinsInGenesis(t);
  }

  lemma ToFourth()
    ensures ReachesIn(15, Start(), Fourth()) && Way(Fourth(), 3, FRESH, GENESIS, GENESIS)
  {
    hide ReachesIn, Start, SyncTail, FromTheOthers, Told;
    ToThird();
    hide Third;
    var s := Third();
    FourthHears(s);
    WholeSync(9, Start(), s, 4, [0, 1, 2, 3], GENESIS);
    SyncKeepsWay(s, 2, 4, [0, 1, 2, 3], GENESIS, FRESH, GENESIS, FRESH);
  }

  lemma SecondHears(s: State)
    requires Way(s, 3, FRESH, GENESIS, GENESIS)
    ensures var t := Told(s, 3, [0, 1, 3, 4]); SyncTail(5, FRESH, t, READY) && FromTheOthers(2, t)
  {
    hide SyncTail;
    var t := Told(s, 3, [0, 1, 3, 4]);
    assert t == [Says(GENESIS, 0, 3), Says(FRESH, 1, 3), Says(GENESIS, 3, 3), Says(GENESIS, 4, 3)];
    ReadyOf(t[0], t[1], t[2], t[3]);
    JoinsByMajority(t);
  }

  lemma ToSecond()
    ensures ReachesIn(21, Start(), Second()) && Way(Second(), 4, READY, GENESIS, GENESIS)
  {
    hide ReachesIn, Start, SyncTail, FromTheOthers, Told;
    ToFourth();
    hide Fourth;
    var s := Fourth();
    SecondHears(s);
    WholeSync(15, Start(), s, 2, [0, 1, 3, 4], READY);
    SyncKeepsWay(s, 3, 2, [0, 1, 3, 4], READY, FRESH, GENESIS, GENESIS);
  }

  lemma ToLast()
    ensures ReachesIn(23, Start(), Last()) && Way(Last(), 4, READY, GENESIS, GENESIS)
    ensures forall k :: 0 <= k < 4 ==> HEARD[k] in Last().answers
  {
    hide ReachesIn, Start;
    ToSecond();
    hide Second;
    var s := Second();
    AnswersASync(21, Start(), s, 0, 0);
    var t := s.(answers := s.answers + {Says(GENESIS, 0, 0)});
    AnswersASync(22, Start(), t, 2, 0);
    assert t.(answers := t.answers + {Says(READY, 2, 0)}) == Last();
  }

  lemma StartIsInit()
    ensures Init(Start())
  {
  }

  lemma HeardTooLittle()
    ensures |ReadyOnes(HEARD)| == 2 && Says(READY, 2, 0) in ReadyOnes(HEARD)
  {
    ReadyOf(HEARD[0], HEARD[1], HEARD[2], HEARD[3]);
  }

  lemma HeardFromAll()
    ensures FromTheOthers(1, HEARD)
    ensures forall k :: 0 <= k < 4 ==> HEARD[k].nonce == 0
    ensures SyncTail(5, FRESH, HEARD, FRESH)
  {
    HeardTooLittle();
    StaysUnready(HEARD);
  }

  lemma WayFacts(s: State)
    requires Way(s, 4, READY, GENESIS, GENESIS)
    ensures Five(s) && s.replicas[1].inner == FRESH && 0 in s.rounds && s.rounds[0] == Round(1, ReadAll, false, EMPTY, true)
  {
  }

  lemma EndsOn(n: nat, s: State, heard: seq<Answer>)
    requires ReachesIn(n, Start(), s) && Way(s, 4, READY, GENESIS, GENESIS)
    requires FromTheOthers(1, heard)
    requires forall k :: 0 <= k < 4 ==> heard[k] in s.answers && heard[k].nonce == 0
    requires SyncTail(5, FRESH, heard, FRESH)
    ensures HeardOthers(s, 0, heard, Close(PutInner(s, 1, FRESH), 0))
  {
    WayFacts(s);
    hide ReachesIn, SyncTail, Start, HeardOthers, Way, Five, FromTheOthers;
    Ends(n, Start(), s, 1, 0, heard, FRESH);
  }

  lemma LastCanEnd()
    ensures 0 in Last().rounds && 1 in Last().replicas && HeardOthers(Last(), 0, HEARD, Close(PutInner(Last(), 1, FRESH), 0))
  {
    ToLast();
    HeardFromAll();
    WayFacts(Last());
    hide ReachesIn, SyncTail, Start, Last, HeardOthers, Way;
    EndsOn(23, Last(), HEARD);
  }

  lemma UnreadyAfter(s: State, heard: seq<Answer>, s': State)
    requires HeardOthers(s, 0, heard, s') && |s.slots| == 5
    requires s.rounds[0].caller == 1 && s.replicas[1].inner == FRESH
    requires forall i' :: SyncTail(5, FRESH, heard, i') ==> i' == FRESH
    ensures !InnerOf(s', 1).ready
  {
    hide SyncTail, Heard;
  }

  lemma LastEndsUnready(s': State)
    requires HeardOthers(Last(), 0, HEARD, s')
    ensures !InnerOf(s', 1).ready
  {
    ToLast();
    HeardTooLittle();
    StaysUnready(HEARD);
    WayFacts(Last());
    hide ReachesIn, SyncTail, Start, Last, HeardOthers, Way, ReadyOnes;
    UnreadyAfter(Last(), HEARD, s');
  }

  /**
   Within 23 steps of a start without replacements, expiry or writes, a sync hears all
   four other replicas, and whatever it ends in leaves its replica unready.
   */
  lemma HearingEveryoneIsNotEnough()
    ensures Init(Start()) && ReachesIn(23, Start(), Last())
    ensures !Last().replaced && !Last().expired && Last().writes == []
    ensures exists s' :: HeardOthers(Last(), 0, HEARD, s')
    ensures forall s' :: HeardOthers(Last(), 0, HEARD, s') ==> !InnerOf(s', 1).ready
  {
    hide ReachesIn, Start, Last, Init, HeardOthers, InnerOf;
    StartIsInit();
    ToLast();
    LastCanEnd();
    forall s' | HeardOthers(Last(), 0, HEARD, s') ensures !InnerOf(s', 1).ready {
      LastEndsUnready(s');
    }
  }
}
