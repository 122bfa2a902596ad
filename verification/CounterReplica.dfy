/**
 What one replica does with counter messages, as functions of its state: the
 replies to a peer, and what a read, a write and a sync do with the answers their
 round collected (mero-kms/src/counters.rs). `Counters.dfy` holds the same
 operations as methods on mutable state; `CounterProtocol.dfy` runs many replicas.
 */
module CounterReplica {
  import opened Outcomes
  import opened CounterViews

  /** A replica's random id, drawn at startup: one per incarnation. */
  type Id = nat

  /** A round's random nonce; fresh values are numbered in the order drawn. */
  type Nonce = nat

  /**
   The state under the lock. `genesis` says that a genesis window is set and not over;
   it is reported only while the replica is ready and has not learned `formed`.
   */
  datatype Inner = Inner(views: CounterMap, ready: bool, formed: bool, genesis: bool)

  const FRESH: Inner := Inner(map[], false, false, false)

  predicate ReportsGenesis(i: Inner) {
    i.ready && !i.formed && i.genesis
  }

  /** Genesis ends for good when the cluster is known to have formed. */
  function LearnFormed(i: Inner): Inner {
    if i.formed then i else i.(formed := true, genesis := false)
  }

  datatype Request =
    | ReadOne(path: string)
    | ReadAll
    | Merge(path: string, update: Cluster)

  datatype Answer = Answer(nonce: Nonce, from: Id, ready: bool, formed: bool, genesis: bool, counters: CounterMap)

  function Majority(n: nat): nat {
    n / 2 + 1
  }

  function AnswerBody(i: Inner, id: Id, nonce: Nonce, counters: CounterMap): Answer {
    Answer(nonce, id, i.ready, i.formed, ReportsGenesis(i), counters)
  }

  /** Answer a peer's request. A write that a limit refuses gets no answer. */
  function Reply(i: Inner, id: Id, nonce: Nonce, request: Request, formed: bool): (Inner, Option<Answer>) {
    match request
    case ReadOne(path) =>
      var told := if formed then LearnFormed(i) else i;
      var counters := if path in told.views then map[path := told.views[path]] else map[];
      (told, Some(AnswerBody(told, id, nonce, counters)))
    case ReadAll =>
      var told := if formed then LearnFormed(i) else i;
      (told, Some(AnswerBody(told, id, nonce, told.views)))
    case Merge(path, update) =>
      var told := LearnFormed(i);
      var (m, merged) := MergeCluster(told.views, path, update);
      var raised := told.(views := m);
      (raised,
       if merged.Some? then Some(AnswerBody(raised, id, nonce, map[path := merged.value])) else None)
  }

  // ---- what a round's caller does with the answers ----

  function ReadyOnes(answers: seq<Answer>): seq<Answer> {
    if answers == [] then []
    else (if answers[0].ready then [answers[0]] else []) + ReadyOnes(answers[1..])
  }

  predicate AnyFormed(answers: seq<Answer>) {
    exists a :: a in answers && a.formed
  }

  /** The answerers' views of one cluster; an answer without it is passed over. */
  function Collect(answers: seq<Answer>, path: string): seq<Cluster> {
    if answers == [] then []
    else (if path in answers[0].counters then [answers[0].counters[path]] else []) + Collect(answers[1..], path)
  }

  function Maps(answers: seq<Answer>): seq<CounterMap> {
    seq(|answers|, k requires 0 <= k < |answers| => answers[k].counters)
  }

  /** A read's tail: refused until formed, refused short of a majority of ready replicas. */
  function ReadTail(n: nat, i: Inner, path: string, view: Cluster, answers: seq<Answer>): (Inner, Option<Cluster>) {
    var ready := ReadyOnes(answers);
    var told := if |ready| + 1 >= n || AnyFormed(answers) then LearnFormed(i) else i;
    if !told.formed || |ready| + 1 < Majority(n) then (told, None)
    else Install(told, path, FoldViews(view, Collect(ready, path)))
  }

  /** A write's tail: refused short of a majority that took it. */
  function WriteTail(n: nat, i: Inner, path: string, view: Cluster, answers: seq<Answer>): (Inner, Option<Cluster>) {
    if |answers| + 1 < Majority(n) then (i, None)
    else Install(i, path, FoldViews(view, Collect(answers, path)))
  }

  /** Keep what the majority knew, and answer with it. */
  function Install(i: Inner, path: string, folded: Option<Cluster>): (Inner, Option<Cluster>) {
    match folded
    case None => (i, None)
    case Some(view) =>
      var (m, r) := MergeCluster(i.views, path, view);
      (i.(views := m), if r.Some? then Some(view) else None)
  }

  /** Bring-up: some ready replica was heard, each of them in genesis and holding nothing. */
  predicate GenesisRule(answers: seq<Answer>) {
    && ReadyOnes(answers) != []
    && (forall a :: a in ReadyOnes(answers) ==>
        a.genesis && !a.formed && forall p :: p in a.counters ==> a.counters[p].nodes == map[])
    && !AnyFormed(answers)
  }

  /**
   A sync's tail. When a limit refuses part of a majority's maps, how much was merged before
   the refusal is left open here, since no proof needs it; `MergeMaps` says it exactly.
   */
  ghost predicate SyncTail(n: nat, i: Inner, answers: seq<Answer>, i': Inner) {
    var ready := ReadyOnes(answers);
    if |ready| >= Majority(n) then
      var joined := JoinMaps(i.views, Maps(ready));
      if Within(joined) then
        var synced := i.(views := joined, ready := true);
        i' == if AnyFormed(answers) then LearnFormed(synced) else synced
      else
        i' == i.(views := i'.views) && Within(i'.views) && MapLe(i.views, i'.views) && MapLe(i'.views, joined)
    else if GenesisRule(answers) then i' == i.(ready := true, genesis := true)
    else i' == i
  }

  // ---- facts about one replica ----

  /** Nothing a replica does lowers a value, or takes back `ready` or `formed`. */
  ghost predicate Grows(i: Inner, i': Inner) {
    && MapLe(i.views, i'.views)
    && (i.ready ==> i'.ready)
    && (i.formed ==> i'.formed)
    && (ReportsGenesis(i') ==> ReportsGenesis(i) || (!i.ready && i'.ready))
  }

  lemma GrowsIsReflexive(i: Inner)
    ensures Grows(i, i)
  {
    MapLeIsReflexive(i.views);
  }

  /** A reply only raises, and says what the replica then holds. */
  lemma ReplyGrows(i: Inner, id: Id, nonce: Nonce, request: Request, formed: bool)
    requires Within(i.views)
    ensures var (i', a) := Reply(i, id, nonce, request, formed);
            && Grows(i, i') && Within(i'.views) && i'.ready == i.ready
            && (i'.formed ==> i.formed || formed || request.Merge?)
            && (request.Merge? || i'.views == i.views)
            && (a.Some? ==> a.value == AnswerBody(i', id, nonce, a.value.counters))
  {
    MapLeIsReflexive(i.views);
    if request.Merge? {
      MergeClusterOnlyRaises(i.views, request.path, request.update);
    }
  }

  /** An answer carries the replica's whole view of what it was asked for. */
  lemma ReplyShowsTheView(i: Inner, id: Id, nonce: Nonce, request: Request, formed: bool, p: string)
    requires Reply(i, id, nonce, request, formed).1.Some?
    ensures var (i', a) := Reply(i, id, nonce, request, formed);
            && (request.ReadAll? || request.path == p ==> View(a.value.counters, p) == View(i'.views, p))
            && (View(a.value.counters, p) == View(i'.views, p) || View(a.value.counters, p) == EMPTY)
  {
    if request.Merge? {
      MergeClusterAccepts(i.views, request.path, request.update);
    }
  }

  /** A write's answer means that the replica merged this very update. */
  lemma ReplyTookTheWrite(i: Inner, id: Id, nonce: Nonce, path: string, update: Cluster, formed: bool)
    requires Reply(i, id, nonce, Merge(path, update), formed).1.Some?
    ensures var (i', a) := Reply(i, id, nonce, Merge(path, update), formed);
            View(i'.views, path) == Join(View(i.views, path), update) && Le(update, View(i'.views, path))
  {
    MergeClusterAccepts(i.views, path, update);
  }

  lemma {:induction false} ReadyOnesAreTheReadyOnes(answers: seq<Answer>)
    ensures forall a :: a in ReadyOnes(answers) <==> a in answers && a.ready
    ensures |ReadyOnes(answers)| <= |answers|
  {
    if answers != [] {
      ReadyOnesAreTheReadyOnes(answers[1..]);
      forall a
        ensures a in ReadyOnes(answers) <==> a in answers && a.ready
      {
        assert a in answers <==> a == answers[0] || a in answers[1..];
      }
    }
  }

  /** Each ready answer as often as it was heard, and no other. */
  lemma {:induction false} ReadyOnesCount(answers: seq<Answer>, a: Answer)
    ensures multiset(ReadyOnes(answers))[a] == if a.ready then multiset(answers)[a] else 0
  {
    if answers != [] {
      ReadyOnesCount(answers[1..], a);
      assert answers == [answers[0]] + answers[1..];
    }
  }

  /** The smallest number that any two of `n` must share: more than half. */
  lemma MajorityIsLeast(n: nat)
    ensures n < 2 * Majority(n) && forall k: nat :: n < 2 * k ==> Majority(n) <= k
    ensures Majority(3) == 2 && Majority(4) == 3 && Majority(5) == 3
  {
  }

  /**
   What a sync of an unready replica does, on any answers: it becomes ready from a majority
   of ready ones whose maps fit, or, short of a majority, when some answer is ready, every
   ready one is in genesis, not formed and without a single counter, and none says formed.
   */
  lemma SyncSucceedsExactly(n: nat, i: Inner, answers: seq<Answer>, i': Inner)
    requires SyncTail(n, i, answers, i') && !i.ready
    ensures var ready := ReadyOnes(answers);
            i'.ready <==>
              if |ready| >= Majority(n) then Within(JoinMaps(i.views, Maps(ready)))
              else
                && (exists a :: a in answers && a.ready)
                && (forall a, p :: a in answers && a.ready && p in a.counters ==> a.counters[p].nodes == map[])
                && (forall a :: a in answers && a.ready ==> a.genesis)
                && (forall a :: a in answers ==> !a.formed)
    ensures i'.ready && |ReadyOnes(answers)| < Majority(n) ==> i' == i.(ready := true, genesis := true)
    ensures i'.ready && |ReadyOnes(answers)| >= Majority(n) ==>
              && i'.views == JoinMaps(i.views, Maps(ReadyOnes(answers)))
              && (i'.formed <==> i.formed || exists a :: a in answers && a.formed)
  {
    hide JoinMaps, Maps, Within, MapLe, ReadyOnes;
    ReadyOnesAreTheReadyOnes(answers);
    if exists a :: a in answers && a.ready {
      assert ReadyOnes(answers) != [];
    }
    if ReadyOnes(answers) != [] {
      assert ReadyOnes(answers)[0] in ReadyOnes(answers);
    }
  }

  lemma {:induction false} CollectedViews(answers: seq<Answer>, path: string)
    ensures forall v :: v in Collect(answers, path) <==> exists a :: a in answers && path in a.counters && a.counters[path] == v
  {
    if answers != [] {
      CollectedViews(answers[1..], path);
      forall v
        ensures v in Collect(answers, path) <==> exists a :: a in answers && path in a.counters && a.counters[path] == v
      {
        if a :| a in answers && path in a.counters && a.counters[path] == v {
          assert a == answers[0] || a in answers[1..];
        }
        if v in Collect(answers, path) {
          assert (path in answers[0].counters && v == answers[0].counters[path]) || v in Collect(answers[1..], path);
        }
      }
    }
  }

  /** A folded view is above where it started and above every answerer's view, and below any common bound. */
  lemma FoldedViewIsTheJoin(view: Cluster, answers: seq<Answer>, path: string)
    requires ClusterWithin(view)
    requires FoldViews(view, Collect(answers, path)).Some?
    ensures var v := FoldViews(view, Collect(answers, path)).value;
            && ClusterWithin(v)
            && Le(view, v)
            && (forall a :: a in answers ==> Le(View(a.counters, path), v))
            && (forall c :: Le(view, c) && (forall a :: a in answers ==> Le(View(a.counters, path), c)) ==> Le(v, c))
  {
    var views := Collect(answers, path);
    FoldSucceedsIffUnionFits(view, views);
    JoinAllIsLeastUpperBound(view, views);
    CollectedViews(answers, path);
    var v := FoldViews(view, views).value;
    forall a | a in answers
      ensures Le(View(a.counters, path), v)
    {
      LeIsReflexive(v);
      if path in a.counters {
        assert a.counters[path] in views;
      }
    }
    forall c | Le(view, c) && (forall a :: a in answers ==> Le(View(a.counters, path), c))
      ensures Le(v, c)
    {
      forall x | x in views
        ensures Le(x, c)
      {
        var a :| a in answers && path in a.counters && a.counters[path] == x;
        assert Le(View(a.counters, path), c);
      }
    }
  }

  /** Installing a folded view raises one cluster to it, or changes nothing there. */
  lemma InstallGrows(i: Inner, path: string, folded: Option<Cluster>)
    requires Within(i.views)
    ensures var (i', r) := Install(i, path, folded);
            && Grows(i, i') && Within(i'.views)
            && i' == i.(views := i'.views)
            && (r.Some? ==> r == folded)
            && (forall p :: View(i'.views, p) == View(i.views, p)
                            || (r.Some? && p == path && View(i'.views, p) == Join(View(i.views, p), r.value)))
  {
    GrowsIsReflexive(i);
    if folded.Some? {
      MergeClusterOnlyRaises(i.views, path, folded.value);
      if MergeCluster(i.views, path, folded.value).1.Some? {
        MergeClusterAccepts(i.views, path, folded.value);
      } else {
        MergeClusterRefuses(i.views, path, folded.value);
      }
    }
  }

  /** The join of a majority's views passes both limits here and where it is kept. */
  ghost predicate CanKeep(i: Inner, path: string, joined: Cluster) {
    && ClusterWithin(joined)
    && (path in i.views || |i.views| < MAX_COUNTER_CLUSTERS)
    && Fits(View(i.views, path), joined)
  }

  lemma InstallSucceedsIffItFits(i: Inner, path: string, view: Cluster, answers: seq<Answer>)
    requires ClusterWithin(view)
    ensures var joined := JoinAll(view, Collect(answers, path));
            Install(i, path, FoldViews(view, Collect(answers, path))).1
            == if CanKeep(i, path, joined) then Some(joined) else None
  {
    FoldSucceedsIffUnionFits(view, Collect(answers, path));
    hide Fits, JoinAll, FoldViews, Collect, Join;
  }

  /**
   A write succeeds exactly when enough others took it and the joined view fits, and then
   returns exactly that join.
   */
  lemma WriteSucceedsIff(n: nat, i: Inner, path: string, view: Cluster, answers: seq<Answer>)
    requires ClusterWithin(view)
    ensures var joined := JoinAll(view, Collect(answers, path));
            WriteTail(n, i, path, view, answers).1
            == if |answers| + 1 >= Majority(n) && CanKeep(i, path, joined) then Some(joined) else None
  {
    hide Install, CanKeep, JoinAll, Collect, FoldViews;
    InstallSucceedsIffItFits(i, path, view, answers);
  }

  /**
   A read succeeds exactly when the cluster has formed (as known before, told by an answer,
   or by hearing everyone ready), enough ready others answered and the joined view fits.
   */
  lemma ReadSucceedsIff(n: nat, i: Inner, path: string, view: Cluster, answers: seq<Answer>)
    requires ClusterWithin(view)
    ensures var ready := ReadyOnes(answers);
            var joined := JoinAll(view, Collect(ready, path));
            var told := exists a :: a in answers && a.formed;
            && (ReadTail(n, i, path, view, answers).0.formed <==> i.formed || |ready| + 1 >= n || told)
            && ReadTail(n, i, path, view, answers).1
               == if (i.formed || |ready| + 1 >= n || told) && |ready| + 1 >= Majority(n) && CanKeep(i, path, joined)
                  then Some(joined) else None
  {
    hide JoinAll, Collect, FoldViews, ReadyOnes, Fits, Join;
    var ready := ReadyOnes(answers);
    InstallSucceedsIffItFits(LearnFormed(i), path, view, ready);
    InstallSucceedsIffItFits(i, path, view, ready);
  }
}
