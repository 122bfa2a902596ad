/**
 The operations a replica offers as whole calls, on values: how each begins, which of the
 replies to its round it counts, what it does with them, and every error it can end with
 (`read`, `write`, `raise`, `reset` and `round` in mero-kms/src/counters.rs). While a
 call waits for its round the lock is free, so other calls change the state under it.
 */
module CounterCalls {
  import opened Outcomes
  import opened CounterViews
  import opened CounterReplica
  import opened KeyOrder

  datatype CounterError = NotReady | NotFormed | TooFewReplicas | CounterLimit

  /** Seconds of genesis as an answer reports them: rounded up to one. */
  type Secs = x: nat | x >= 1 witness 1

  /** What came back from one peer: nothing usable, a body whose MAC fails, or a verified answer. */
  datatype PeerReply = Silent | Forged | Verified(answer: Answer, genesisSecs: Secs)

  /** An answer with the seconds of genesis left, which mean something only while it reports genesis. */
  datatype Counted = Counted(answer: Answer, genesisSecs: Secs)

  /** How an operation begins: nothing to ask anyone, a read to make first, or a round to run. */
  datatype Begun = Alone(view: Cluster) | ReadFirst | Ask(request: Request, formed: bool, view: Cluster)

  function AnswersOf(counted: seq<Counted>): seq<Answer> {
    seq(|counted|, k requires 0 <= k < |counted| => counted[k].answer)
  }

  // ---- the answers a round counts ----

  /** The first verified answer to `nonce` of every replica id not yet seen. */
  ghost function CountedOf(replies: seq<PeerReply>, nonce: Nonce, seen: set<Id>): seq<Counted>
    decreases |replies|
  {
    if replies == [] then []
    else if replies[0].Verified? && replies[0].answer.nonce == nonce && replies[0].answer.from !in seen then
      [Counted(replies[0].answer, replies[0].genesisSecs)]
      + CountedOf(replies[1..], nonce, seen + {replies[0].answer.from})
    else CountedOf(replies[1..], nonce, seen)
  }

  predicate Counts(reply: PeerReply, nonce: Nonce, seen: set<Id>) {
    reply.Verified? && reply.answer.nonce == nonce && reply.answer.from !in seen
  }

  /**
   Whatever the peers send back, the counted answers are verified answers to the nonce,
   from pairwise distinct replicas, none of them already seen.
   */
  lemma {:induction false} CountedAnswersAreDistinct(replies: seq<PeerReply>, nonce: Nonce, seen: set<Id>)
    ensures var counted := CountedOf(replies, nonce, seen);
            && (forall c :: c in counted ==>
                c.answer.nonce == nonce && c.answer.from !in seen && Verified(c.answer, c.genesisSecs) in replies)
            && (forall j, k :: 0 <= j < k < |counted| ==> counted[j].answer.from != counted[k].answer.from)
    decreases |replies|
  {
    if replies != [] {
      var first, rest := replies[0], replies[1..];
      if Counts(first, nonce, seen) {
        var more := CountedOf(rest, nonce, seen + {first.answer.from});
        CountedAnswersAreDistinct(rest, nonce, seen + {first.answer.from});
        assert CountedOf(replies, nonce, seen) == [Counted(first.answer, first.genesisSecs)] + more;
        assert forall c :: c in more ==> c.answer.from != first.answer.from;
      } else {
        CountedAnswersAreDistinct(rest, nonce, seen);
      }
    }
  }

  /** Every replica that sent a verified answer to the nonce is counted. */
  lemma {:induction false} EveryAnswererIsCounted(replies: seq<PeerReply>, nonce: Nonce, seen: set<Id>, reply: PeerReply)
    requires reply in replies && Counts(reply, nonce, seen)
    ensures exists c :: c in CountedOf(replies, nonce, seen) && c.answer.from == reply.answer.from
    decreases |replies|
  {
    var first, rest := replies[0], replies[1..];
    if Counts(first, nonce, seen) {
      var head, more := Counted(first.answer, first.genesisSecs), CountedOf(rest, nonce, seen + {first.answer.from});
      assert CountedOf(replies, nonce, seen) == [head] + more;
      assert head in [head] + more;
      if reply.answer.from != first.answer.from {
        EveryAnswererIsCounted(rest, nonce, seen + {first.answer.from}, reply);
        var c :| c in more && c.answer.from == reply.answer.from;
        assert c in [head] + more;
      }
    } else {
      EveryAnswererIsCounted(rest, nonce, seen, reply);
    }
  }

  lemma {:induction false} CountOneMore(replies: seq<PeerReply>, last: PeerReply, nonce: Nonce, seen: set<Id>)
    ensures var before := CountedOf(replies, nonce, seen);
            CountedOf(replies + [last], nonce, seen)
            == before + if last.Verified? && last.answer.nonce == nonce && last.answer.from !in seen
                           && (forall c :: c in before ==> c.answer.from != last.answer.from)
                        then [Counted(last.answer, last.genesisSecs)] else []
    decreases |replies|
  {
    if replies == [] {
      assert (replies + [last])[1..] == [];
    } else {
      assert (replies + [last])[1..] == replies[1..] + [last];
      var first := replies[0];
      if first.Verified? && first.answer.nonce == nonce && first.answer.from !in seen {
        var seen1 := seen + {first.answer.from};
        CountOneMore(replies[1..], last, nonce, seen1);
        var head, more := Counted(first.answer, first.genesisSecs), CountedOf(replies[1..], nonce, seen1);
        assert CountedOf(replies, nonce, seen) == [head] + more;
        assert head in [head] + more;
      } else {
        CountOneMore(replies[1..], last, nonce, seen);
      }
    }
  }


  // ---- merging whole maps ----

  /** Merge `from` at these keys, one by one; a refusal leaves what was merged before it. */
  ghost function MergeKeys(m: CounterMap, from: CounterMap, keys: seq<string>): (CounterMap, bool)
    requires forall k :: k in keys ==> k in from
    decreases |keys|
  {
    if keys == [] then (m, true)
    else
      var (m', merged) := MergeCluster(m, keys[0], from[keys[0]]);
      if merged.None? then (m', false) else MergeKeys(m', from, keys[1..])
  }

  ghost function MergeMapped(m: CounterMap, from: CounterMap): (CounterMap, bool) {
    MergeKeys(m, from, InOrder(from.Keys))
  }

  ghost function MergeMaps(m: CounterMap, maps: seq<CounterMap>): (CounterMap, bool)
    decreases |maps|
  {
    if maps == [] then (m, true)
    else
      var (m', ok) := MergeMapped(m, maps[0]);
      if ok then MergeMaps(m', maps[1..]) else (m', false)
  }

  // ---- how a call begins ----

  /** A read starts from the view held; a replica with no peers answers it at once. */
  function BeganRead(n: nat, i: Inner, path: string): Result<Begun, CounterError> {
    if !i.ready then Err(NotReady)
    else Ok(if n == 1 then Alone(View(i.views, path)) else Ask(ReadOne(path), i.formed, View(i.views, path)))
  }

  /** A write is merged here before it is sent; until the cluster has formed, a read goes first. */
  function BeganWrite(n: nat, i: Inner, path: string, update: Cluster): (Inner, Result<Begun, CounterError>) {
    if !i.ready then (i, Err(NotReady))
    else if !i.formed then (i, Ok(ReadFirst))
    else
      var (m, merged) := MergeCluster(i.views, path, update);
      (i.(views := m),
       if merged.None? then Err(CounterLimit)
       else Ok(if n == 1 then Alone(merged.value) else Ask(Merge(path, update), i.formed, merged.value)))
  }

  /** A sync has nothing to ask once ready, or in a cluster of one, which bootstraps. */
  function BeganSync(n: nat, i: Inner): Option<Begun> {
    if i.ready || n == 1 then None else Some(Ask(ReadAll, i.formed, EMPTY))
  }

  // ---- whole calls ----

  /** What other calls do to this replica while one waits for its round. */
  datatype Event = Merged(path: string, counters: Cluster) | Formed

  function Applied(i: Inner, events: seq<Event>): Inner
    decreases |events|
  {
    if events == [] then i
    else
      var before := Applied(i, events[..|events| - 1]);
      match events[|events| - 1]
      case Formed => LearnFormed(before)
      case Merged(path, counters) => before.(views := MergeCluster(before.views, path, counters).0)
  }

  /** One round: its nonce, what the peers sent back, and what happened here meanwhile. */
  datatype Exchange = Exchange(nonce: Nonce, replies: seq<PeerReply>, meanwhile: seq<Event>)

  /** The replica a call runs on. */
  datatype Self = Self(id: Id, replicas: nat)

  ghost function AnswersTo(self: Self, x: Exchange): seq<Answer> {
    AnswersOf(CountedOf(x.replies, x.nonce, {self.id}))
  }

  /** Whether a read finds the cluster formed: known here, told by an answer, or everyone ready. */
  ghost predicate FindsFormed(n: nat, i: Inner, answers: seq<Answer>) {
    i.formed || |ReadyOnes(answers)| + 1 >= n || AnyFormed(answers)
  }

  ghost function FinishedRead(n: nat, i: Inner, path: string, view: Cluster, answers: seq<Answer>)
      : (Inner, Result<Cluster, CounterError>)
  {
    var (i', v) := ReadTail(n, i, path, view, answers);
    (i',
     if v.Some? then Ok(v.value)
     else if !FindsFormed(n, i, answers) then Err(NotFormed)
     else if |ReadyOnes(answers)| + 1 < Majority(n) then Err(TooFewReplicas)
     else Err(CounterLimit))
  }

  ghost function FinishedWrite(n: nat, i: Inner, path: string, view: Cluster, answers: seq<Answer>)
      : (Inner, Result<Cluster, CounterError>)
  {
    var (i', v) := WriteTail(n, i, path, view, answers);
    (i', if v.Some? then Ok(v.value) else if |answers| + 1 < Majority(n) then Err(TooFewReplicas) else Err(CounterLimit))
  }

  ghost function ReadCall(self: Self, i: Inner, path: string, x: Exchange): (Inner, Result<Cluster, CounterError>) {
    if !i.ready then (i, Err(NotReady))
    else if self.replicas == 1 then (i, Ok(View(i.views, path)))
    else FinishedRead(self.replicas, Applied(i, x.meanwhile), path, View(i.views, path), AnswersTo(self, x))
  }

  /** What a write needs of the cluster: that it has formed, which a read finds out. */
  ghost function Forming(self: Self, i: Inner, path: string, x: Exchange): (Inner, Option<CounterError>) {
    if i.formed then (i, None)
    else
      var (i', r) := ReadCall(self, i, path, x);
      (i', if r.Err? then Some(r.error) else None)
  }

  ghost function WriteCall(self: Self, i: Inner, path: string, update: Cluster, first: Exchange, x: Exchange)
      : (Inner, Result<Cluster, CounterError>)
  {
    if !i.ready then (i, Err(NotReady))
    else
      var (found, error) := Forming(self, i, path, first);
      if error.Some? then (found, Err(error.value))
      else
        var (m, merged) := MergeCluster(found.views, path, update);
        var raised := found.(views := m);
        if merged.None? then (raised, Err(CounterLimit))
        else if self.replicas == 1 then (raised, Ok(merged.value))
        else FinishedWrite(self.replicas, Applied(raised, x.meanwhile), path, merged.value, AnswersTo(self, x))
  }

  function RaiseUpdate(node: U64, entry: Entry): Cluster {
    Cluster(0, map[node := entry])
  }

  /** One epoch up, the entry set to the store's mark; refused at the largest epoch. */
  function ResetUpdate(current: Cluster, node: U64, mark: U64): Option<Cluster> {
    if current.epoch == U64_MAX then None
    else Some(Cluster(current.epoch + 1, map[node := Entry(current.epoch + 1, mark)]))
  }

  /** The three rounds a call may run: a reset's read, the read of a write that must form the cluster, the write. */
  datatype Exchanges = Exchanges(asked: Exchange, first: Exchange, sent: Exchange)

  ghost function RaiseCall(self: Self, i: Inner, path: string, node: U64, entry: Entry, xs: Exchanges)
      : (Inner, Result<Cluster, CounterError>)
  {
    WriteCall(self, i, path, RaiseUpdate(node, entry), xs.first, xs.sent)
  }

  ghost function ResetCall(self: Self, i: Inner, path: string, node: U64, mark: U64, xs: Exchanges)
      : (Inner, Result<Cluster, CounterError>)
  {
    var (read, current) := ReadCall(self, i, path, xs.asked);
    if current.Err? then (read, current)
    else
      var update := ResetUpdate(current.value, node, mark);
      if update.None? then (read, Err(CounterLimit)) else WriteCall(self, read, path, update.value, xs.first, xs.sent)
  }

  // ---- what whole calls promise ----

  lemma {:induction false} AppliedGrows(i: Inner, events: seq<Event>)
    requires Within(i.views)
    ensures var i' := Applied(i, events);
            && Grows(i, i') && Within(i'.views) && i'.ready == i.ready
    decreases |events|
  {
    hide Within, MapLe, MergeCluster;
    if events == [] {
      GrowsIsReflexive(i);
    } else {
      var before := Applied(i, events[..|events| - 1]);
      AppliedGrows(i, events[..|events| - 1]);
      match events[|events| - 1]
      case Formed =>
      case Merged(path, counters) =>
        MergeClusterOnlyRaises(before.views, path, counters);
        MapLeIsTransitive(i.views, before.views, Applied(i, events).views);
    }
  }

  lemma GrowsIsTransitive(i: Inner, j: Inner, k: Inner)
    requires Grows(i, j) && Grows(j, k)
    ensures Grows(i, k)
  {
    MapLeIsTransitive(i.views, j.views, k.views);
    hide MapLe;
  }

  lemma FinishedReadGrows(n: nat, i: Inner, path: string, view: Cluster, answers: seq<Answer>)
    requires Within(i.views)
    ensures var (i', r) := FinishedRead(n, i, path, view, answers);
            && Grows(i, i') && Within(i'.views) && i'.ready == i.ready
            && i'.formed == FindsFormed(n, i, answers)
            && (r.Ok? ==> FoldViews(view, Collect(ReadyOnes(answers), path)) == Some(r.value)
                          && View(i'.views, path) == Join(View(i.views, path), r.value))
  {
    hide Within, MapLe, Join, FoldViews, Collect, ReadyOnes, AnyFormed, View, MergeCluster;
    GrowsIsReflexive(i);
    var told := LearnFormed(i);
    var folded := FoldViews(view, Collect(ReadyOnes(answers), path));
    InstallGrows(i, path, folded);
    InstallGrows(told, path, folded);
    InstalledViewIsJoined(i, path, folded);
    InstalledViewIsJoined(told, path, folded);
  }

  lemma InstalledViewIsJoined(i: Inner, path: string, folded: Option<Cluster>)
    ensures var (i', r) := Install(i, path, folded);
            r.Some? ==> r == folded && View(i'.views, path) == Join(View(i.views, path), r.value)
  {
    if folded.Some? && MergeCluster(i.views, path, folded.value).1.Some? {
      MergeClusterAccepts(i.views, path, folded.value);
    }
  }

  lemma FinishedWriteGrows(n: nat, i: Inner, path: string, view: Cluster, answers: seq<Answer>)
    requires Within(i.views)
    ensures var (i', r) := FinishedWrite(n, i, path, view, answers);
            && Grows(i, i') && Within(i'.views) && i'.ready == i.ready && i'.formed == i.formed
            && (r.Ok? ==> FoldViews(view, Collect(answers, path)) == Some(r.value)
                          && View(i'.views, path) == Join(View(i.views, path), r.value))
  {
    hide Within, MapLe, Join, FoldViews, Collect, View, MergeCluster;
    GrowsIsReflexive(i);
    var folded := FoldViews(view, Collect(answers, path));
    InstallGrows(i, path, folded);
    InstalledViewIsJoined(i, path, folded);
  }

  /** A read, answered or refused, only raises; what it answers it also keeps. */
  lemma ReadCallGrows(self: Self, i: Inner, path: string, x: Exchange)
    requires Within(i.views)
    ensures var (i', r) := ReadCall(self, i, path, x);
            && Grows(i, i') && Within(i'.views) && i'.ready == i.ready
            && (r.Ok? ==> Le(View(i.views, path), r.value) && Le(r.value, View(i'.views, path)))
            && (r.Ok? && self.replicas > 1 ==> i'.formed)
  {
    hide Within, MapLe, FinishedRead, AnswersTo, Grows, Le, Join;
    GrowsIsReflexive(i);
    ViewIsWithin(i.views, path);
    LeIsReflexive(View(i.views, path));
    if i.ready && self.replicas != 1 {
      var (later, answers) := (Applied(i, x.meanwhile), AnswersTo(self, x));
      AppliedGrows(i, x.meanwhile);
      FinishedReadGrows(self.replicas, later, path, View(i.views, path), answers);
      var (i', r) := FinishedRead(self.replicas, later, path, View(i.views, path), answers);
      GrowsIsTransitive(i, later, i');
      if r.Ok? {
        FoldedViewIsTheJoin(View(i.views, path), ReadyOnes(answers), path);
        JoinIsLeastUpperBound(View(later.views, path), r.value);
        FormedWhenOk(self.replicas, later, path, View(i.views, path), answers);
      }
    }
  }

  lemma FormedWhenOk(n: nat, i: Inner, path: string, view: Cluster, answers: seq<Answer>)
    requires FinishedRead(n, i, path, view, answers).1.Ok?
    ensures FindsFormed(n, i, answers)
  {
    hide FoldViews, Collect, ReadyOnes, AnyFormed, Install;
  }

  lemma ViewIsWithin(m: CounterMap, path: string)
    requires Within(m)
    ensures ClusterWithin(View(m, path))
  {
  }

  /** No write is sent before the cluster has formed. */
  lemma FormingForms(self: Self, i: Inner, path: string, x: Exchange)
    requires Within(i.views) && self.replicas >= 1 && (self.replicas == 1 && i.ready ==> i.formed)
    ensures i.ready && Forming(self, i, path, x).1.None? ==> Forming(self, i, path, x).0.formed
  {
    hide Within, ReadCall, Le, Grows;
    ReadCallGrows(self, i, path, x);
    var (i', r) := ReadCall(self, i, path, x);
    assert r.Ok? && self.replicas > 1 ==> i'.formed;
  }

  lemma FormingGrows(self: Self, i: Inner, path: string, x: Exchange)
    requires Within(i.views)
    ensures var (i', e) := Forming(self, i, path, x);
            Grows(i, i') && Within(i'.views) && i'.ready == i.ready
  {
    hide Within, Grows, ReadCall, Le;
    GrowsIsReflexive(i);
    ReadCallGrows(self, i, path, x);
  }

  /**
   A write, answered or refused, only raises. When it is answered, the answer has the
   update and all that was held here before, and is kept here.
   */
  lemma WriteCallGrows(self: Self, i: Inner, path: string, update: Cluster, first: Exchange, x: Exchange)
    requires Within(i.views)
    ensures var (i', r) := WriteCall(self, i, path, update, first, x);
            && Grows(i, i') && Within(i'.views) && i'.ready == i.ready
            && (r.Ok? ==> Le(update, r.value) && Le(View(i.views, path), r.value) && Le(r.value, View(i'.views, path)))
  {
    hide Within, MapLe, Forming, Grows, Le, Join, FinishedWrite, AnswersTo, MergeCluster;
    GrowsIsReflexive(i);
    if i.ready {
      var (found, error) := Forming(self, i, path, first);
      FormingGrows(self, i, path, first);
      if error.None? {
        RaisedHasBoth(i, found, path, update);
        var (m, merged) := MergeCluster(found.views, path, update);
        var raised := found.(views := m);
        if merged.Some? && self.replicas != 1 {
          SentHasBoth(self, raised, path, merged.value, x);
          var (i', r) := FinishedWrite(self.replicas, Applied(raised, x.meanwhile), path, merged.value, AnswersTo(self, x));
          GrowsIsTransitive(i, raised, i');
          if r.Ok? {
            LeIsTransitive(update, merged.value, r.value);
            LeIsTransitive(View(i.views, path), merged.value, r.value);
          }
        }
      }
    }
  }

  lemma RaisedHasBoth(i: Inner, found: Inner, path: string, update: Cluster)
    requires Within(found.views) && Grows(i, found) && found.ready == i.ready
    ensures var (m, merged) := MergeCluster(found.views, path, update);
            var raised := found.(views := m);
            && Grows(i, raised) && Within(m)
            && (merged.Some? ==> Le(update, merged.value) && Le(View(i.views, path), merged.value)
                                 && merged.value == View(m, path) && ClusterWithin(merged.value)
                                 && Le(merged.value, View(m, path)))
  {
    hide Within, Le, Join;
    var (m, merged) := MergeCluster(found.views, path, update);
    MergeClusterOnlyRaises(found.views, path, update);
    assert Grows(found, found.(views := m));
    GrowsIsTransitive(i, found, found.(views := m));
    if merged.Some? {
      MergeClusterAccepts(found.views, path, update);
      JoinIsLeastUpperBound(View(found.views, path), update);
      LeIsTransitive(View(i.views, path), View(found.views, path), merged.value);
      ViewIsWithin(m, path);
      LeIsReflexive(merged.value);
    }
  }

  lemma SentHasBoth(self: Self, raised: Inner, path: string, view: Cluster, x: Exchange)
    requires Within(raised.views) && view == View(raised.views, path)
    ensures var (i', r) := FinishedWrite(self.replicas, Applied(raised, x.meanwhile), path, view, AnswersTo(self, x));
            && Grows(raised, i') && Within(i'.views) && i'.ready == raised.ready
            && (r.Ok? ==> Le(view, r.value) && Le(r.value, View(i'.views, path)))
  {
    hide Within, MapLe, Grows, Le, Join, FinishedWrite, AnswersTo;
    var (later, answers) := (Applied(raised, x.meanwhile), AnswersTo(self, x));
    AppliedGrows(raised, x.meanwhile);
    FinishedWriteGrows(self.replicas, later, path, view, answers);
    var (i', r) := FinishedWrite(self.replicas, later, path, view, answers);
    GrowsIsTransitive(raised, later, i');
    if r.Ok? {
      ViewIsWithin(raised.views, path);
      FoldedViewIsTheJoin(view, answers, path);
      JoinIsLeastUpperBound(View(later.views, path), r.value);
    }
  }

  /** What a read of a ready replica with peers answers, and each refusal with its cause. */
  lemma ReadCallIsExact(self: Self, i: Inner, path: string, x: Exchange)
    requires Within(i.views) && i.ready && self.replicas != 1
    ensures var (later, answers) := (Applied(i, x.meanwhile), AnswersTo(self, x));
            var ready := ReadyOnes(answers);
            var joined := JoinAll(View(i.views, path), Collect(ready, path));
            ReadCall(self, i, path, x).1
            == if !FindsFormed(self.replicas, later, answers) then Err(NotFormed)
               else if |ready| + 1 < Majority(self.replicas) then Err(TooFewReplicas)
               else if !CanKeep(later, path, joined) then Err(CounterLimit)
               else Ok(joined)
  {
    hide AnswersTo, Within, CanKeep, ReadTail, ReadyOnes, JoinAll, Collect, Applied;
    ViewIsWithin(i.views, path);
    ReadSucceedsIff(self.replicas, Applied(i, x.meanwhile), path, View(i.views, path), AnswersTo(self, x));
  }

  /** A limit refuses an update here: a new cluster past the number kept, or too many nodes. */
  predicate CanRaise(i: Inner, path: string, update: Cluster) {
    (path in i.views || |i.views| < MAX_COUNTER_CLUSTERS) && Fits(View(i.views, path), update)
  }

  /** What a write of a ready replica in a formed cluster answers, and each refusal with its cause. */
  lemma WriteCallIsExact(self: Self, i: Inner, path: string, update: Cluster, first: Exchange, x: Exchange)
    requires Within(i.views) && i.ready && Forming(self, i, path, first).1.None?
    ensures var found := Forming(self, i, path, first).0;
            var held := Join(View(found.views, path), update);
            var raised := found.(views := found.views[path := held]);
            var (later, answers) := (Applied(raised, x.meanwhile), AnswersTo(self, x));
            var joined := JoinAll(held, Collect(answers, path));
            WriteCall(self, i, path, update, first, x).1
            == if !CanRaise(found, path, update) then Err(CounterLimit)
               else if self.replicas == 1 then Ok(held)
               else if |answers| + 1 < Majority(self.replicas) then Err(TooFewReplicas)
               else if !CanKeep(later, path, joined) then Err(CounterLimit)
               else Ok(joined)
  {
    hide AnswersTo, Within, CanKeep, WriteTail, JoinAll, Collect, Applied, Forming, Join;
    var found := Forming(self, i, path, first).0;
    FormingGrows(self, i, path, first);
    MergedIffCanRaise(found, path, update);
    hide MergeCluster, CanRaise;
    if CanRaise(found, path, update) {
      var held := Join(View(found.views, path), update);
      var raised := found.(views := found.views[path := held]);
      WriteSucceedsIff(self.replicas, Applied(raised, x.meanwhile), path, held, AnswersTo(self, x));
    }
  }

  lemma MergedIffCanRaise(i: Inner, path: string, update: Cluster)
    requires Within(i.views)
    ensures var (m, merged) := MergeCluster(i.views, path, update);
            && (merged.Some? <==> CanRaise(i, path, update))
            && (merged.Some? ==> merged.value == Join(View(i.views, path), update) && m == i.views[path := merged.value]
                                 && ClusterWithin(merged.value))
  {
    if MergeCluster(i.views, path, update).1.Some? {
      MergeClusterAccepts(i.views, path, update);
      JoinKeepsLimit(View(i.views, path), update);
    }
    hide Join;
  }

  /** The views a write merges with its update: what was held here, and what the counted answers hold. */
  ghost function MergedViews(self: Self, i: Inner, path: string, first: Exchange, x: Exchange): seq<Cluster> {
    [View(Forming(self, i, path, first).0.views, path)]
    + if self.replicas == 1 then [] else Collect(AnswersTo(self, x), path)
  }

  /** An answered write of one entry answers the largest of each value it and the merged views had. */
  lemma WriteOfOneEntry(self: Self, i: Inner, path: string, epoch: U64, node: U64, entry: Entry, first: Exchange, x: Exchange)
    requires Within(i.views) && WriteCall(self, i, path, Cluster(epoch, map[node := entry]), first, x).1.Ok?
    ensures OneEntryWritten(WriteCall(self, i, path, Cluster(epoch, map[node := entry]), first, x).1.value,
                            MergedViews(self, i, path, first, x), epoch, node, entry)
  {
    var update := Cluster(epoch, map[node := entry]);
    WriteNeedsForming(self, i, path, update, first, x);
    WriteCallIsExact(self, i, path, update, first, x);
    hide Within, WriteCall, Forming, AnswersTo, CanKeep, CanRaise, Collect, OneEntryWritten, Applied;
    var held := View(Forming(self, i, path, first).0.views, path);
    if self.replicas == 1 {
      JoinWritesOneEntry(held, [], epoch, node, entry);
      assert JoinAll(Join(held, update), []) == Join(held, update);
    } else {
      JoinWritesOneEntry(held, Collect(AnswersTo(self, x), path), epoch, node, entry);
    }
  }

  lemma WriteNeedsForming(self: Self, i: Inner, path: string, update: Cluster, first: Exchange, x: Exchange)
    requires WriteCall(self, i, path, update, first, x).1.Ok?
    ensures i.ready && Forming(self, i, path, first).1.None?
  {
    hide Forming, FinishedWrite;
  }

  /**
   An answered raise, value by value: the node's entry is the largest of the one asked for
   and those the merged views had, so exactly the one asked for if and only if none was
   above it; the epoch and every other node are the largest the merged views had.
   */
  lemma RaiseIsExact(self: Self, i: Inner, path: string, node: U64, entry: Entry, xs: Exchanges)
    requires Within(i.views) && RaiseCall(self, i, path, node, entry, xs).1.Ok?
    ensures var v := RaiseCall(self, i, path, node, entry, xs).1.value;
            var views := MergedViews(self, i, path, xs.first, xs.sent);
            && OneEntryWritten(v, views, 0, node, entry)
            && (v.nodes[node] == entry <==> forall x :: x in views ==> EntryLe(EntryOf(x, node), entry))
  {
    hide Within, WriteCall, MergedViews, OneEntryWritten;
    WriteOfOneEntry(self, i, path, 0, node, entry, xs.first, xs.sent);
    WrittenEntryStandsIff(RaiseCall(self, i, path, node, entry, xs).1.value, MergedViews(self, i, path, xs.first, xs.sent), 0, node, entry);
  }

  /** An answered reset likewise, with the epoch after the one its read found, in the epoch and in the node's entry. */
  lemma ResetIsExact(self: Self, i: Inner, path: string, node: U64, mark: U64, xs: Exchanges)
    requires Within(i.views) && ResetCall(self, i, path, node, mark, xs).1.Ok?
    ensures var (read, current) := ReadCall(self, i, path, xs.asked);
            var v := ResetCall(self, i, path, node, mark, xs).1.value;
            && current.Ok? && current.value.epoch < U64_MAX
            && var views := MergedViews(self, read, path, xs.first, xs.sent);
               var asked := Entry(current.value.epoch + 1, mark);
               && OneEntryWritten(v, views, current.value.epoch + 1, node, asked)
               && (v.nodes[node] == asked <==> forall x :: x in views ==> EntryLe(EntryOf(x, node), asked))
  {
    hide Within, WriteCall, ReadCall, MergedViews, OneEntryWritten;
    var (read, current) := ReadCall(self, i, path, xs.asked);
    ReadCallKeepsWithin(self, i, path, xs.asked);
    var epoch: U64 := current.value.epoch + 1;
    WriteOfOneEntry(self, read, path, epoch, node, Entry(epoch, mark), xs.first, xs.sent);
    WrittenEntryStandsIff(ResetCall(self, i, path, node, mark, xs).1.value, MergedViews(self, read, path, xs.first, xs.sent), epoch, node, Entry(epoch, mark));
  }

  lemma ReadCallKeepsWithin(self: Self, i: Inner, path: string, x: Exchange)
    requires Within(i.views)
    ensures Within(ReadCall(self, i, path, x).0.views)
  {
    hide Within, ReadCall, Le, Grows;
    ReadCallGrows(self, i, path, x);
  }

  /** An answered raise holds an entry at or above the one asked for. */
  lemma RaisedEntry(self: Self, i: Inner, path: string, node: U64, entry: Entry, xs: Exchanges)
    requires Within(i.views) && RaiseCall(self, i, path, node, entry, xs).1.Ok?
    ensures var v := RaiseCall(self, i, path, node, entry, xs).1.value;
            node in v.nodes && EntryLe(entry, v.nodes[node])
  {
    hide WriteCall;
    WriteCallGrows(self, i, path, RaiseUpdate(node, entry), xs.first, xs.sent);
    assert node in RaiseUpdate(node, entry).nodes;
  }

  /**
   An answered reset read the cluster at some epoch, no earlier than the one held here, and
   answers a later one, with an entry at or above the pair of that next epoch and the mark.
   */
  lemma ResetEntry(self: Self, i: Inner, path: string, node: U64, mark: U64, xs: Exchanges)
    requires Within(i.views) && ResetCall(self, i, path, node, mark, xs).1.Ok?
    ensures var (read, current) := ReadCall(self, i, path, xs.asked);
            var v := ResetCall(self, i, path, node, mark, xs).1.value;
            && current.Ok? && View(i.views, path).epoch <= current.value.epoch < v.epoch
            && Le(current.value, v)
            && node in v.nodes && EntryLe(Entry(current.value.epoch + 1, mark), v.nodes[node])
  {
    hide WriteCall, ReadCall, Within;
    var (read, current) := ReadCall(self, i, path, xs.asked);
    ReadCallGrows(self, i, path, xs.asked);
    var update := ResetUpdate(current.value, node, mark);
    WriteCallGrows(self, read, path, update.value, xs.first, xs.sent);
    assert node in update.value.nodes;
    var v := ResetCall(self, i, path, node, mark, xs).1.value;
    LeIsTransitive(current.value, View(read.views, path), v);
  }
}
