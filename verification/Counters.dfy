/**
 One replica's counters as the service holds them: fields under a lock, changed in
 place (`Counters` and `Inner` in mero-kms/src/counters.rs). Every method is proved to
 do what the functions of `CounterReplica` and `CounterCalls` say, so what
 `CounterTheorems` and `CounterRefinement` prove of those functions holds of these methods.
 */
module Counters {
  import opened Outcomes
  import opened CounterViews
  import opened CounterReplica
  import opened CounterCalls
  import opened KeyOrder

  const GENESIS_WINDOW: nat := 600

  // ---- merging values, with the source's loops ----

  /** The nodes of `c` in `keys`. */
  ghost function Only(c: Cluster, keys: set<U64>): Cluster {
    Cluster(c.epoch, map k | k in c.nodes && k in keys :: c.nodes[k])
  }

  lemma JoinOneMore(mine: Cluster, other: Cluster, done: set<U64>, node: U64)
    requires node in other.nodes && node !in done
    ensures var nodes := Join(mine, Only(other, done)).nodes;
            Join(mine, Only(other, done + {node})).nodes
            == nodes[node := EntryMax(if node in nodes then nodes[node] else ZERO, other.nodes[node])]
  {
  }

  lemma JoinWithAll(mine: Cluster, other: Cluster)
    ensures Only(other, other.nodes.Keys) == other
    ensures Join(mine, Only(other, {})).nodes == mine.nodes
  {
    assert Only(other, {}).nodes == map[];
    assert Join(mine, Only(other, {})).nodes.Keys == mine.nodes.Keys;
  }

  /** Take the larger of each value. Refused, untouched, past the node limit. */
  method MergeClusters(mine: Cluster, other: Cluster) returns (merged: Option<Cluster>)
    ensures merged == if Fits(mine, other) then Some(Join(mine, other)) else None
  {
    var added := other.nodes.Keys - mine.nodes.Keys;
    assert mine.nodes.Keys + other.nodes.Keys == mine.nodes.Keys + added;
    assert |mine.nodes| == |mine.nodes.Keys|;
    if |mine.nodes| + |added| > MAX_COUNTER_NODES_PER_CLUSTER {
      return None;
    }
    var nodes := MergeNodes(mine, other);
    merged := Some(Cluster(Max(mine.epoch, other.epoch), nodes));
  }

  method MergeNodes(mine: Cluster, other: Cluster) returns (nodes: map<U64, Entry>)
    ensures nodes == Join(mine, other).nodes
  {
    hide Join;
    nodes := mine.nodes;
    var todo := other.nodes.Keys;
    JoinWithAll(mine, other);
    assert other.nodes.Keys - todo == {};
    while todo != {}
      invariant todo <= other.nodes.Keys
      invariant nodes == Join(mine, Only(other, other.nodes.Keys - todo)).nodes
      decreases |todo|
    {
      var node :| node in todo;
      JoinOneMore(mine, other, other.nodes.Keys - todo, node);
      assert other.nodes.Keys - (todo - {node}) == (other.nodes.Keys - todo) + {node};
      var entry := if node in nodes then nodes[node] else ZERO;
      nodes := nodes[node := EntryMax(entry, other.nodes[node])];
      todo := todo - {node};
    }
    assert other.nodes.Keys - todo == other.nodes.Keys;
  }

  /** `m` joined with `from` at the paths in `done`. */
  ghost function JoinAt(m: CounterMap, from: CounterMap, done: set<string>): CounterMap {
    map p | p in m.Keys + done :: if p in done then Join(View(m, p), View(from, p)) else View(m, p)
  }

  lemma JoinAtAll(m: CounterMap, from: CounterMap)
    ensures JoinAt(m, from, from.Keys) == JoinMap(m, from)
    ensures JoinAt(m, from, {}) == m
  {
    forall p | p in m.Keys + from.Keys
      ensures JoinAt(m, from, from.Keys)[p] == JoinMap(m, from)[p]
    {
      JoinEmpty(View(m, p));
    }
    assert m.Keys + {} == m.Keys;
  }

  lemma JoinEmpty(c: Cluster)
    ensures Join(c, EMPTY) == c
  {
    assert Join(c, EMPTY).nodes == c.nodes;
  }

  lemma JoinAtIsBetween(m: CounterMap, from: CounterMap, done: set<string>)
    requires done <= from.Keys
    ensures MapLe(m, JoinAt(m, from, done)) && MapLe(JoinAt(m, from, done), JoinMap(m, from))
  {
    forall p
      ensures Le(View(m, p), View(JoinAt(m, from, done), p))
      ensures Le(View(JoinAt(m, from, done), p), View(JoinMap(m, from), p))
    {
      JoinMapViews(m, from, p);
      JoinIsLeastUpperBound(View(m, p), View(from, p));
      LeIsReflexive(View(m, p));
      LeIsReflexive(Join(View(m, p), View(from, p)));
      LeIsReflexive(View(JoinMap(m, from), p));
    }
  }

  /** A map that outgrows a limit on the way outgrows it at the end. */
  lemma SmallerIsWithin(m: CounterMap, larger: CounterMap)
    requires Within(larger) && m.Keys <= larger.Keys
    requires forall p :: p in m ==> m[p].nodes.Keys <= larger[p].nodes.Keys
    ensures Within(m)
  {
    SubsetIsSmaller(m.Keys, larger.Keys);
    forall p | p in m ensures ClusterWithin(m[p]) {
      SubsetIsSmaller(m[p].nodes.Keys, larger[p].nodes.Keys);
    }
  }

  lemma JoinAtNext(m: CounterMap, from: CounterMap, done: set<string>, path: string)
    requires done <= from.Keys && path in from && path !in done
    ensures View(JoinAt(m, from, done), path) == View(m, path)
    ensures JoinAt(m, from, done)[path := Join(View(m, path), from[path])] == JoinAt(m, from, done + {path})
  {
    hide Join;
    var now, next := JoinAt(m, from, done), JoinAt(m, from, done + {path});
    assert View(from, path) == from[path];
    forall p | p in next && p != path
      ensures p in now && now[p] == next[p]
    {
      assert p in done + {path} <==> p in done;
    }
  }

  lemma NextPathFits(m: CounterMap, from: CounterMap, done: set<string>, path: string)
    requires done <= from.Keys && path in from && path !in done
    requires MergeCluster(JoinAt(m, from, done), path, from[path]).1.Some?
    ensures MergeCluster(JoinAt(m, from, done), path, from[path]).0 == JoinAt(m, from, done + {path})
  {
    JoinAtNext(m, from, done, path);
    MergeClusterAccepts(JoinAt(m, from, done), path, from[path]);
    hide *;
  }

  /** The cluster limit refuses the next path. */
  lemma TooManyPaths(m: CounterMap, from: CounterMap, done: set<string>, path: string)
    requires done <= from.Keys && path in from && path !in JoinAt(m, from, done)
    requires |JoinAt(m, from, done)| >= MAX_COUNTER_CLUSTERS
    ensures |JoinMap(m, from)| > MAX_COUNTER_CLUSTERS
  {
    hide Join, View;
    var now, all := JoinAt(m, from, done), JoinMap(m, from);
    assert now.Keys + {path} <= all.Keys;
    SubsetIsSmaller(now.Keys + {path}, all.Keys);
    assert |now.Keys| == |now| && |all.Keys| == |all|;
    assert |now.Keys + {path}| == |now.Keys| + 1;
  }

  /** The node limit refuses the next path. */
  lemma TooManyNodes(m: CounterMap, from: CounterMap, path: string)
    requires path in from && !Fits(View(m, path), from[path])
    ensures path in JoinMap(m, from) && !ClusterWithin(JoinMap(m, from)[path])
  {
    JoinKeepsLimit(View(m, path), from[path]);
    hide Join, Fits, ClusterWithin;
    assert View(from, path) == from[path];
  }

  lemma NextPathIsRefused(m: CounterMap, from: CounterMap, done: set<string>, path: string)
    requires done <= from.Keys && path in from && path !in done
    requires MergeCluster(JoinAt(m, from, done), path, from[path]).1.None?
    ensures !Within(JoinMap(m, from))
  {
    JoinAtNext(m, from, done, path);
    hide Join, Fits, View, JoinAt, JoinMap, ClusterWithin;
    var now := JoinAt(m, from, done);
    if path !in now && |now| >= MAX_COUNTER_CLUSTERS {
      TooManyPaths(m, from, done, path);
    } else {
      TooManyNodes(m, from, path);
    }
  }

  lemma RefusedIsBetween(m: CounterMap, from: CounterMap, done: set<string>, path: string, before: CounterMap, after: CounterMap)
    requires done <= from.Keys && path in from && path !in done && before == JoinAt(m, from, done)
    requires MergeCluster(before, path, from[path]) == (after, None)
    ensures !Within(JoinMap(m, from)) && MapLe(m, after) && MapLe(after, JoinMap(m, from))
  {
    NextPathIsRefused(m, from, done, path);
    JoinAtIsBetween(m, from, done);
    MergeClusterRefuses(before, path, from[path]);
    hide JoinAt, JoinMap, MergeCluster, View;
  }

  lemma {:induction false} JoinMapsGrowKeys(m: CounterMap, maps: seq<CounterMap>)
    ensures m.Keys <= JoinMaps(m, maps).Keys
    ensures forall p :: p in m ==> m[p].nodes.Keys <= JoinMaps(m, maps)[p].nodes.Keys
    decreases |maps|
  {
    if maps != [] {
      JoinMapsGrowKeys(JoinMap(m, maps[0]), maps[1..]);
      forall p | p in m ensures m[p].nodes.Keys <= JoinMaps(m, maps)[p].nodes.Keys {
        assert m[p].nodes.Keys <= JoinMap(m, maps[0])[p].nodes.Keys;
      }
    }
  }

  lemma {:induction false} JoinMapsAppend(m: CounterMap, maps: seq<CounterMap>, last: CounterMap)
    ensures JoinMaps(m, maps + [last]) == JoinMap(JoinMaps(m, maps), last)
    decreases |maps|
  {
    if maps == [] {
      assert (maps + [last])[1..] == [];
    } else {
      assert (maps + [last])[1..] == maps[1..] + [last];
      JoinMapsAppend(JoinMap(m, maps[0]), maps[1..], last);
    }
  }

  /** The maps joined so far are below all of them joined. */
  lemma JoinMapsPrefix(m: CounterMap, maps: seq<CounterMap>, k: nat)
    requires k <= |maps|
    ensures MapLe(JoinMaps(m, maps[..k]), JoinMaps(m, maps))
    ensures Within(JoinMaps(m, maps)) ==> Within(JoinMaps(m, maps[..k]))
    decreases |maps| - k
  {
    if k == |maps| {
      assert maps[..k] == maps;
      MapLeIsReflexive(JoinMaps(m, maps));
    } else {
      assert maps[..k + 1] == maps[..k] + [maps[k]];
      JoinMapsAppend(m, maps[..k], maps[k]);
      JoinMapIsLeastUpperBound(JoinMaps(m, maps[..k]), maps[k]);
      JoinMapsPrefix(m, maps, k + 1);
      MapLeIsTransitive(JoinMaps(m, maps[..k]), JoinMaps(m, maps[..k + 1]), JoinMaps(m, maps));
      if Within(JoinMaps(m, maps)) {
        JoinMapsGrowKeys(JoinMaps(m, maps[..k]), [maps[k]]);
        assert [maps[k]][1..] == [];
        SmallerIsWithin(JoinMaps(m, maps[..k]), JoinMaps(m, maps[..k + 1]));
      }
    }
  }

  lemma MergeLeastKey(m: CounterMap, from: CounterMap, path: string, todo: set<string>)
    requires todo <= from.Keys && Least(path, todo)
    ensures var (m', merged) := MergeCluster(m, path, from[path]);
            MergeKeys(m, from, InOrder(todo))
            == if merged.None? then (m', false) else MergeKeys(m', from, InOrder(todo - {path}))
  {
    hide MergeCluster;
    LeastComesFirst(path, todo);
    var rest := InOrder(todo - {path});
    assert ([path] + rest)[0] == path && ([path] + rest)[1..] == rest;
  }

  lemma NothingToMerge(m: CounterMap, from: CounterMap)
    ensures MergeKeys(m, from, InOrder({})) == (m, true)
  {
  }

  lemma SyncNext(m: CounterMap, maps: seq<CounterMap>, k: nat)
    requires k < |maps|
    ensures var (m', ok) := MergeMapped(m, maps[k]);
            MergeMaps(m, maps[k..]) == if ok then MergeMaps(m', maps[k + 1..]) else (m', false)
  {
    hide MergeMapped;
    assert maps[k..][0] == maps[k] && maps[k..][1..] == maps[k + 1..];
  }

  lemma NothingSynced(m: CounterMap, maps: seq<CounterMap>)
    ensures JoinMaps(m, maps[..0]) == m
  {
  }

  lemma SomeoneIsReady(counted: seq<Counted>)
    requires ReadyOnes(AnswersOf(counted)) != []
    ensures exists c :: c in counted && c.answer.ready
  {
    var answers := AnswersOf(counted);
    ReadyOnesAreTheReadyOnes(answers);
    var a := ReadyOnes(answers)[0];
    assert a in ReadyOnes(answers);
    var k :| 0 <= k < |answers| && answers[k] == a;
    assert counted[k] in counted && counted[k].answer.ready;
  }

  lemma SyncedOneMore(m: CounterMap, maps: seq<CounterMap>, k: nat)
    requires k < |maps|
    ensures JoinMap(JoinMaps(m, maps[..k]), maps[k]) == JoinMaps(m, maps[..k + 1])
  {
    assert maps[..k + 1] == maps[..k] + [maps[k]];
    JoinMapsAppend(m, maps[..k], maps[k]);
  }

  /** A sync refused part of the way has merged no more than all of it. */
  lemma SyncIsRefused(m: CounterMap, maps: seq<CounterMap>, k: nat, after: CounterMap)
    requires k < |maps|
    requires MapLe(JoinMaps(m, maps[..k]), after) && MapLe(after, JoinMaps(m, maps[..k + 1]))
    requires !Within(JoinMaps(m, maps[..k + 1]))
    ensures !Within(JoinMaps(m, maps)) && MapLe(m, after) && MapLe(after, JoinMaps(m, maps))
  {
    hide Within, JoinMaps, MapLe;
    JoinMapsIsUpperBound(m, maps[..k]);
    JoinMapsPrefix(m, maps, k + 1);
    MapLeIsTransitive(m, JoinMaps(m, maps[..k]), after);
    MapLeIsTransitive(after, JoinMaps(m, maps[..k + 1]), JoinMaps(m, maps));
  }

  // ---- folding the answers ----

  lemma FoldNone(acc: Cluster, answers: seq<Answer>, path: string)
    requires answers == []
    ensures FoldViews(acc, Collect(answers, path)) == Some(acc)
  {
  }

  /** One answer's part of a fold. */
  lemma FoldOne(acc: Cluster, answers: seq<Answer>, k: nat, path: string)
    requires k < |answers|
    ensures FoldViews(acc, Collect(answers[k..], path))
            == if path !in answers[k].counters then FoldViews(acc, Collect(answers[k + 1..], path))
               else if Fits(acc, answers[k].counters[path]) then
                 FoldViews(Join(acc, answers[k].counters[path]), Collect(answers[k + 1..], path))
               else None
  {
    assert answers[k..][0] == answers[k] && answers[k..][1..] == answers[k + 1..];
    var rest := Collect(answers[k + 1..], path);
    if path in answers[k].counters {
      assert Collect(answers[k..], path) == [answers[k].counters[path]] + rest;
      assert ([answers[k].counters[path]] + rest)[1..] == rest;
    } else {
      assert Collect(answers[k..], path) == rest;
    }
  }

  // ---- the replica ----

  class Counters {
    const replicaId: Id
    const replicas: nat
    var views: CounterMap
    var ready: bool
    var formed: bool
    var genesisUntil: Option<nat>

    ghost predicate Valid()
      reads this
    {
      && replicas >= 1 && Within(views)
      && (replicas == 1 && ready ==> formed)
    }

    /** The state the protocol sees at time `now`. */
    ghost function At(now: nat): Inner
      reads this
    {
      Inner(views, ready, formed, genesisUntil.Some? && genesisUntil.value > now)
    }

    constructor (replicaId: Id, replicas: nat)
      ensures Valid() && this.replicaId == replicaId && this.replicas == if replicas == 0 then 1 else replicas
      ensures forall now :: At(now) == FRESH
    {
      this.replicaId := replicaId;
      this.replicas := if replicas == 0 then 1 else replicas;
      views, ready, formed, genesisUntil := map[], false, false, None;
    }

    /** The replica that made the root is ready, in genesis; alone, it is formed at once. */
    method Bootstrap(now: nat)
      requires Valid()
      modifies this
      ensures Valid() && views == old(views) && ready
      ensures formed == (old(formed) || replicas == 1)
      ensures ReportsGenesis(At(now)) <==> !formed
      ensures !formed ==> genesisUntil == Some(now + 600)
    {
      ready := true;
      genesisUntil := Some(now + GENESIS_WINDOW);
      if replicas == 1 {
        LearnFormed();
      }
    }

    method LearnFormed()
      modifies this`formed, this`genesisUntil
      ensures formed && genesisUntil == if old(formed) then old(genesisUntil) else None
      ensures forall now :: At(now) == CounterReplica.LearnFormed(old(At(now)))
    {
      if !formed {
        formed := true;
        genesisUntil := None;
      }
    }

    /** Seconds of genesis left to report, while there are any: at least one. */
    method GenesisLeft(now: nat) returns (left: Option<nat>)
      ensures left.Some? <==> ReportsGenesis(At(now))
      ensures left.Some? ==> left.value >= 1 && now + left.value == genesisUntil.value
    {
      if formed || !ready || genesisUntil.None? || genesisUntil.value <= now {
        return None;
      }
      return Some(genesisUntil.value - now);
    }

    method Body(now: nat, nonce: Nonce, counters: CounterMap) returns (reply: Counted)
      ensures reply.answer == AnswerBody(At(now), replicaId, nonce, counters)
      ensures reply.answer.genesis ==> genesisUntil == Some(now + reply.genesisSecs)
    {
      var left := GenesisLeft(now);
      var answer := Answer(nonce, replicaId, ready, formed, left.Some?, counters);
      reply := Counted(answer, if left.Some? then left.value else 1);
    }

    /** Merge into one cluster, refusing a new cluster past the limit. */
    method MergeInto(path: string, counters: Cluster) returns (merged: Option<Cluster>)
      requires Valid()
      modifies this`views
      ensures Valid()
      ensures (views, merged) == MergeCluster(old(views), path, counters)
    {
      hide Within, MapLe, Join, Fits;
      MergeClusterOnlyRaises(views, path, counters);
      if path !in views && |views| >= MAX_COUNTER_CLUSTERS {
        return None;
      }
      if path !in views {
        views := views[path := EMPTY];
      }
      merged := MergeClusters(views[path], counters);
      if merged.Some? {
        views := views[path := merged.value];
      }
      assert views == MergeCluster(old(views), path, counters).0;
    }

    /** Merge a whole map, in key order; a refusal leaves what was merged before it. */
    method MergeMap(from: CounterMap) returns (ok: bool)
      requires Valid()
      modifies this`views
      ensures Valid()
      ensures (views, ok) == MergeMapped(old(views), from)
      ensures ok <==> Within(JoinMap(old(views), from))
      ensures ok ==> views == JoinMap(old(views), from)
      ensures MapLe(old(views), views) && MapLe(views, JoinMap(old(views), from))
    {
      hide MapLe, JoinAt, JoinMap, MergeCluster, Within, MergeKeys, Least;
      var todo := from.Keys;
      ghost var m := views;
      JoinAtAll(m, from);
      assert from.Keys - todo == {};
      while todo != {}
        invariant Valid() && todo <= from.Keys
        invariant views == JoinAt(m, from, from.Keys - todo)
        invariant MergeKeys(views, from, InOrder(todo)) == MergeMapped(m, from)
        decreases |todo|
      {
        SomeKeyIsLeast(todo);
        var path :| path in todo && Least(path, todo);
        ghost var done := from.Keys - todo;
        assert from.Keys - (todo - {path}) == done + {path};
        ghost var before := views;
        MergeLeastKey(before, from, path, todo);
        var merged := MergeInto(path, from[path]);
        if merged.None? {
          RefusedIsBetween(m, from, done, path, before, views);
          return false;
        }
        NextPathFits(m, from, done, path);
        todo := todo - {path};
      }
      assert from.Keys - todo == from.Keys;
      NothingToMerge(views, from);
      JoinAtIsBetween(m, from, from.Keys);
      ok := true;
    }

    /** Answer a peer's read: one cluster's counters, or all of them. */
    method AnswerRead(now: nat, nonce: Nonce, request: Request, told: bool) returns (reply: Counted)
      requires Valid() && !request.Merge?
      modifies this`formed, this`genesisUntil
      ensures Valid()
      ensures (At(now), Some(reply.answer)) == Reply(old(At(now)), replicaId, nonce, request, told)
      ensures reply.answer.genesis ==> genesisUntil == Some(now + reply.genesisSecs)
    {
      if told {
        LearnFormed();
      }
      var counters := views;
      if request.ReadOne? {
        counters := if request.path in views then map[request.path := views[request.path]] else map[];
      }
      reply := Body(now, nonce, counters);
    }

    /** Merge a peer's write and answer with the cluster's counters as now held. */
    method AnswerMerge(now: nat, nonce: Nonce, path: string, update: Cluster) returns (r: Result<Answer, CounterError>)
      requires Valid()
      modifies this
      ensures Valid()
      ensures (At(now), if r.Ok? then Some(r.value) else None)
              == Reply(old(At(now)), replicaId, nonce, Merge(path, update), true)
    {
      LearnFormed();
      var merged := MergeInto(path, update);
      if merged.None? {
        return Err(CounterLimit);
      }
      var body := Body(now, nonce, map[path := merged.value]);
      r := Ok(body.answer);
    }

    /** Collect the verified answers to `nonce`, one per replica id, never this replica's own. */
    method Round(replies: seq<PeerReply>, nonce: Nonce) returns (counted: seq<Counted>)
      ensures counted == CountedOf(replies, nonce, {replicaId})
    {
      var seen := {replicaId};
      counted := [];
      for k := 0 to |replies|
        invariant counted == CountedOf(replies[..k], nonce, {replicaId})
        invariant forall id :: id in seen <==> id == replicaId || exists c :: c in counted && c.answer.from == id
      {
        var reply := replies[k];
        CountOneMore(replies[..k], reply, nonce, {replicaId});
        assert replies[..k + 1] == replies[..k] + [reply];
        if !reply.Verified? || reply.answer.nonce != nonce {
          continue;
        }
        if reply.answer.from in seen {
          continue;
        }
        seen := seen + {reply.answer.from};
        ghost var before := counted;
        counted := counted + [Counted(reply.answer, reply.genesisSecs)];
        assert forall c :: c in counted <==> c in before || c == Counted(reply.answer, reply.genesisSecs);
      }
      assert replies[..|replies|] == replies;
    }

    /** Merge the answerers' views of one cluster into `view`. */
    method Fold(view: Cluster, path: string, answers: seq<Answer>) returns (folded: Option<Cluster>)
      ensures folded == FoldViews(view, Collect(answers, path))
    {
      hide Join, Fits, FoldViews, Collect;
      var acc := view;
      assert answers[0..] == answers;
      for k := 0 to |answers|
        invariant FoldViews(acc, Collect(answers[k..], path)) == FoldViews(view, Collect(answers, path))
      {
        FoldOne(acc, answers, k, path);
        if path in answers[k].counters {
          var merged := MergeClusters(acc, answers[k].counters[path]);
          if merged.None? {
            return None;
          }
          acc := merged.value;
        }
      }
      FoldNone(acc, answers[|answers|..], path);
      folded := Some(acc);
    }

    method Ready(answers: seq<Answer>) returns (ready: seq<Answer>)
      ensures ready == ReadyOnes(answers)
    {
      ready := [];
      for k := 0 to |answers|
        invariant ready + ReadyOnes(answers[k..]) == ReadyOnes(answers)
      {
        assert answers[k..][0] == answers[k] && answers[k..][1..] == answers[k + 1..];
        if answers[k].ready {
          ready := ready + [answers[k]];
        }
      }
    }

    /** What a read does once its round has ended; `view` is what it started from. */
    method FinishRead(now: nat, path: string, view: Cluster, answers: seq<Answer>) returns (r: Result<Cluster, CounterError>)
      requires Valid()
      modifies this
      ensures Valid()
      ensures (At(now), r) == FinishedRead(replicas, old(At(now)), path, view, answers)
    {
      hide Within, FoldViews, Collect, ReadyOnes, MergeCluster, AnyFormed;
      var ready := Ready(answers);
      if |ready| + 1 >= replicas || AnyFormed(answers) {
        LearnFormed();
      }
      if !formed {
        return Err(NotFormed);
      }
      if |ready| + 1 < Majority(replicas) {
        return Err(TooFewReplicas);
      }
      var folded := Fold(view, path, ready);
      if folded.None? {
        return Err(CounterLimit);
      }
      var merged := MergeInto(path, folded.value);
      r := if merged.Some? then Ok(folded.value) else Err(CounterLimit);
    }

    /** What a write does once its round has ended. */
    method FinishWrite(now: nat, path: string, view: Cluster, answers: seq<Answer>) returns (r: Result<Cluster, CounterError>)
      requires Valid()
      modifies this
      ensures Valid()
      ensures (At(now), r) == FinishedWrite(replicas, old(At(now)), path, view, answers)
    {
      hide Within, FoldViews, Collect, MergeCluster;
      if |answers| + 1 < Majority(replicas) {
        return Err(TooFewReplicas);
      }
      var folded := Fold(view, path, answers);
      if folded.None? {
        return Err(CounterLimit);
      }
      var merged := MergeInto(path, folded.value);
      r := if merged.Some? then Ok(folded.value) else Err(CounterLimit);
    }

    // ---- how an operation begins ----

    /** A read starts from the view held; a replica with no peers answers it at once. */
    method BeginRead(path: string) returns (r: Result<Begun, CounterError>)
      requires Valid()
      ensures forall now :: r == BeganRead(replicas, At(now), path)
    {
      if !ready {
        return Err(NotReady);
      }
      var view := if path in views then views[path] else EMPTY;
      r := Ok(if replicas == 1 then Alone(view) else Ask(ReadOne(path), formed, view));
    }

    /** A write is merged here before it is sent; until the cluster has formed, a read goes first. */
    method BeginWrite(path: string, update: Cluster) returns (r: Result<Begun, CounterError>)
      requires Valid()
      modifies this`views
      ensures Valid()
      ensures forall now :: (At(now), r) == BeganWrite(replicas, old(At(now)), path, update)
    {
      if !ready {
        return Err(NotReady);
      }
      if !formed {
        return Ok(ReadFirst);
      }
      var merged := MergeInto(path, update);
      if merged.None? {
        return Err(CounterLimit);
      }
      r := Ok(if replicas == 1 then Alone(merged.value) else Ask(Merge(path, update), formed, merged.value));
    }

    /** A sync has nothing to ask once ready, or in a cluster of one, which bootstraps. */
    method BeginSync(now: nat) returns (ask: Option<Begun>)
      requires Valid()
      modifies this
      ensures Valid() && views == old(views)
      ensures ask == BeganSync(replicas, old(At(now)))
      ensures ask.Some? ==> !ready && At(now) == old(At(now))
      ensures ask.None? ==> ready && (!old(ready) ==> formed)
    {
      if ready {
        return None;
      }
      if replicas == 1 {
        Bootstrap(now);
        return None;
      }
      ask := Some(Ask(ReadAll, formed, EMPTY));
    }

    /** What a sync does once its round has ended: `Ok(true)` once ready. */
    method FinishSync(now: nat, counted: seq<Counted>) returns (r: Result<bool, CounterError>)
      requires Valid() && replicas > 1
      modifies this
      ensures Valid()
      ensures SyncTail(replicas, old(At(now)), AnswersOf(counted), At(now))
      ensures |ReadyOnes(AnswersOf(counted))| >= Majority(replicas) ==>
                (views, r.Ok?) == MergeMaps(old(views), Maps(ReadyOnes(AnswersOf(counted))))
      ensures r.Err? <==> |ReadyOnes(AnswersOf(counted))| >= Majority(replicas)
                          && !Within(JoinMaps(old(views), Maps(ReadyOnes(AnswersOf(counted)))))
      ensures r == Ok(true) ==> ready
      ensures r == Ok(false) ==> At(now) == old(At(now))
      ensures |ReadyOnes(AnswersOf(counted))| < Majority(replicas) && GenesisRule(AnswersOf(counted)) ==>
                r == Ok(true) && genesisUntil.Some?
                && (forall c :: c in counted && c.answer.ready ==> genesisUntil.value <= now + c.genesisSecs)
                && exists c :: c in counted && c.answer.ready && genesisUntil.value == now + c.genesisSecs
    {
      hide Within, JoinMaps, JoinMap, MapLe, AnyFormed, MergeMapped;
      var answers := AnswersOf(counted);
      var heard := Ready(answers);
      ghost var start, maps := views, Maps(heard);
      if |heard| >= Majority(replicas) {
        NothingSynced(start, maps);
        assert maps[0..] == maps;
        for k := 0 to |heard|
          invariant Valid() && At(now) == old(At(now)).(views := views)
          invariant views == JoinMaps(start, maps[..k])
          invariant MergeMaps(views, maps[k..]) == MergeMaps(start, maps)
        {
          SyncNext(views, maps, k);
          assert maps[k] == heard[k].counters;
          var ok := MergeMap(heard[k].counters);
          SyncedOneMore(start, maps, k);
          if !ok {
            SyncIsRefused(start, maps, k, views);
            return Err(CounterLimit);
          }
        }
        assert maps[..|heard|] == maps;
        ready := true;
        if AnyFormed(answers) {
          LearnFormed();
        }
        return Ok(true);
      }
      if GenesisRule(answers) {
        SomeoneIsReady(counted);
        var left := LeastGenesis(counted);
        ready, genesisUntil := true, Some(now + left);
        return Ok(true);
      }
      r := Ok(false);
    }

    // ---- whole calls ----

    /** Other calls run while one waits for its round. */
    method Meanwhile(now: nat, events: seq<Event>)
      requires Valid()
      modifies this
      ensures Valid() && At(now) == Applied(old(At(now)), events)
    {
      hide Within, MergeCluster;
      for k := 0 to |events|
        invariant Valid() && At(now) == Applied(old(At(now)), events[..k])
      {
        assert events[..k + 1][..k] == events[..k];
        match events[k]
        case Formed => LearnFormed();
        case Merged(path, counters) => var _ := MergeInto(path, counters);
      }
      assert events[..|events|] == events;
    }

    /** One cluster's counters, merged from a majority of ready replicas. */
    method Read(now: nat, path: string, x: Exchange) returns (r: Result<Cluster, CounterError>)
      requires Valid()
      modifies this
      ensures Valid() && (At(now), r) == ReadCall(Self(replicaId, replicas), old(At(now)), path, x)
    {
      hide Within, FinishedRead, CountedOf;
      var begun := BeginRead(path);
      assert begun == BeganRead(replicas, At(now), path);
      if begun.Err? {
        return Err(begun.error);
      }
      if begun.value.Alone? {
        return Ok(begun.value.view);
      }
      Meanwhile(now, x.meanwhile);
      var counted := Round(x.replies, x.nonce);
      r := FinishRead(now, path, begun.value.view, AnswersOf(counted));
    }

    /** Merge an update into one cluster's counters on a majority of replicas; a read forms the cluster first. */
    method Write(now: nat, path: string, update: Cluster, first: Exchange, x: Exchange) returns (r: Result<Cluster, CounterError>)
      requires Valid()
      modifies this
      ensures Valid() && (At(now), r) == WriteCall(Self(replicaId, replicas), old(At(now)), path, update, first, x)
    {
      hide Within, FinishedWrite, CountedOf, ReadCall, MergeCluster, Applied, Grows;
      ghost var self := Self(replicaId, replicas);
      FormingForms(self, At(now), path, first);
      FormingGrows(self, At(now), path, first);
      var begun := BeginWrite(path, update);
      assert (At(now), begun) == BeganWrite(replicas, old(At(now)), path, update);
      if begun == Ok(ReadFirst) {
        var read := Read(now, path, first);
        if read.Err? {
          return Err(read.error);
        }
        ghost var found := At(now);
        begun := BeginWrite(path, update);
        assert (At(now), begun) == BeganWrite(replicas, found, path, update);
      }
      if begun.Err? {
        return Err(begun.error);
      }
      if begun.value.Alone? {
        return Ok(begun.value.view);
      }
      Meanwhile(now, x.meanwhile);
      var counted := Round(x.replies, x.nonce);
      r := FinishWrite(now, path, begun.value.view, AnswersOf(counted));
    }

    /** Raise a node's entry to at least `entry`. */
    method Raise(now: nat, path: string, node: U64, entry: Entry, xs: Exchanges) returns (r: Result<Cluster, CounterError>)
      requires Valid()
      modifies this
      ensures Valid() && (At(now), r) == RaiseCall(Self(replicaId, replicas), old(At(now)), path, node, entry, xs)
    {
      r := Write(now, path, RaiseUpdate(node, entry), xs.first, xs.sent);
    }

    /** Force a node's entry to `mark`, one epoch up from what a read finds. */
    method Reset(now: nat, path: string, node: U64, mark: U64, xs: Exchanges) returns (r: Result<Cluster, CounterError>)
      requires Valid()
      modifies this
      ensures Valid() && (At(now), r) == ResetCall(Self(replicaId, replicas), old(At(now)), path, node, mark, xs)
    {
      hide Within, ReadCall, WriteCall;
      var current := Read(now, path, xs.asked);
      if current.Err? {
        return Err(current.error);
      }
      var update := ResetUpdate(current.value, node, mark);
      if update.None? {
        return Err(CounterLimit);
      }
      r := Write(now, path, update.value, xs.first, xs.sent);
    }

    /** The shortest genesis a ready answer reports. */
    static method LeastGenesis(counted: seq<Counted>) returns (left: Secs)
      requires exists c :: c in counted && c.answer.ready
      ensures forall c :: c in counted && c.answer.ready ==> left <= c.genesisSecs
      ensures exists c :: c in counted && c.answer.ready && left == c.genesisSecs
    {
      var least: Option<Secs> := None;
      for k := 0 to |counted|
        invariant forall c :: c in counted[..k] && c.answer.ready ==> least.Some? && least.value <= c.genesisSecs
        invariant least.Some? ==> exists c :: c in counted && c.answer.ready && least.value == c.genesisSecs
      {
        if counted[k].answer.ready && (least.None? || counted[k].genesisSecs < least.value) {
          least := Some(counted[k].genesisSecs);
        }
        assert counted[..k + 1] == counted[..k] + [counted[k]];
      }
      assert counted[..|counted|] == counted;
      left := least.value;
    }
  }
}
