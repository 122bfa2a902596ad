/**
 Rollback counters as values: entries, one cluster's counters, and the map a
 replica keeps (mero-kms/src/counters.rs). Views merge by taking the larger of
 each value, under a limit on node ids and a limit on clusters.
 */
module CounterViews {
  import opened Outcomes

  const U64_MAX: int := 0xFFFF_FFFF_FFFF_FFFF
  type U64 = x: int | 0 <= x <= U64_MAX

  const MAX_COUNTER_CLUSTERS: nat := 10_000
  const MAX_COUNTER_NODES_PER_CLUSTER: nat := 1024

  /** One node's counter: a forced rollback raises `generation`, a checkpoint `mark`. */
  datatype Entry = Entry(generation: U64, mark: U64)

  /** One cluster's counters. */
  datatype Cluster = Cluster(epoch: U64, nodes: map<U64, Entry>)

  type CounterMap = map<string, Cluster>

  const ZERO: Entry := Entry(0, 0)
  const EMPTY: Cluster := Cluster(0, map[])

  // ---- order and join ----

  /** Entries order as pairs. */
  predicate EntryLe(a: Entry, b: Entry) {
    a.generation < b.generation || (a.generation == b.generation && a.mark <= b.mark)
  }

  function EntryMax(a: Entry, b: Entry): Entry {
    if EntryLe(a, b) then b else a
  }

  function Max(a: U64, b: U64): U64 {
    if a <= b then b else a
  }

  /** `b` holds everything `a` does. */
  ghost predicate Le(a: Cluster, b: Cluster) {
    && a.epoch <= b.epoch
    && forall k :: k in a.nodes ==> k in b.nodes && EntryLe(a.nodes[k], b.nodes[k])
  }

  function EntryOf(c: Cluster, node: U64): Entry {
    if node in c.nodes then c.nodes[node] else ZERO
  }

  /** The larger of each value. */
  function Join(a: Cluster, b: Cluster): Cluster {
    Cluster(Max(a.epoch, b.epoch),
            map k | k in a.nodes.Keys + b.nodes.Keys :: EntryMax(EntryOf(a, k), EntryOf(b, k)))
  }

  lemma JoinIsLeastUpperBound(a: Cluster, b: Cluster)
    ensures Le(a, Join(a, b)) && Le(b, Join(a, b))
    ensures forall c :: Le(a, c) && Le(b, c) ==> Le(Join(a, b), c)
  {
  }

  lemma LeIsReflexive(a: Cluster)
    ensures Le(a, a) && Le(EMPTY, a)
  {
  }

  lemma LeIsTransitive(a: Cluster, b: Cluster, c: Cluster)
    requires Le(a, b) && Le(b, c)
    ensures Le(a, c)
  {
  }

  lemma LeIsAntisymmetric(a: Cluster, b: Cluster)
    requires Le(a, b) && Le(b, a)
    ensures a == b
  {
    assert a.nodes.Keys == b.nodes.Keys;
    forall k | k in a.nodes
      ensures a.nodes[k] == b.nodes[k]
    {
      assert EntryLe(a.nodes[k], b.nodes[k]) && EntryLe(b.nodes[k], a.nodes[k]);
    }
  }

  // ---- limits ----

  /** The node-limit test of a merge: what is there plus what is new. */
  predicate Fits(a: Cluster, b: Cluster) {
    |a.nodes.Keys + b.nodes.Keys| <= MAX_COUNTER_NODES_PER_CLUSTER
  }

  predicate ClusterWithin(c: Cluster) {
    |c.nodes| <= MAX_COUNTER_NODES_PER_CLUSTER
  }

  ghost predicate Within(m: CounterMap) {
    && |m| <= MAX_COUNTER_CLUSTERS
    && forall p :: p in m ==> ClusterWithin(m[p])
  }

  lemma SubsetIsSmaller<T>(a: set<T>, b: set<T>)
    requires a <= b
    ensures |a| <= |b|
  {
    assert b == a + (b - a);
  }

  // ---- folding views together ----

  /** Merge `views` into `view` one after another, as a read or write tail does. */
  function FoldViews(view: Cluster, views: seq<Cluster>): Option<Cluster>
    decreases |views|
  {
    if views == [] then Some(view)
    else if Fits(view, views[0]) then FoldViews(Join(view, views[0]), views[1..])
    else None
  }

  ghost function JoinAll(view: Cluster, views: seq<Cluster>): Cluster
    decreases |views|
  {
    if views == [] then view else JoinAll(Join(view, views[0]), views[1..])
  }

  /** The join of many views is the least view above each of them. */
  lemma {:induction false} JoinAllIsLeastUpperBound(view: Cluster, views: seq<Cluster>)
    ensures Le(view, JoinAll(view, views))
    ensures forall v :: v in views ==> Le(v, JoinAll(view, views))
    ensures forall c :: Le(view, c) && (forall v :: v in views ==> Le(v, c)) ==> Le(JoinAll(view, views), c)
    decreases |views|
  {
    if views != [] {
      var first := Join(view, views[0]);
      JoinIsLeastUpperBound(view, views[0]);
      JoinAllIsLeastUpperBound(first, views[1..]);
      LeIsTransitive(view, first, JoinAll(view, views));
      LeIsTransitive(views[0], first, JoinAll(view, views));
      forall v | v in views
        ensures Le(v, JoinAll(view, views))
      {
        assert v == views[0] || v in views[1..];
      }
      forall c | Le(view, c) && (forall v :: v in views ==> Le(v, c))
        ensures Le(JoinAll(view, views), c)
      {
        assert Le(views[0], c);
        assert forall v :: v in views[1..] ==> Le(v, c);
      }
    } else {
      LeIsReflexive(view);
    }
  }

  /** Each value of `v` is one that some source has. */
  ghost predicate TakenFrom(v: Cluster, sources: seq<Cluster>) {
    && (exists s :: s in sources && s.epoch == v.epoch)
    && forall k :: k in v.nodes ==> exists s :: s in sources && k in s.nodes && s.nodes[k] == v.nodes[k]
  }

  lemma JoinIsTaken(a: Cluster, b: Cluster, sources: seq<Cluster>)
    requires a in sources && b in sources
    ensures TakenFrom(Join(a, b), sources)
  {
    var v := Join(a, b);
    assert a.epoch == v.epoch || b.epoch == v.epoch;
    forall k | k in v.nodes ensures exists s :: s in sources && k in s.nodes && s.nodes[k] == v.nodes[k] {
      assert (k in a.nodes && a.nodes[k] == v.nodes[k]) || (k in b.nodes && b.nodes[k] == v.nodes[k]);
    }
  }

  lemma TakenThrough(v: Cluster, through: seq<Cluster>, sources: seq<Cluster>)
    requires TakenFrom(v, through) && forall s :: s in through ==> TakenFrom(s, sources)
    ensures TakenFrom(v, sources)
  {
  }

  lemma TakenFromItself(v: Cluster, sources: seq<Cluster>)
    requires v in sources
    ensures TakenFrom(v, sources)
  {
  }

  /** Joining invents nothing: each value of the join is some view's. */
  lemma {:induction false} JoinAllIsTaken(view: Cluster, views: seq<Cluster>, sources: seq<Cluster>)
    requires TakenFrom(view, sources) && forall v :: v in views ==> v in sources
    ensures TakenFrom(JoinAll(view, views), sources)
    decreases |views|
  {
    hide TakenFrom, Join;
    if views != [] {
      var first := Join(view, views[0]);
      JoinIsTaken(view, views[0], [view, views[0]]);
      TakenFromItself(views[0], sources);
      TakenThrough(first, [view, views[0]], sources);
      JoinAllIsTaken(first, views[1..], sources);
    }
  }

  /**
   What merging `views` and writing one entry with an epoch gives, value by value: the
   largest epoch, the union of the node ids, and each node's largest entry.
   */
  ghost predicate OneEntryWritten(v: Cluster, views: seq<Cluster>, epoch: U64, node: U64, entry: Entry) {
    && epoch <= v.epoch && (forall x :: x in views ==> x.epoch <= v.epoch)
    && (v.epoch == epoch || exists x :: x in views && x.epoch == v.epoch)
    && (forall k :: k in v.nodes <==> k == node || exists x :: x in views && k in x.nodes)
    && EntryLe(entry, v.nodes[node])
    && (forall x, k :: x in views && k in x.nodes ==> EntryLe(x.nodes[k], v.nodes[k]))
    && (forall k :: k in v.nodes ==>
          (k == node && v.nodes[k] == entry) || exists x :: x in views && k in x.nodes && x.nodes[k] == v.nodes[k])
  }

  /** The entry comes out as written exactly when no merged view had the node above it. */
  lemma WrittenEntryStandsIff(v: Cluster, views: seq<Cluster>, epoch: U64, node: U64, entry: Entry)
    requires OneEntryWritten(v, views, epoch, node, entry)
    ensures v.nodes[node] == entry <==> forall x :: x in views ==> EntryLe(EntryOf(x, node), entry)
  {
    if v.nodes[node] != entry {
      var x :| x in views && node in x.nodes && x.nodes[node] == v.nodes[node];
      assert !EntryLe(EntryOf(x, node), entry);
    }
  }

  lemma LeastTakenIsWritten(v: Cluster, update: Cluster, views: seq<Cluster>, sources: seq<Cluster>, node: U64, entry: Entry)
    requires update.nodes == map[node := entry] && forall s :: s in sources <==> s == update || s in views
    requires TakenFrom(v, sources) && forall s :: s in sources ==> Le(s, v)
    ensures OneEntryWritten(v, views, update.epoch, node, entry)
  {
    assert Le(update, v) && node in update.nodes;
    forall k | k in v.nodes
      ensures (k == node && v.nodes[k] == entry) || exists x :: x in views && k in x.nodes && x.nodes[k] == v.nodes[k]
    {
      var s :| s in sources && k in s.nodes && s.nodes[k] == v.nodes[k];
    }
    forall x, k | x in views && k in x.nodes ensures k in v.nodes && EntryLe(x.nodes[k], v.nodes[k]) {
      assert Le(x, v);
    }
    forall x | x in views ensures x.epoch <= v.epoch {
      assert Le(x, v);
    }
  }

  lemma JoinWritesOneEntry(held: Cluster, views: seq<Cluster>, epoch: U64, node: U64, entry: Entry)
    ensures OneEntryWritten(JoinAll(Join(held, Cluster(epoch, map[node := entry])), views), [held] + views, epoch, node, entry)
  {
    var update := Cluster(epoch, map[node := entry]);
    var (first, sources) := (Join(held, update), [held, update] + views);
    var v := JoinAll(first, views);
    hide Join, JoinAll, Le, TakenFrom, OneEntryWritten;
    assert sources[0] == held && sources[1] == update;
    JoinIsTaken(held, update, sources);
    JoinAllIsTaken(first, views, sources);
    JoinAllIsLeastUpperBound(first, views);
    JoinIsLeastUpperBound(held, update);
    LeIsTransitive(held, first, v);
    LeIsTransitive(update, first, v);
    LeastTakenIsWritten(v, update, [held] + views, sources, node, entry);
  }

  /** Folding succeeds exactly when the union of the node ids fits, and gives the join. */
  lemma {:induction false} FoldSucceedsIffUnionFits(view: Cluster, views: seq<Cluster>)
    requires ClusterWithin(view)
    ensures FoldViews(view, views).Some? <==> ClusterWithin(JoinAll(view, views))
    ensures FoldViews(view, views).Some? ==> FoldViews(view, views).value == JoinAll(view, views)
    decreases |views|
  {
    if views != [] {
      var first := Join(view, views[0]);
      assert first.nodes.Keys == view.nodes.Keys + views[0].nodes.Keys;
      JoinAllIsLeastUpperBound(first, views[1..]);
      SubsetIsSmaller(first.nodes.Keys, JoinAll(view, views).nodes.Keys);
      if Fits(view, views[0]) {
        FoldSucceedsIffUnionFits(first, views[1..]);
      }
    }
  }

  /**
   The order in which answers arrive does not matter: any two orders of the same
   views both succeed or both fail, and give the same view.
   */
  lemma FoldOrderDoesNotMatter(view: Cluster, views: seq<Cluster>, others: seq<Cluster>)
    requires ClusterWithin(view)
    requires multiset(views) == multiset(others)
    ensures FoldViews(view, views) == FoldViews(view, others)
  {
    FoldSucceedsIffUnionFits(view, views);
    FoldSucceedsIffUnionFits(view, others);
    JoinAllIsLeastUpperBound(view, views);
    JoinAllIsLeastUpperBound(view, others);
    forall v
      ensures v in views <==> v in others
    {
      assert v in views <==> v in multiset(views);
      assert v in others <==> v in multiset(others);
    }
    LeIsAntisymmetric(JoinAll(view, views), JoinAll(view, others));
  }

  // ---- a replica's map ----

  /** One cluster's counters in `m`; a cluster it does not have is empty. */
  function View(m: CounterMap, path: string): Cluster {
    if path in m then m[path] else EMPTY
  }

  ghost predicate MapLe(a: CounterMap, b: CounterMap) {
    forall p :: Le(View(a, p), View(b, p))
  }

  /**
   Merge into one cluster of a map: the map as left behind, and the cluster as it
   then is, or nothing when a limit refused it.
   */
  function MergeCluster(m: CounterMap, path: string, c: Cluster): (CounterMap, Option<Cluster>) {
    if path !in m && |m| >= MAX_COUNTER_CLUSTERS then (m, None)
    else
      var mine := View(m, path);
      if Fits(mine, c) then (m[path := Join(mine, c)], Some(Join(mine, c)))
      else (m[path := mine], None)
  }

  /** A merge is refused exactly by a new cluster past ten thousand, or by more than 1024 node ids in one. */
  lemma MergeRefusedIff(m: CounterMap, path: string, c: Cluster)
    ensures MergeCluster(m, path, c).1.None? <==>
              (path !in m && |m| >= 10_000) || |View(m, path).nodes.Keys + c.nodes.Keys| > 1024
  {
    hide Join;
  }

  /** An accepted merge leaves the join at its path and every other cluster as it was. */
  lemma MergeClusterAccepts(m: CounterMap, path: string, c: Cluster)
    requires MergeCluster(m, path, c).1.Some?
    ensures var (m', r) := MergeCluster(m, path, c);
            && r.value == Join(View(m, path), c)
            && m' == m[path := r.value]
            && Le(View(m, path), r.value) && Le(c, r.value)
  {
    JoinIsLeastUpperBound(View(m, path), c);
  }

  /** A refused merge changes nothing, but for an empty cluster it may have added. */
  lemma MergeClusterRefuses(m: CounterMap, path: string, c: Cluster)
    requires MergeCluster(m, path, c).1.None?
    ensures var m' := MergeCluster(m, path, c).0;
            && (m' == m || (path !in m && m' == m[path := EMPTY] && !ClusterWithin(c)))
            && forall p :: View(m', p) == View(m, p)
  {
    var m' := MergeCluster(m, path, c).0;
    if path in m {
      assert m' == m;
    } else if |m| < MAX_COUNTER_CLUSTERS {
      assert EMPTY.nodes.Keys + c.nodes.Keys == c.nodes.Keys;
    }
  }

  lemma PutStaysWithin(m: CounterMap, path: string, c: Cluster)
    requires Within(m) && ClusterWithin(c)
    requires path in m || |m| < MAX_COUNTER_CLUSTERS
    ensures Within(m[path := c])
  {
    assert m[path := c].Keys == m.Keys + {path};
    if path in m {
      assert m[path := c].Keys == m.Keys;
    }
  }

  lemma PutRaises(m: CounterMap, path: string, c: Cluster)
    requires Le(View(m, path), c)
    ensures MapLe(m, m[path := c])
  {
    forall p
      ensures Le(View(m, p), View(m[path := c], p))
    {
      LeIsReflexive(View(m, p));
    }
  }

  /** Whatever a merge does, the map only grows and stays within both limits. */
  lemma MergeClusterOnlyRaises(m: CounterMap, path: string, c: Cluster)
    requires Within(m)
    ensures Within(MergeCluster(m, path, c).0)
    ensures MapLe(m, MergeCluster(m, path, c).0)
  {
    var (m', r) := MergeCluster(m, path, c);
    MapLeIsReflexive(m);
    if r.Some? {
      MergeClusterAccepts(m, path, c);
      JoinKeepsLimit(View(m, path), c);
      PutStaysWithin(m, path, r.value);
      PutRaises(m, path, r.value);
    } else if m' != m {
      MergeClusterRefuses(m, path, c);
      PutStaysWithin(m, path, EMPTY);
      LeIsReflexive(EMPTY);
      PutRaises(m, path, EMPTY);
    }
  }

  lemma JoinKeepsLimit(a: Cluster, b: Cluster)
    ensures Join(a, b).nodes.Keys == a.nodes.Keys + b.nodes.Keys
    ensures Fits(a, b) <==> ClusterWithin(Join(a, b))
  {
  }

  function JoinMap(a: CounterMap, b: CounterMap): CounterMap {
    map p | p in a.Keys + b.Keys :: Join(View(a, p), View(b, p))
  }

  lemma JoinMapViews(a: CounterMap, b: CounterMap, p: string)
    ensures View(JoinMap(a, b), p) == Join(View(a, p), View(b, p))
  {
  }

  lemma JoinMapIsLeastUpperBound(a: CounterMap, b: CounterMap)
    ensures MapLe(a, JoinMap(a, b)) && MapLe(b, JoinMap(a, b))
  {
    forall p
      ensures Le(View(a, p), View(JoinMap(a, b), p)) && Le(View(b, p), View(JoinMap(a, b), p))
    {
      JoinMapViews(a, b, p);
      JoinIsLeastUpperBound(View(a, p), View(b, p));
    }
  }

  ghost function JoinMaps(m: CounterMap, maps: seq<CounterMap>): CounterMap
    decreases |maps|
  {
    if maps == [] then m else JoinMaps(JoinMap(m, maps[0]), maps[1..])
  }

  lemma {:induction false} JoinMapsIsUpperBound(m: CounterMap, maps: seq<CounterMap>)
    ensures MapLe(m, JoinMaps(m, maps))
    ensures forall x :: x in maps ==> MapLe(x, JoinMaps(m, maps))
    ensures m.Keys <= JoinMaps(m, maps).Keys
    decreases |maps|
  {
    if maps == [] {
      forall p ensures Le(View(m, p), View(m, p)) { LeIsReflexive(View(m, p)); }
    } else {
      var first := JoinMap(m, maps[0]);
      JoinMapIsLeastUpperBound(m, maps[0]);
      JoinMapsIsUpperBound(first, maps[1..]);
      MapLeIsTransitive(m, first, JoinMaps(m, maps));
      MapLeIsTransitive(maps[0], first, JoinMaps(m, maps));
      forall x | x in maps
        ensures MapLe(x, JoinMaps(m, maps))
      {
        assert x == maps[0] || x in maps[1..];
      }
    }
  }

  /** Joining maps adds nothing at `p` that is above a common bound. */
  lemma {:induction false} JoinMapsBelow(m: CounterMap, maps: seq<CounterMap>, p: string, bound: Cluster)
    requires Le(View(m, p), bound)
    requires forall x :: x in maps ==> Le(View(x, p), bound)
    ensures Le(View(JoinMaps(m, maps), p), bound)
    decreases |maps|
  {
    if maps != [] {
      JoinMapViews(m, maps[0], p);
      JoinIsLeastUpperBound(View(m, p), View(maps[0], p));
      JoinMapsBelow(JoinMap(m, maps[0]), maps[1..], p, bound);
    }
  }

  lemma MapLeIsTransitive(a: CounterMap, b: CounterMap, c: CounterMap)
    requires MapLe(a, b) && MapLe(b, c)
    ensures MapLe(a, c)
  {
    forall p
      ensures Le(View(a, p), View(c, p))
    {
      LeIsTransitive(View(a, p), View(b, p), View(c, p));
    }
  }

  lemma MapLeIsReflexive(a: CounterMap)
    ensures MapLe(a, a)
  {
    forall p ensures Le(View(a, p), View(a, p)) { LeIsReflexive(View(a, p)); }
  }
}
