/**
 `/rollback/raise` and `/rollback/reset` over the counters: what an acknowledged
 call returns, and what it rules out afterwards (mero-kms/src/handlers/rollback.rs,
 `Counters::raise` and `Counters::reset`).
 */
module RollbackCalls {
  import opened Outcomes
  import opened CounterViews
  import opened CounterReplica
  import opened CounterProtocol
  import opened CounterInvariant
  import opened CounterSteps
  import opened CounterFinish
  import opened CounterReplace
  import opened CounterTheorems

  /** An acknowledged write returns a view with the write in it, made of what the round's replicas hold. */
  lemma AckedWriteReturnsIt(s: State, nonce: Nonce, heard: seq<Answer>, v: Cluster)
    requires Inv(s) && Running(s, nonce) && s.rounds[nonce].request.Merge? && Heard(s, nonce, heard)
    requires var r := s.rounds[nonce];
             WriteTail(|s.slots|, s.replicas[r.caller].inner, r.request.path, r.view, heard).1 == Some(v)
    ensures var r := s.rounds[nonce];
            && Le(r.request.update, v) && Le(v, Plain(s.writes, r.request.path))
            && v == JoinAll(r.view, Collect(heard, r.request.path))
  {
    hide Le, Plain, Shape, OneSync, Replicas, Acks, AnswerMeets, RoundMeets, Bringup, Linked;
    var r := s.rounds[nonce];
    HeardAreOk(s, nonce, heard);
    assert RoundOk(s, nonce);
    hide Rounds, AnswersOk, Heard, AnswerOk;
    ToldIsFormed(s, heard);
    FoldedViewIsTheJoin(r.view, heard, r.request.path);
    FoldedIsBounded(s, r.request.path, r.view, heard);
    FoldSucceedsIffUnionFits(r.view, Collect(heard, r.request.path));
    LeIsTransitive(r.request.update, r.view, v);
  }

  lemma {:induction false} JoinAllAtNode(view: Cluster, views: seq<Cluster>, node: U64, top: Entry)
    requires EntryLe(EntryOf(view, node), top)
    requires forall v :: v in views ==> EntryLe(EntryOf(v, node), top)
    ensures EntryLe(EntryOf(JoinAll(view, views), node), top)
    decreases |views|
  {
    if views != [] {
      assert views[0] in views && forall v :: v in views[1..] ==> v in views;
      JoinAllAtNode(Join(view, views[0]), views[1..], node, top);
    }
  }

  /**
   An acknowledged raise returns an entry at or above the one asked for: exactly that one
   if and only if no view the write merged had the node above it.
   */
  lemma AckedRaiseReturnsTheEntry(s: State, nonce: Nonce, heard: seq<Answer>, v: Cluster, node: U64, entry: Entry)
    requires Running(s, nonce) && s.rounds[nonce].request.Merge?
    requires s.rounds[nonce].request.update == Cluster(0, map[node := entry])
    requires var r := s.rounds[nonce];
             WriteTail(|s.slots|, s.replicas[r.caller].inner, r.request.path, r.view, heard).1 == Some(v)
    requires Inv(s) && Heard(s, nonce, heard)
    ensures var r := s.rounds[nonce];
            && node in v.nodes && EntryLe(entry, v.nodes[node])
            && (v.nodes[node] == entry <==>
                EntryLe(EntryOf(r.view, node), entry)
                && forall x :: x in Collect(heard, r.request.path) ==> EntryLe(EntryOf(x, node), entry))
  {
    hide Inv, Heard, WriteTail, Plain;
    AckedWriteReturnsIt(s, nonce, heard, v);
    var r := s.rounds[nonce];
    assert node in r.request.update.nodes;
    EntryStandsIff(r.view, Collect(heard, r.request.path), node, entry);
  }

  lemma EntryStandsIff(view: Cluster, views: seq<Cluster>, node: U64, asked: Entry)
    requires var v := JoinAll(view, views); node in v.nodes && EntryLe(asked, v.nodes[node])
    ensures JoinAll(view, views).nodes[node] == asked <==>
              EntryLe(EntryOf(view, node), asked) && forall x :: x in views ==> EntryLe(EntryOf(x, node), asked)
  {
    var v := JoinAll(view, views);
    JoinAllIsLeastUpperBound(view, views);
    if v.nodes[node] == asked {
      assert EntryLe(EntryOf(view, node), EntryOf(v, node));
      forall x | x in views ensures EntryLe(EntryOf(x, node), asked) {
        assert Le(x, v) && EntryLe(EntryOf(x, node), EntryOf(v, node));
      }
    }
    if EntryLe(EntryOf(view, node), asked) && forall x :: x in views ==> EntryLe(EntryOf(x, node), asked) {
      JoinAllAtNode(view, views, node, asked);
    }
  }

  /**
   An acknowledged reset that read epoch `e` returns an epoch above `e` and an entry at
   or above `(e + 1, mark)`: exactly that pair if and only if no view the write merged
   had the node above it.
   */
  lemma AckedResetReturnsTheNewEpoch(
      s: State, nonce: Nonce, heard: seq<Answer>, v: Cluster, current: Cluster, node: U64, mark: U64)
    requires Running(s, nonce) && s.rounds[nonce].request.Merge?
    requires current.epoch < U64_MAX
    requires s.rounds[nonce].request.update == Cluster(current.epoch + 1, map[node := Entry(current.epoch + 1, mark)])
    requires var r := s.rounds[nonce];
             WriteTail(|s.slots|, s.replicas[r.caller].inner, r.request.path, r.view, heard).1 == Some(v)
    requires Inv(s) && Heard(s, nonce, heard)
    ensures current.epoch < v.epoch && node in v.nodes
    ensures var asked := Entry(current.epoch + 1, mark);
            var r := s.rounds[nonce];
            && EntryLe(asked, v.nodes[node])
            && (v.nodes[node] == asked <==>
                EntryLe(EntryOf(r.view, node), asked)
                && forall x :: x in Collect(heard, r.request.path) ==> EntryLe(EntryOf(x, node), asked))
  {
    hide Inv, Heard, WriteTail, Plain;
    var r := s.rounds[nonce];
    var asked := Entry(current.epoch + 1, mark);
    AckedWriteReturnsIt(s, nonce, heard, v);
    assert node in r.request.update.nodes;
    EntryStandsIff(r.view, Collect(heard, r.request.path), node, asked);
  }

  /** An acknowledged reset's epoch is above that of every write acknowledged before its read began. */
  lemma ResetIsAboveEveryAckedEpoch(s: State, nonce: Nonce, heard: seq<Answer>, current: Cluster, w: Nonce, node: U64, mark: U64)
    requires Inv(s) && Running(s, nonce) && s.rounds[nonce].request.ReadOne? && Heard(s, nonce, heard)
    requires var r := s.rounds[nonce];
             ReadTail(|s.slots|, s.replicas[r.caller].inner, r.request.path, r.view, heard).1 == Some(current)
    requires w in s.acked && s.acked[w].at <= nonce && IsWrite(s, w)
             && s.rounds[w].request.path == s.rounds[nonce].request.path
    requires current.epoch < U64_MAX
    ensures s.rounds[w].request.update.epoch < current.epoch + 1
    ensures node in s.rounds[w].request.update.nodes && s.rounds[w].request.update.nodes[node].generation <= current.epoch ==>
              EntryLe(s.rounds[w].request.update.nodes[node], Entry(current.epoch + 1, mark))
  {
    hide Inv, Heard, ReadTail, Plain;
    ReadIsBetween(s, nonce, heard, current);
  }

  /** Once a view holds a reset past epoch `e`, a raise of a generation up to `e` changes nothing there. */
  lemma StaleRaiseChangesNothing(m: CounterMap, path: string, current: Cluster, node: U64, mark: U64, stale: Entry)
    requires Within(m) && path in m
    requires current.epoch < U64_MAX
    requires Le(Cluster(current.epoch + 1, map[node := Entry(current.epoch + 1, mark)]), m[path])
    requires stale.generation <= current.epoch
    ensures MergeCluster(m, path, Cluster(0, map[node := stale])) == (m, Some(m[path]))
  {
    var update := Cluster(current.epoch + 1, map[node := Entry(current.epoch + 1, mark)]);
    var raise := Cluster(0, map[node := stale]);
    assert node in update.nodes;
    assert node in m[path].nodes && EntryLe(Entry(current.epoch + 1, mark), m[path].nodes[node]);
    assert m[path].nodes.Keys + raise.nodes.Keys == m[path].nodes.Keys;
    assert |m[path].nodes.Keys| == |m[path].nodes|;
    var joined := Join(m[path], raise);
    forall k | k in m[path].nodes
      ensures joined.nodes[k] == m[path].nodes[k]
    {
      LeastEntry(EntryOf(raise, k), m[path].nodes[k]);
    }
    assert joined.nodes == m[path].nodes;
    assert joined == m[path];
    assert m[path := m[path]] == m;
  }

  lemma LeastEntry(a: Entry, b: Entry)
    requires EntryLe(a, b)
    ensures EntryMax(b, a) == b
  {
  }
}
