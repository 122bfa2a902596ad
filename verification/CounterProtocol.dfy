/**
 A cluster of replicas that keep the rollback counters, as a step system
 (mero-kms/src/counters.rs). Slots hold incarnations with fresh ids; a replaced
 replica starts empty. Every request and every answer ever sent stays available, so
 the network may drop, duplicate, reorder and replay them; nobody but the replicas
 makes one (the MAC key comes from the cluster's root).
 */
module CounterProtocol {
  import opened Outcomes
  import opened CounterViews
  import opened CounterReplica

  datatype Replica = Replica(slot: nat, inner: Inner)

  /** A round some replica started: what it asked, and what it held when it did. */
  datatype Round = Round(caller: Id, request: Request, formed: bool, view: Cluster, open: bool)

  /** A started write, in the order the plain map takes them. */
  datatype Write = Write(path: string, update: Cluster, nonce: Nonce)

  /** An acknowledged write: the slots and incarnations that took it, and when. */
  datatype Ack = Ack(slots: set<nat>, takers: set<Id>, at: Nonce)

  datatype State = State(
    slots: seq<Id>,
    replicas: map<Id, Replica>,
    rounds: map<Nonce, Round>,
    answers: set<Answer>,
    nextId: Id,
    nextNonce: Nonce,
    // history, read by no step's guard or effect on the fields above
    writes: seq<Write>,
    acked: map<Nonce, Ack>,
    everFormed: bool,
    replaced: bool,
    expired: bool)

  // ---- reading a state ----

  predicate Live(s: State, id: Id) {
    id in s.replicas && s.replicas[id].slot < |s.slots| && s.slots[s.replicas[id].slot] == id
  }

  function InnerOf(s: State, id: Id): Inner {
    if id in s.replicas then s.replicas[id].inner else FRESH
  }

  function SlotOf(s: State, id: Id): nat {
    if id in s.replicas then s.replicas[id].slot else 0
  }

  function Below(n: nat): (r: set<nat>)
    ensures |r| == n && forall k :: k in r <==> 0 <= k < n
  {
    if n == 0 then {} else Below(n - 1) + {n - 1}
  }

  function SlotsOf(s: State, answers: seq<Answer>): set<nat> {
    set a | a in answers :: SlotOf(s, a.from)
  }

  function IdsOf(answers: seq<Answer>): set<Id> {
    set a | a in answers :: a.from
  }

  /** The one map a single server would hold after these writes, in this order. */
  function Plain(writes: seq<Write>, path: string): Cluster
    decreases |writes|
  {
    if writes == [] then EMPTY
    else
      var before := Plain(writes[..|writes| - 1], path);
      var last := writes[|writes| - 1];
      if last.path == path then Join(before, last.update) else before
  }

  /**
   Some live replica reports genesis, or an answer that does can still reach the
   sync it was made for.
   */
  ghost predicate GenesisAlive(s: State) {
    || (exists id :: id in s.replicas && Live(s, id) && ReportsGenesis(s.replicas[id].inner))
    || exists a :: a in s.answers && GenesisInFlight(s, a)
  }

  predicate GenesisInFlight(s: State, a: Answer) {
    && a.genesis && a.nonce in s.rounds
    && s.rounds[a.nonce].open && s.rounds[a.nonce].request.ReadAll?
    && Live(s, s.rounds[a.nonce].caller)
  }

  /**
   The answers one round counted: verified answers to its nonce, one per replica id,
   never the caller's own. One call goes to each other slot, so no slot answers twice.
   */
  ghost predicate Heard(s: State, nonce: Nonce, heard: seq<Answer>)
    requires nonce in s.rounds
  {
    && (forall k :: 0 <= k < |heard| ==>
        && heard[k] in s.answers
        && heard[k].nonce == nonce
        && SlotOf(s, heard[k].from) != SlotOf(s, s.rounds[nonce].caller))
    && forall j, k :: 0 <= j < k < |heard| ==> SlotOf(s, heard[j].from) != SlotOf(s, heard[k].from)
  }

  // ---- steps ----

  datatype Step =
    | StartRead(id: Id, path: string)
    | StartSync(id: Id)
    | StartWrite(id: Id, path: string, update: Cluster)
    | Answers(id: Id, nonce: Nonce)
    | FinishRead(nonce: Nonce, heard: seq<Answer>)
    | FinishWrite(nonce: Nonce, heard: seq<Answer>)
    | FinishSync(nonce: Nonce, heard: seq<Answer>)
    | Abandon(nonce: Nonce)
    | Expire(id: Id)
    | Replace(slot: nat)

  function PutInner(s: State, id: Id, i: Inner): State
    requires id in s.replicas
  {
    s.(replicas := s.replicas[id := s.replicas[id].(inner := i)])
  }

  function Open(s: State, round: Round): State {
    s.(rounds := s.rounds[s.nextNonce := round], nextNonce := s.nextNonce + 1)
  }

  function Close(s: State, nonce: Nonce): State
    requires nonce in s.rounds
  {
    s.(rounds := s.rounds[nonce := s.rounds[nonce].(open := false)])
  }

  /** A ready replica starts a read from the view it holds. */
  ghost predicate StartReadStep(s: State, id: Id, path: string, s': State) {
    && Live(s, id)
    && var i := s.replicas[id].inner;
    && i.ready
    && s' == Open(s, Round(id, ReadOne(path), i.formed, View(i.views, path), true))
  }

  /** A replica that is not ready asks for everything; it runs one sync at a time. */
  ghost predicate StartSyncStep(s: State, id: Id, s': State) {
    && Live(s, id)
    && var i := s.replicas[id].inner;
    && !i.ready
    && (forall r :: r in s.rounds && s.rounds[r].caller == id && s.rounds[r].request.ReadAll? ==> !s.rounds[r].open)
    && s' == Open(s, Round(id, ReadAll, i.formed, EMPTY, true))
  }

  /** A ready replica of a formed cluster merges an update and sends it on, unless a limit refuses it. */
  ghost predicate StartWriteStep(s: State, id: Id, path: string, update: Cluster, s': State) {
    && Live(s, id)
    && var i := s.replicas[id].inner;
    && i.ready && i.formed
    && var (m, merged) := MergeCluster(i.views, path, update);
    && var raised := PutInner(s, id, i.(views := m));
    && s' == if merged.None? then raised
             else Open(raised.(writes := s.writes + [Write(path, update, s.nextNonce)]),
                       Round(id, Merge(path, update), i.formed, merged.value, true))
  }

  /** A live replica answers any request ever sent, however often it arrives. */
  ghost predicate AnswersStep(s: State, id: Id, nonce: Nonce, s': State) {
    && Live(s, id)
    && nonce in s.rounds
    && var (i, a) := Reply(s.replicas[id].inner, id, nonce, s.rounds[nonce].request, s.rounds[nonce].formed);
    && s' == PutInner(s, id, i).(answers := if a.Some? then s.answers + {a.value} else s.answers)
  }

  /** The caller of an open round is still alive to finish it. */
  predicate Running(s: State, nonce: Nonce) {
    && nonce in s.rounds && s.rounds[nonce].open
    && Live(s, s.rounds[nonce].caller)
  }

  ghost predicate FinishReadStep(s: State, nonce: Nonce, heard: seq<Answer>, s': State) {
    && Running(s, nonce) && s.rounds[nonce].request.ReadOne?
    && Heard(s, nonce, heard)
    && var r := s.rounds[nonce];
    && var i := ReadTail(|s.slots|, s.replicas[r.caller].inner, r.request.path, r.view, heard).0;
    && s' == Close(PutInner(s, r.caller, i), nonce).(
             everFormed := s.everFormed || |ReadyOnes(heard)| + 1 >= |s.slots|)
  }

  /** A write is acknowledged once a majority took it and their views merge within the limits. */
  ghost predicate FinishWriteStep(s: State, nonce: Nonce, heard: seq<Answer>, s': State) {
    && Running(s, nonce) && s.rounds[nonce].request.Merge?
    && Heard(s, nonce, heard)
    && var r := s.rounds[nonce];
    && var (i, result) := WriteTail(|s.slots|, s.replicas[r.caller].inner, r.request.path, r.view, heard);
    && var closed := Close(PutInner(s, r.caller, i), nonce);
    && s' == if result.None? then closed
             else closed.(acked := s.acked[nonce := Ack({SlotOf(s, r.caller)} + SlotsOf(s, heard),
                                                       {r.caller} + IdsOf(heard),
                                                       s.nextNonce)])
  }

  ghost predicate FinishSyncStep(s: State, nonce: Nonce, heard: seq<Answer>, s': State) {
    && Running(s, nonce) && s.rounds[nonce].request.ReadAll?
    && Heard(s, nonce, heard)
    && var c := s.rounds[nonce].caller;
    && c in s'.replicas
    && SyncTail(|s.slots|, s.replicas[c].inner, heard, s'.replicas[c].inner)
    && s' == Close(PutInner(s, c, s'.replicas[c].inner), nonce)
  }

  ghost predicate AbandonStep(s: State, nonce: Nonce, s': State) {
    nonce in s.rounds && s' == Close(s, nonce)
  }

  ghost predicate ExpireStep(s: State, id: Id, s': State) {
    && Live(s, id)
    && s' == PutInner(s, id, s.replicas[id].inner.(genesis := false)).(expired := true)
  }

  /** A replica that answered a write round is not replaced before that round finishes. */
  ghost predicate AnsweredARunningWrite(s: State, id: Id) {
    exists a :: a in s.answers && a.from == id && Running(s, a.nonce) && s.rounds[a.nonce].request.Merge?
  }

  /** A dead replica's slot gets a new one, which holds the root but no counters. */
  ghost predicate ReplaceStep(s: State, k: nat, s': State) {
    && k < |s.slots|
    && !AnsweredARunningWrite(s, s.slots[k])
    && !GenesisAlive(s)
    && s' == s.(slots := s.slots[k := s.nextId],
                replicas := s.replicas[s.nextId := Replica(k, FRESH)],
                nextId := s.nextId + 1,
                replaced := true)
  }

  /** At first slot 0 bootstrapped the root, ready and in genesis; the others hold the root only. */
  ghost predicate Init(s: State) {
    && |s.slots| >= 2
    && (forall k :: 0 <= k < |s.slots| ==> s.slots[k] == k)
    && s.nextId == |s.slots|
    && s.replicas.Keys == Below(|s.slots|)
    && (forall id :: id in s.replicas ==>
        s.replicas[id] == Replica(id, if id == 0 then Inner(map[], true, false, true) else FRESH))
    && s.rounds == map[] && s.answers == {} && s.nextNonce == 0
    && s.writes == [] && s.acked == map[]
    && !s.everFormed && !s.replaced && !s.expired
  }

  ghost predicate Next(s: State, step: Step, s': State) {
    match step
    case StartRead(id, path) => StartReadStep(s, id, path, s')
    case StartSync(id) => StartSyncStep(s, id, s')
    case StartWrite(id, path, update) => StartWriteStep(s, id, path, update, s')
    case Answers(id, nonce) => AnswersStep(s, id, nonce, s')
    case FinishRead(nonce, heard) => FinishReadStep(s, nonce, heard, s')
    case FinishWrite(nonce, heard) => FinishWriteStep(s, nonce, heard, s')
    case FinishSync(nonce, heard) => FinishSyncStep(s, nonce, heard, s')
    case Abandon(nonce) => AbandonStep(s, nonce, s')
    case Expire(id) => ExpireStep(s, id, s')
    case Replace(k) => ReplaceStep(s, k, s')
  }
}
