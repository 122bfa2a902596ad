/**
 The rollback calls as the service answers them (`handle` and `answer` in
 mero-kms/src/handlers/rollback.rs): a peer id of the right shape, a MAC under the key of
 the session the call names, and only then the counters. Keys and MACs are ideal: a key
 is the root and the info it was derived from, a tag the key and the message.
 */
module RollbackHandler {
  import opened Outcomes
  import opened Text
  import opened CounterViews
  import opened CounterReplica
  import opened CounterCalls
  import opened CounterProtocol
  import opened CounterInvariant
  import opened KeyPaths
  import opened RollbackCalls
  import opened Counters
  import F = Framing
  import PeerIds

  datatype Kind = Raise | Reset

  datatype Call = Call(kind: Kind, peer: string, node: U64, session: Bytes, generation: U64, mark: U64, nonce: Bytes)

  datatype SessionKey = SessionKey(root: nat, info: string)
  datatype Tag = Tag(key: SessionKey, message: Bytes)

  /** What the call answers: the node's entry and the cluster's epoch, under the session's key. */
  datatype Acknowledgement = Acknowledgement(epoch: U64, entry: Entry, tag: Tag)

  datatype CallRefusal = BadPeerId(peerError: PeerIds.PeerIdError) | NoRoot | BadMac | Refused(error: CounterError)

  ghost predicate Sized(call: Call) {
    |call.session| == 16 && IsBytes(call.session) && |call.nonce| == 32
  }

  function MessageOf(call: Call): F.Message {
    if call.kind.Raise? then F.Raise(call.peer, call.node, call.session, call.generation, call.mark, call.nonce)
    else F.Reset(call.peer, call.node, call.session, call.generation, call.mark, call.nonce)
  }

  function KeyOf(root: nat, c: Config, call: Call): SessionKey
    requires IsBytes(call.session)
  {
    SessionKey(root, F.SessionInfo(KeyPath(c, Node, call.peer), call.node, call.session))
  }

  /** A call is let through to the counters only with its session's MAC over all of it. */
  function Authorize(root: Option<nat>, c: Config, call: Call, tag: Tag): Option<CallRefusal>
    requires IsBytes(call.session)
  {
    var peer := PeerIds.Validate(call.peer);
    if peer.Err? then Some(BadPeerId(peer.error))
    else if root.None? then Some(NoRoot)
    else if tag != Tag(KeyOf(root.value, c, call), F.Frame(MessageOf(call))) then Some(BadMac)
    else None
  }

  function Acknowledge(root: nat, c: Config, call: Call, counters: Cluster): Acknowledgement
    requires IsBytes(call.session)
  {
    var entry := EntryOf(counters, call.node);
    Acknowledgement(counters.epoch, entry,
                    Tag(KeyOf(root, c, call), F.Frame(F.Ack(call.nonce, counters.epoch, entry.generation, entry.mark))))
  }

  /** What the counters answer the call, and the state it leaves them in. */
  ghost function CallOf(call: Call, path: string, self: Self, i: Inner, xs: Exchanges): (Inner, Result<Cluster, CounterError>) {
    if call.kind.Raise? then RaiseCall(self, i, path, call.node, Entry(call.generation, call.mark), xs)
    else ResetCall(self, i, path, call.node, call.mark, xs)
  }

  /**
   Nothing is asked of the counters before the MAC holds; then the call is a raise or a
   reset of the path's counters, whose refusal is the answer, or whose value is acknowledged.
   */
  method Answer(counters: Counters, root: Option<nat>, c: Config, call: Call, tag: Tag, now: nat, xs: Exchanges)
      returns (r: Result<Acknowledgement, CallRefusal>)
    requires IsBytes(call.session) && counters.Valid()
    modifies counters
    ensures counters.Valid()
    ensures var refusal := Authorize(root, c, call, tag);
            refusal.Some? ==> r == Err(refusal.value) && counters.At(now) == old(counters.At(now))
    ensures Authorize(root, c, call, tag).None? ==>
              var (i', v) := CallOf(call, KeyPath(c, Node, call.peer), Self(counters.replicaId, counters.replicas), old(counters.At(now)), xs);
              && counters.At(now) == i'
              && r == match v case Ok(held) => Ok(Acknowledge(root.value, c, call, held)) case Err(e) => Err(Refused(e))
  {
    hide Acknowledge, KeyPath, RaiseCall, ResetCall, counters.Valid, PeerIds.Validate, F.Frame, KeyOf;
    var refusal := Authorize(root, c, call, tag);
    if refusal.Some? {
      return Err(refusal.value);
    }
    assert root.Some?;
    var path := KeyPath(c, Node, call.peer);
    var v: Result<Cluster, CounterError>;
    if call.kind.Raise? {
      v := counters.Raise(now, path, call.node, Entry(call.generation, call.mark), xs);
    } else {
      v := counters.Reset(now, path, call.node, call.mark, xs);
    }
    if v.Err? {
      return Err(Refused(v.error));
    }
    r := Ok(Acknowledge(root.value, c, call, v.value));
  }

  /**
   Who is let through, field by field: a peer id of 1 to 128 base58 characters, on a replica
   with a root, with the tag of that root's key for the path, the node and the session, over
   the very call. Otherwise the first of the three is the refusal.
   */
  lemma AuthorizedIff(root: Option<nat>, c: Config, call: Call, tag: Tag)
    requires IsBytes(call.session)
    ensures var path := (((Prefix(c, Node) + "/") + c.profile) + "/") + call.peer;
            var message := if call.kind == Raise
                           then F.Raise(call.peer, call.node, call.session, call.generation, call.mark, call.nonce)
                           else F.Reset(call.peer, call.node, call.session, call.generation, call.mark, call.nonce);
            match Authorize(root, c, call, tag)
            case None =>
              && PeerIds.Valid(call.peer) && root.Some?
              && tag.key.root == root.value && tag.key.info == (((path + "\n") + Decimal(call.node)) + "\n") + Hex(call.session)
              && tag.message == F.Frame(message)
            case Some(refusal) =>
              match refusal
              case BadPeerId(_) => !PeerIds.Valid(call.peer)
              case NoRoot => PeerIds.Valid(call.peer) && root.None?
              case BadMac =>
                && PeerIds.Valid(call.peer) && root.Some?
                && !(tag.key.root == root.value && tag.key.info == (((path + "\n") + Decimal(call.node)) + "\n") + Hex(call.session)
                     && tag.message == F.Frame(message))
              case Refused(_) => false
  {
    hide PeerIds.Validate, PeerIds.Valid, F.Frame, Prefix, Decimal, Hex;
    PeerIds.ValidateAcceptsExactlyTheShape(call.peer);
  }

  /** The acknowledgement's tag: the session's key, over the call's nonce and the very values acknowledged. */
  lemma AcknowledgementIs(root: nat, c: Config, call: Call, counters: Cluster)
    requires IsBytes(call.session)
    ensures var ack := Acknowledge(root, c, call, counters);
            && ack.epoch == counters.epoch
            && (call.node in counters.nodes ==> ack.entry == counters.nodes[call.node])
            && (call.node !in counters.nodes ==> ack.entry == Entry(0, 0))
            && ack.tag.message == F.Frame(F.Ack(call.nonce, ack.epoch, ack.entry.generation, ack.entry.mark))
            && forall tag :: Authorize(Some(root), c, call, tag).None? ==> ack.tag.key == tag.key
  {
    hide KeyPath, F.Frame, F.SessionInfo, PeerIds.Validate;
  }

  /**
   An acknowledgement of these counters, in which one entry was written among `views`: the
   node's entry is the largest of the one asked for and theirs, and so exactly the one asked
   for if and only if none of them had the node above it.
   */
  ghost predicate Acknowledges(ack: Acknowledgement, v: Cluster, views: seq<Cluster>, epoch: U64, node: U64, asked: Entry) {
    && OneEntryWritten(v, views, epoch, node, asked)
    && ack.epoch == v.epoch && ack.entry == v.nodes[node] && EntryLe(asked, ack.entry)
    && (ack.entry == asked <==> forall x :: x in views ==> EntryLe(EntryOf(x, node), asked))
  }

  lemma WrittenIsAcknowledged(root: nat, c: Config, call: Call, v: Cluster, views: seq<Cluster>, epoch: U64, asked: Entry)
    requires IsBytes(call.session) && OneEntryWritten(v, views, epoch, call.node, asked)
    ensures Acknowledges(Acknowledge(root, c, call, v), v, views, epoch, call.node, asked)
  {
    WrittenEntryStandsIff(v, views, epoch, call.node, asked);
    hide KeyOf, F.Frame;
  }

  /** What an answered raise acknowledges, in a cluster of any size. */
  lemma AnsweredRaise(root: nat, c: Config, call: Call, path: string, self: Self, i: Inner, xs: Exchanges)
    requires Within(i.views) && IsBytes(call.session) && call.kind.Raise? && CallOf(call, path, self, i, xs).1.Ok?
    ensures var v := CallOf(call, path, self, i, xs).1;
            Acknowledges(Acknowledge(root, c, call, v.value), v.value, MergedViews(self, i, path, xs.first, xs.sent),
                         0, call.node, Entry(call.generation, call.mark))
  {
    hide Within, Acknowledge, RaiseCall, MergedViews, OneEntryWritten, Acknowledges;
    RaiseIsExact(self, i, path, call.node, Entry(call.generation, call.mark), xs);
    var v := RaiseCall(self, i, path, call.node, Entry(call.generation, call.mark), xs).1.value;
    WrittenIsAcknowledged(root, c, call, v, MergedViews(self, i, path, xs.first, xs.sent), 0, Entry(call.generation, call.mark));
  }

  /** And an answered reset: the epoch after the one it read, which is no earlier than was held, and the store's mark. */
  lemma AnsweredReset(root: nat, c: Config, call: Call, path: string, self: Self, i: Inner, xs: Exchanges)
    requires Within(i.views) && IsBytes(call.session) && call.kind.Reset? && CallOf(call, path, self, i, xs).1.Ok?
    ensures var v := CallOf(call, path, self, i, xs).1;
            var (read, current) := ReadCall(self, i, path, xs.asked);
            && current.Ok? && View(i.views, path).epoch <= current.value.epoch < U64_MAX
            && Acknowledges(Acknowledge(root, c, call, v.value), v.value, MergedViews(self, read, path, xs.first, xs.sent),
                            current.value.epoch + 1, call.node, Entry(current.value.epoch + 1, call.mark))
  {
    hide Within, Acknowledge, ResetCall, ReadCall, MergedViews, OneEntryWritten, Acknowledges;
    ResetReads(self, i, path, call.node, call.mark, xs);
    var (read, current) := ReadCall(self, i, path, xs.asked);
    var v := ResetCall(self, i, path, call.node, call.mark, xs).1.value;
    ResetWritten(self, i, path, call.node, call.mark, xs);
    WrittenIsAcknowledged(root, c, call, v, MergedViews(self, read, path, xs.first, xs.sent), current.value.epoch + 1, Entry(current.value.epoch + 1, call.mark));
  }

  lemma ResetReads(self: Self, i: Inner, path: string, node: U64, mark: U64, xs: Exchanges)
    requires Within(i.views) && ResetCall(self, i, path, node, mark, xs).1.Ok?
    ensures var current := ReadCall(self, i, path, xs.asked).1;
            current.Ok? && View(i.views, path).epoch <= current.value.epoch < U64_MAX
  {
    hide Within, ReadCall, WriteCall, Le;
    ReadCallGrows(self, i, path, xs.asked);
    ResetEntry(self, i, path, node, mark, xs);
  }

  lemma ResetWritten(self: Self, i: Inner, path: string, node: U64, mark: U64, xs: Exchanges)
    requires Within(i.views) && ResetCall(self, i, path, node, mark, xs).1.Ok?
    requires var current := ReadCall(self, i, path, xs.asked).1; current.Ok? && current.value.epoch < U64_MAX
    ensures var (read, current) := ReadCall(self, i, path, xs.asked);
            OneEntryWritten(ResetCall(self, i, path, node, mark, xs).1.value, MergedViews(self, read, path, xs.first, xs.sent),
                            current.value.epoch + 1, node, Entry(current.value.epoch + 1, mark))
  {
    hide Within, ReadCall, ResetCall, MergedViews, OneEntryWritten;
    ResetIsExact(self, i, path, node, mark, xs);
  }

  /** A call, answered or refused, lowers nothing; answered, it answers no less than was held and keeps its answer. */
  lemma CallGrows(call: Call, path: string, self: Self, i: Inner, xs: Exchanges)
    requires Within(i.views)
    ensures var (i', r) := CallOf(call, path, self, i, xs);
            && Grows(i, i') && Within(i'.views)
            && (r.Ok? ==> Le(View(i.views, path), r.value) && Le(r.value, View(i'.views, path)))
  {
    hide Within, ReadCall, WriteCall, Le, Grows;
    if call.kind.Raise? {
      WriteCallGrows(self, i, path, RaiseUpdate(call.node, Entry(call.generation, call.mark)), xs.first, xs.sent);
    } else {
      var (read, current) := ReadCall(self, i, path, xs.asked);
      ReadCallGrows(self, i, path, xs.asked);
      var update := if current.Ok? then ResetUpdate(current.value, call.node, call.mark) else None;
      if update.Some? {
        WriteCallGrows(self, read, path, update.value, xs.first, xs.sent);
        var (i', r) := WriteCall(self, read, path, update.value, xs.first, xs.sent);
        GrowsIsTransitive(i, read, i');
        if r.Ok? {
          LeIsTransitive(View(i.views, path), current.value, View(read.views, path));
          LeIsTransitive(View(i.views, path), View(read.views, path), r.value);
        }
      }
    }
  }

  /** A reset at the largest epoch is refused, and asks no replica to take anything. */
  lemma ResetStopsAtTheMaximum(call: Call, path: string, self: Self, i: Inner, xs: Exchanges)
    requires call.kind.Reset? && ReadCall(self, i, path, xs.asked).1.Ok?
    ensures var read := ReadCall(self, i, path, xs.asked);
            read.1.value.epoch == U64_MAX ==> CallOf(call, path, self, i, xs) == (read.0, Err(CounterLimit))
  {
    hide ReadCall, WriteCall;
  }

  lemma PathOwner(env: Env, call: Call, call': Call)
    requires Load(env).Ok? && PeerIds.Valid(call.peer) && PeerIds.Valid(call'.peer) && Sized(call) && Sized(call')
    requires F.SessionInfo(KeyPath(Load(env).value, Node, call.peer), call.node, call.session)
             == F.SessionInfo(KeyPath(Load(env).value, Node, call'.peer), call'.node, call'.session)
    ensures call.peer == call'.peer && call.node == call'.node && call.session == call'.session
  {
    hide KeyPath, Load, F.SessionInfo, PeerIds.Valid;
    var c := Load(env).value;
    F.SessionInfoIsInjective(KeyPath(c, Node, call.peer), call.node, call.session, KeyPath(c, Node, call'.peer), call'.node, call'.session);
    KeyPathIsInjective(env, Node, call.peer, Node, call'.peer);
  }

  /** One tag authorizes one call: its kind, its peer, node and session, and every value in it. */
  lemma OneTagOneCall(root: nat, env: Env, call: Call, root': nat, call': Call, tag: Tag)
    requires Load(env).Ok? && Sized(call) && Sized(call')
    requires Authorize(Some(root), Load(env).value, call, tag).None? && Authorize(Some(root'), Load(env).value, call', tag).None?
    ensures root == root' && call == call'
  {
    hide Load, KeyPath, PeerIds.Validate, PeerIds.Valid, F.Frame, F.SessionInfo;
    PeerIds.ValidateAcceptsExactlyTheShape(call.peer);
    PeerIds.ValidateAcceptsExactlyTheShape(call'.peer);
    F.FrameIsInjective(MessageOf(call), MessageOf(call'));
    PathOwner(env, call, call');
  }

  /** A request's tag never passes as an acknowledgement's, nor an acknowledgement of one call for another's. */
  lemma AcknowledgementsAreBound(root: nat, env: Env, call: Call, counters: Cluster, root': nat, call': Call, counters': Cluster)
    requires Load(env).Ok? && Sized(call) && Sized(call') && PeerIds.Valid(call.peer) && PeerIds.Valid(call'.peer)
    ensures var (a, b) := (Acknowledge(root, Load(env).value, call, counters), Acknowledge(root', Load(env).value, call', counters'));
            && a.tag.message != F.Frame(MessageOf(call'))
            && (a.tag == b.tag ==>
                && root == root' && call.peer == call'.peer && call.node == call'.node && call.session == call'.session
                && call.nonce == call'.nonce && a.epoch == b.epoch && a.entry == b.entry)
  {
    hide Load, KeyPath, PeerIds.Valid, F.Frame, F.SessionInfo;
    var (a, b) := (Acknowledge(root, Load(env).value, call, counters), Acknowledge(root', Load(env).value, call', counters'));
    var (m, m') := (F.Ack(call.nonce, a.epoch, a.entry.generation, a.entry.mark), F.Ack(call'.nonce, b.epoch, b.entry.generation, b.entry.mark));
    if F.Frame(m) == F.Frame(MessageOf(call')) {
      F.FrameIsInjective(m, MessageOf(call'));
    }
    if a.tag == b.tag {
      F.FrameIsInjective(m, m');
      PathOwner(env, call, call');
    }
  }

  /**
   What a node is acknowledged, in every state of every run: for a raise an entry at or above
   the one it sent, for a reset one at or above the new epoch and its mark.
   */
  lemma AcknowledgedEntry(
      s: State, w: Nonce, heard: seq<Answer>, root: nat, c: Config, call: Call, current: Cluster, v: Cluster)
    requires Running(s, w) && s.rounds[w].request.Merge? && IsBytes(call.session)
    requires call.kind.Raise? ==> s.rounds[w].request.update == Cluster(0, map[call.node := Entry(call.generation, call.mark)])
    requires call.kind.Reset? ==>
               && current.epoch < U64_MAX
               && s.rounds[w].request.update == Cluster(current.epoch + 1, map[call.node := Entry(current.epoch + 1, call.mark)])
    requires var r := s.rounds[w];
             WriteTail(|s.slots|, s.replicas[r.caller].inner, r.request.path, r.view, heard).1 == Some(v)
    requires Inv(s) && Heard(s, w, heard)
    ensures call.node in v.nodes && Acknowledge(root, c, call, v).entry == v.nodes[call.node]
    ensures call.kind.Raise? ==> EntryLe(Entry(call.generation, call.mark), Acknowledge(root, c, call, v).entry)
    ensures call.kind.Reset? ==> Acknowledge(root, c, call, v).epoch > current.epoch
                                 && EntryLe(Entry(current.epoch + 1, call.mark), Acknowledge(root, c, call, v).entry)
  {
    hide Inv, Heard, WriteTail, KeyPath, F.Frame, F.SessionInfo;
    if call.kind.Raise? {
      AckedRaiseReturnsTheEntry(s, w, heard, v, call.node, Entry(call.generation, call.mark));
    } else {
      AckedResetReturnsTheNewEpoch(s, w, heard, v, current, call.node, call.mark);
    }
  }
}
