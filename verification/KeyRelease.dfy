/**
 `/get-key` as a pipeline of checks (`release_key` in mero-kms/src/handlers/get_key.rs):
 shape of the request, challenge, signature, quote, policy, counters, and only then the
 challenge is spent and the key derived. Signatures and quotes are ideal: a signature
 is what a key signed, a quote's report data is the preimage it hashes.
 */
module KeyRelease {
  import opened Outcomes
  import opened Text
  import opened CounterViews
  import opened Framing
  import opened Challenges
  import opened KeyPaths
  import opened Policy
  import PeerIds

  /** What a node signs: the challenge, its nonce, the quote, its peer id, and what it asked for. */
  datatype Payload = Payload(challengeId: string, nonce: Bytes, quote: Quote, peer: string, sealTo: Option<Bytes>, node: Option<U64>)

  /** A quote: whether its signature chain verifies, what it commits to, and what it measures. */
  datatype Quote = Quote(genuine: bool, nonce: Bytes, committed: Bytes, tcb: Option<string>, registers: Registers)

  /** `signer` is the peer id of the key supplied, `signed` what the signature verifies for under it. */
  datatype Request = Request(
    peer: string,
    challengeId: string,
    quote: Quote,
    signer: Option<string>,
    signed: Option<Payload>,
    sealTo: Option<Bytes>,
    node: Option<U64>)

  datatype Server = Server(mac: Mac, ttl: U64, capacity: nat, env: Env, policy: AttestationPolicy, requireSealed: bool)

  datatype CounterFailure = CountersUnavailable | CounterLimit

  datatype KeyRefusal =
    | InvalidPeerId(peerError: PeerIds.PeerIdError)
    | CountersNeedSealing
    | SealingRequired
    | Challenge(challengeError: ChallengeError)
    | InvalidPeerKey
    | PeerIdentityMismatch
    | InvalidSignature
    | NonceMismatch
    | BindingMismatch
    | QuoteNotGenuine
    | PolicyRefused(refusal: Refusal)
    | CountersAreForNodes
    | Counters(failure: CounterFailure)

  /** A node's counter as released: with no entry, its generation is the cluster's epoch. */
  datatype Record = Record(epoch: U64, generation: U64, mark: Option<U64>)

  /** The key at `keyPath`, in the clear or sealed to the node's one-time key. */
  datatype Release = Release(keyPath: string, sealTo: Option<Bytes>, nonce: Bytes, record: Option<Record>)

  /** What passed: the challenge's nonce and expiry, and the role the quote was admitted as. */
  datatype Admitted = Admitted(nonce: Digest, expiresAt: U64, role: Role)

  /** What the quote's report data must carry after the nonce. */
  function Binding(r: Request): Message {
    if r.sealTo.Some? && r.node.Some? then SealedRequestV2(r.sealTo.value, r.peer, r.node.value)
    else if r.sealTo.Some? then SealedRequest(r.sealTo.value, r.peer)
    else LegacyRequest(r.peer)
  }

  function ExpectedPayload(r: Request, nonce: Bytes): Payload {
    Payload(r.challengeId, nonce, r.quote, r.peer, r.sealTo, r.node)
  }

  function RecordOf(counters: Cluster, node: U64): Record {
    if node in counters.nodes then Record(counters.epoch, counters.nodes[node].generation, Some(counters.nodes[node].mark))
    else Record(counters.epoch, counters.epoch, None)
  }

  function ShapeRefusal(s: Server, r: Request): Option<KeyRefusal> {
    var peer := PeerIds.Validate(r.peer);
    if peer.Err? then Some(InvalidPeerId(peer.error))
    else if r.node.Some? && r.sealTo.None? then Some(CountersNeedSealing)
    else if r.sealTo.None? && s.requireSealed then Some(SealingRequired)
    else None
  }

  function SignatureRefusal(r: Request, nonce: Bytes): Option<KeyRefusal> {
    if r.signer.None? then Some(InvalidPeerKey)
    else if r.signer.value != r.peer then Some(PeerIdentityMismatch)
    else if r.signed != Some(ExpectedPayload(r, nonce)) then Some(InvalidSignature)
    else None
  }

  function QuoteRefusal(r: Request, nonce: Bytes): Option<KeyRefusal> {
    if r.quote.nonce != nonce then Some(NonceMismatch)
    else if r.quote.committed != Frame(Binding(r)) then Some(BindingMismatch)
    else if !r.quote.genuine then Some(QuoteNotGenuine)
    else None
  }

  function RoleOf(s: Server, r: Request): Result<Role, Refusal> {
    if s.policy.enforced then Enforced(s.policy, r.quote.tcb, r.quote.registers) else Ok(Node)
  }

  /** Every check up to the role, in order. */
  function Admit(s: Server, r: Request, now: U64): Result<Admitted, KeyRefusal> {
    var shape := ShapeRefusal(s, r);
    if shape.Some? then Err(shape.value)
    else
      var token := Open(s.mac, r.challengeId, r.peer, now, s.ttl);
      if token.Err? then Err(Challenge(token.error))
      else
        var (nonce, expiresAt) := token.value;
        var signature, quote, role := SignatureRefusal(r, nonce), QuoteRefusal(r, nonce), RoleOf(s, r);
        if signature.Some? then Err(signature.value)
        else if quote.Some? then Err(quote.value)
        else if role.Err? then Err(PolicyRefused(role.error))
        else Ok(Admitted(nonce, expiresAt, role.value))
  }

  /** The counters a request asks for: kept for nodes only, and read before the challenge is spent. */
  function CountersFor(r: Request, role: Role, read: Result<Cluster, CounterFailure>): Result<Option<Record>, KeyRefusal> {
    if r.node.None? then Ok(None)
    else if role != Node then Err(CountersAreForNodes)
    else if read.Err? then Err(Counters(read.error))
    else Ok(Some(RecordOf(read.value, r.node.value)))
  }

  /**
   One request: opened at `now`, spent at `later`. `read` is what reading the key path's
   counters answers, `c` the loaded configuration.
   */
  function Pipeline(
      s: Server, c: Config, spent: SpentMap, r: Request, now: U64, later: U64, read: Result<Cluster, CounterFailure>)
      : (SpentMap, Result<Release, KeyRefusal>)
  {
    var admitted := Admit(s, r, now);
    if admitted.Err? then (spent, Err(admitted.error))
    else
      var counters := CountersFor(r, admitted.value.role, read);
      if counters.Err? then (spent, Err(counters.error))
      else
        var (after, answer) := Spend(spent, Lower(r.challengeId), admitted.value.expiresAt, later, s.capacity);
        if answer.Err? then (after, Err(Challenge(answer.error)))
        else (after, Ok(Release(KeyPath(c, admitted.value.role, r.peer), r.sealTo, admitted.value.nonce, counters.value)))
  }

  class Releaser {
    const server: Server
    const config: Config
    const challenges: SpentChallenges

    constructor (server: Server, config: Config)
      ensures this.server == server && this.config == config && fresh(challenges) && challenges.spent == map[]
    {
      this.server, this.config := server, config;
      challenges := new SpentChallenges();
    }

    /** The handler: each refusal returns before anything later is looked at. */
    method ReleaseKey(r: Request, now: U64, later: U64, read: Result<Cluster, CounterFailure>) returns (answer: Result<Release, KeyRefusal>)
      modifies challenges
      ensures (challenges.spent, answer) == Pipeline(server, config, old(challenges.spent), r, now, later, read)
    {
      hide Open, Spend, Enforced, KeyPath, PeerIds.Validate, Frame, Lower, RecordOf;
      var shape := ShapeRefusal(server, r);
      if shape.Some? {
        return Err(shape.value);
      }
      var token := Open(server.mac, r.challengeId, r.peer, now, server.ttl);
      if token.Err? {
        return Err(Challenge(token.error));
      }
      var (nonce, expiresAt) := token.value;
      var signature := SignatureRefusal(r, nonce);
      if signature.Some? {
        return Err(signature.value);
      }
      var quote := QuoteRefusal(r, nonce);
      if quote.Some? {
        return Err(quote.value);
      }
      var role := Enforce(server.policy, r.quote.tcb, r.quote.registers);
      if role.Err? {
        return Err(PolicyRefused(role.error));
      }
      var counters := CountersFor(r, role.value, read);
      if counters.Err? {
        return Err(counters.error);
      }
      var spent := challenges.Record(Lower(r.challengeId), expiresAt, later, server.capacity);
      if spent.Err? {
        return Err(Challenge(spent.error));
      }
      answer := Ok(Release(KeyPath(config, role.value, r.peer), r.sealTo, nonce, counters.value));
    }
  }

  // ---- what a release means ----

  /** What must hold of a request for the key at its path to be released, but for the spending of its challenge. */
  ghost predicate Passes(s: Server, r: Request, now: U64, read: Result<Cluster, CounterFailure>, role: Role) {
    && PeerIds.Valid(r.peer)
    && (r.sealTo.Some? || (r.node.None? && !s.requireSealed))
    && Open(s.mac, r.challengeId, r.peer, now, s.ttl).Ok?
    && var (nonce, expiresAt) := Open(s.mac, r.challengeId, r.peer, now, s.ttl).value;
    && r.signer == Some(r.peer) && r.signed == Some(Payload(r.challengeId, nonce, r.quote, r.peer, r.sealTo, r.node))
    && r.quote.genuine && r.quote.nonce == nonce
    && (r.sealTo.None? ==> r.quote.committed == Frame(LegacyRequest(r.peer)))
    && (r.sealTo.Some? && r.node.None? ==> r.quote.committed == Frame(SealedRequest(r.sealTo.value, r.peer)))
    && (r.sealTo.Some? && r.node.Some? ==> r.quote.committed == Frame(SealedRequestV2(r.sealTo.value, r.peer, r.node.value)))
    && (s.policy.enforced ==> Enforced(s.policy, r.quote.tcb, r.quote.registers) == Ok(role))
    && (!s.policy.enforced ==> role == Node)
    && (r.node.Some? ==> role == Node && read.Ok?)
  }

  /** And its challenge is not spent, and there is room to note that it then is. */
  ghost predicate Entitled(s: Server, spent: SpentMap, r: Request, now: U64, later: U64, read: Result<Cluster, CounterFailure>, role: Role) {
    && Passes(s, r, now, read, role)
    && Lower(r.challengeId) !in Prune(spent, later) && |Prune(spent, later)| < s.capacity
  }

  /**
   A node's counter as released: the cluster's epoch, and the node's own entry; with no
   entry, the generation is the epoch and there is no mark.
   */
  ghost predicate Records(record: Record, counters: Cluster, node: U64) {
    && record.epoch == counters.epoch
    && (node in counters.nodes ==>
          record.generation == counters.nodes[node].generation && record.mark == Some(counters.nodes[node].mark))
    && (node !in counters.nodes ==> record.generation == counters.epoch && record.mark == None)
  }

  /**
   A key is released exactly to the entitled, from the path of the role the quote was
   admitted as, under the challenge's nonce, with the node's own counter if it asked for it.
   */
  lemma ReleasedExactlyToTheEntitled(
      s: Server, c: Config, spent: SpentMap, r: Request, now: U64, later: U64, read: Result<Cluster, CounterFailure>)
    ensures var answer := Pipeline(s, c, spent, r, now, later, read).1;
            && (answer.Ok? <==> exists role :: Entitled(s, spent, r, now, later, read, role))
            && (forall role :: Entitled(s, spent, r, now, later, read, role) ==>
                answer.Ok? && answer.value.keyPath == KeyPath(c, role, r.peer)
                && answer.value.sealTo == r.sealTo
                && answer.value.nonce == Open(s.mac, r.challengeId, r.peer, now, s.ttl).value.0
                && (r.node.None? ==> answer.value.record == None)
                && (r.node.Some? ==> answer.value.record.Some? && Records(answer.value.record.value, read.value, r.node.value)))
  {
    hide Open, Enforced, KeyPath, PeerIds.Validate, PeerIds.Valid, Frame, Lower, Prune, RecordOf, Records;
    PeerIds.ValidateAcceptsExactlyTheShape(r.peer);
    if r.node.Some? && read.Ok? {
      RecordsTheEntry(read.value, r.node.value);
    }
    if Pipeline(s, c, spent, r, now, later, read).1.Ok? {
      assert Entitled(s, spent, r, now, later, read, RoleOf(s, r).value);
    }
  }

  lemma RecordsTheEntry(counters: Cluster, node: U64)
    ensures Records(RecordOf(counters, node), counters, node)
  {
  }

  /** Each refusal has its cause, and whatever is checked before it holds. */
  lemma RefusalsHaveTheirCause(
      s: Server, c: Config, spent: SpentMap, r: Request, now: U64, later: U64, read: Result<Cluster, CounterFailure>)
    requires Pipeline(s, c, spent, r, now, later, read).1.Err?
    ensures var token := Open(s.mac, r.challengeId, r.peer, now, s.ttl);
            var role := if s.policy.enforced then Enforced(s.policy, r.quote.tcb, r.quote.registers) else Ok(Node);
            match Pipeline(s, c, spent, r, now, later, read).1.error
            case InvalidPeerId(_) => !PeerIds.Valid(r.peer)
            case CountersNeedSealing => PeerIds.Valid(r.peer) && r.node.Some? && r.sealTo.None?
            case SealingRequired => PeerIds.Valid(r.peer) && r.node.None? && r.sealTo.None? && s.requireSealed
            case Challenge(e) => token == Err(e) || (token.Ok? && Spend(spent, Lower(r.challengeId), token.value.1, later, s.capacity).1 == Err(e))
            case InvalidPeerKey => token.Ok? && r.signer.None?
            case PeerIdentityMismatch => token.Ok? && r.signer.Some? && r.signer.value != r.peer
            case InvalidSignature =>
              token.Ok? && r.signer == Some(r.peer)
              && r.signed != Some(Payload(r.challengeId, token.value.0, r.quote, r.peer, r.sealTo, r.node))
            case NonceMismatch => token.Ok? && r.signed.Some? && r.quote.nonce != token.value.0
            case BindingMismatch => token.Ok? && r.signed.Some? && r.quote.nonce == token.value.0
                                    && (r.sealTo.None? ==> r.quote.committed != Frame(LegacyRequest(r.peer)))
            case QuoteNotGenuine => token.Ok? && r.signed.Some? && r.quote.nonce == token.value.0 && !r.quote.genuine
            case PolicyRefused(e) => token.Ok? && r.quote.genuine && role == Err(e)
            case CountersAreForNodes => role.Ok? && role.value == Agent && r.node.Some?
            case Counters(e) => role == Ok(Node) && r.node.Some? && read == Err(e)
  {
    hide Open, Enforced, KeyPath, PeerIds.Validate, PeerIds.Valid, Frame, Lower, Spend, RecordOf;
    PeerIds.ValidateAcceptsExactlyTheShape(r.peer);
  }

  /**
   A refusal before the challenge is spent leaves the spent map as it was; one by the map
   itself only forgets expired ids; a release adds its id, in lower case.
   */
  lemma OnlyAReleaseSpends(
      s: Server, c: Config, spent: SpentMap, r: Request, now: U64, later: U64, read: Result<Cluster, CounterFailure>)
    ensures var (after, answer) := Pipeline(s, c, spent, r, now, later, read);
            && (answer.Err? ==> after == spent || after == Prune(spent, later))
            && (answer.Err? && answer.error != Challenge(AlreadyUsed) && answer.error != Challenge(RateLimited) ==> after == spent)
            && (answer.Ok? ==>
                && Open(s.mac, r.challengeId, r.peer, now, s.ttl).Ok?
                && after == Prune(spent, later)[Lower(r.challengeId) := Open(s.mac, r.challengeId, r.peer, now, s.ttl).value.1])
  {
    hide Enforced, KeyPath, PeerIds.Validate, Frame, Lower, Prune, RecordOf, HexDecode, Expiry, TagOf, NonceOf;
  }

  /** One quote serves one request: its nonce, peer, seal key and node id. */
  lemma AQuoteServesOneRequest(s: Server, r: Request, now: U64, r': Request, now': U64)
    requires Admit(s, r, now).Ok? && Admit(s, r', now').Ok? && r.quote == r'.quote
    requires forall x :: r.sealTo == Some(x) || r'.sealTo == Some(x) ==> |x| == 32
    ensures r.peer == r'.peer && r.sealTo == r'.sealTo && r.node == r'.node
    ensures Admit(s, r, now).value.nonce == Admit(s, r', now').value.nonce
  {
    hide Open, Enforced, PeerIds.Validate, PeerIds.Valid, Frame, ExpectedPayload;
    PeerIds.ValidateAcceptsExactlyTheShape(r.peer);
    PeerIds.ValidateAcceptsExactlyTheShape(r'.peer);
    FrameIsInjective(Binding(r), Binding(r'));
  }

  /**
   Under a configuration that loads and a policy that validates, the key at a node's path
   goes only to a quote that matches the node entry, and so for agents: whoever asks, and
   whatever peer id it presents.
   */
  lemma AKeyGoesToItsRoleOnly(
      s: Server, spent: SpentMap, r: Request, now: U64, later: U64, read: Result<Cluster, CounterFailure>, role: Role, peer: string)
    requires Load(s.env).Ok? && s.policy.enforced && Validate(s.policy).None? && PeerIds.Valid(peer)
    requires var answer := Pipeline(s, Load(s.env).value, spent, r, now, later, read).1;
             answer.Ok? && answer.value.keyPath == KeyPath(Load(s.env).value, role, peer)
    ensures r.peer == peer && r.signer == Some(peer)
    ensures exists i :: 0 <= i < |s.policy.entries| && s.policy.entries[i].role == role && Matches(s.policy.entries[i], r.quote.registers)
    ensures forall i :: 0 <= i < |s.policy.entries| && s.policy.entries[i].role != role ==> !Matches(s.policy.entries[i], r.quote.registers)
  {
    hide Load, Validate, Matches, KeyPath, Frame, Open, Spend, Enforced, PeerIds.Validate, PeerIds.Valid, Lower, RecordOf, TcbAllowed, IsClosest;
    PeerIds.ValidateAcceptsExactlyTheShape(r.peer);
    var admitted := Admit(s, r, now).value;
    KeyPathIsInjective(s.env, admitted.role, r.peer, role, peer);
    EnforcedIsExact(s.policy, r.quote.tcb, r.quote.registers);
    var i :| 0 <= i < |s.policy.entries| && Matches(s.policy.entries[i], r.quote.registers) && s.policy.entries[i].role == role;
    GrantedRoleIsTheMatchedEntrys(s.policy, r.quote.tcb, r.quote.registers, i);
  }

  // ---- runs ----

  datatype Attempt = Attempt(request: Request, now: U64, later: U64, read: Result<Cluster, CounterFailure>)

  /** The spent map after the first `n` requests to one replica. */
  function SpentAfter(s: Server, c: Config, attempts: seq<Attempt>, n: nat): SpentMap
    requires n <= |attempts|
  {
    if n == 0 then map[]
    else
      var a := attempts[n - 1];
      Pipeline(s, c, SpentAfter(s, c, attempts, n - 1), a.request, a.now, a.later, a.read).0
  }

  function AnswerTo(s: Server, c: Config, attempts: seq<Attempt>, n: nat): Result<Release, KeyRefusal>
    requires n < |attempts|
  {
    var a := attempts[n];
    Pipeline(s, c, SpentAfter(s, c, attempts, n), a.request, a.now, a.later, a.read).1
  }

  function ExpiryOf(s: Server, a: Attempt): U64
    requires Open(s.mac, a.request.challengeId, a.request.peer, a.now, s.ttl).Ok?
  {
    Open(s.mac, a.request.challengeId, a.request.peer, a.now, s.ttl).value.1
  }

  /** An id carries one expiry, in every letter case and for every asker. */
  lemma OneExpiryPerId(mac: Mac, id: string, peer: string, now: U64, id': string, peer': string, now': U64, ttl: U64)
    requires Lower(id) == Lower(id') && Open(mac, id, peer, now, ttl).Ok? && Open(mac, id', peer', now', ttl).Ok?
    ensures Open(mac, id, peer, now, ttl).value.1 == Open(mac, id', peer', now', ttl).value.1
  {
    HexDecodeIgnoresCase(id);
    HexDecodeIgnoresCase(id');
    hide HexDecode, Lower, TagOf, NonceOf, Expiry;
  }

  lemma {:induction false} ReleasedIsHeld(s: Server, c: Config, attempts: seq<Attempt>, i: nat, n: nat)
    requires i < n <= |attempts| && AnswerTo(s, c, attempts, i).Ok?
    requires forall j, k :: 0 <= j < k < |attempts| ==> attempts[j].later <= attempts[k].later
    requires Open(s.mac, attempts[i].request.challengeId, attempts[i].request.peer, attempts[i].now, s.ttl).Ok?
    requires attempts[n - 1].later <= ExpiryOf(s, attempts[i])
    ensures var id := Lower(attempts[i].request.challengeId);
            var held := SpentAfter(s, c, attempts, n);
            id in held && held[id] == ExpiryOf(s, attempts[i])
  {
    hide Pipeline, Open, Lower, Prune;
    var a := attempts[n - 1];
    var before := SpentAfter(s, c, attempts, n - 1);
    OnlyAReleaseSpends(s, c, before, a.request, a.now, a.later, a.read);
    if n > i + 1 {
      ReleasedIsHeld(s, c, attempts, i, n - 1);
      PruneKeeps(before, Lower(attempts[i].request.challengeId), a.later);
      if AnswerTo(s, c, attempts, n - 1).Ok? && Lower(a.request.challengeId) == Lower(attempts[i].request.challengeId) {
        OneExpiryPerId(s.mac, a.request.challengeId, a.request.peer, a.now,
                       attempts[i].request.challengeId, attempts[i].request.peer, attempts[i].now, s.ttl);
      }
    }
  }

  lemma PruneKeeps(spent: SpentMap, id: string, now: U64)
    requires id in spent && spent[id] >= now
    ensures id in Prune(spent, now) && Prune(spent, now)[id] == spent[id]
  {
  }

  /**
   Over every sequence of requests to one replica whose clock never goes back: two
   releases for one challenge, in any letter case, happen only if the later one was
   opened by the challenge's expiry and spent after it.
   */
  lemma OneReleasePerChallenge(s: Server, c: Config, attempts: seq<Attempt>, i: nat, j: nat)
    requires i < j < |attempts|
    requires forall k, m :: 0 <= k < m < |attempts| ==> attempts[k].later <= attempts[m].later
    requires Lower(attempts[i].request.challengeId) == Lower(attempts[j].request.challengeId)
    requires AnswerTo(s, c, attempts, i).Ok? && AnswerTo(s, c, attempts, j).Ok?
    ensures Open(s.mac, attempts[i].request.challengeId, attempts[i].request.peer, attempts[i].now, s.ttl).Ok?
    ensures attempts[j].now <= ExpiryOf(s, attempts[i]) < attempts[j].later
    ensures attempts[i].request.peer == attempts[j].request.peer || !NoCollisionAt(s.mac, attempts[i].request, attempts[j].request)
  {
    var (a, b) := (attempts[i], attempts[j]);
    var (before, held) := (SpentAfter(s, c, attempts, i), SpentAfter(s, c, attempts, j));
    hide Pipeline, Open, Lower, Prune, NoCollisionAt;
    OnlyAReleaseSpends(s, c, before, a.request, a.now, a.later, a.read);
    OnlyAReleaseSpends(s, c, held, b.request, b.now, b.later, b.read);
    OneExpiryPerId(s.mac, a.request.challengeId, a.request.peer, a.now, b.request.challengeId, b.request.peer, b.now, s.ttl);
    OpenedInTime(s.mac, b.request.challengeId, b.request.peer, b.now, s.ttl);
    OnePeerPerId(s, a.request, a.now, b.request, b.now);
    if b.later <= ExpiryOf(s, a) {
      ReleasedIsHeld(s, c, attempts, i, j);
      PruneKeeps(held, Lower(b.request.challengeId), b.later);
      ReleasedWasNotHeld(s, c, held, b.request, b.now, b.later, b.read);
      assert false;
    }
  }

  lemma ReleasedWasNotHeld(
      s: Server, c: Config, spent: SpentMap, r: Request, now: U64, later: U64, read: Result<Cluster, CounterFailure>)
    requires Pipeline(s, c, spent, r, now, later, read).1.Ok?
    ensures Lower(r.challengeId) !in Prune(spent, later)
  {
    hide Open, Enforced, KeyPath, PeerIds.Validate, Frame, Lower, Prune, RecordOf;
  }

  lemma OpenedInTime(mac: Mac, id: string, peer: string, now: U64, ttl: U64)
    requires Open(mac, id, peer, now, ttl).Ok?
    ensures now <= Open(mac, id, peer, now, ttl).value.1
  {
  }

  /** What is held under a challenge's id is that challenge's expiry. */
  lemma {:induction false} HeldIsItsExpiry(s: Server, c: Config, attempts: seq<Attempt>, i: nat, n: nat)
    requires i < |attempts| && n <= |attempts|
    requires Open(s.mac, attempts[i].request.challengeId, attempts[i].request.peer, attempts[i].now, s.ttl).Ok?
    ensures var id := Lower(attempts[i].request.challengeId);
            id in SpentAfter(s, c, attempts, n) ==> SpentAfter(s, c, attempts, n)[id] == ExpiryOf(s, attempts[i])
  {
    hide Pipeline, Open, Lower, Prune;
    if n > 0 {
      var a := attempts[n - 1];
      var before := SpentAfter(s, c, attempts, n - 1);
      HeldIsItsExpiry(s, c, attempts, i, n - 1);
      OnlyAReleaseSpends(s, c, before, a.request, a.now, a.later, a.read);
      PruneOnlyDrops(before, a.later);
      if AnswerTo(s, c, attempts, n - 1).Ok? && Lower(a.request.challengeId) == Lower(attempts[i].request.challengeId) {
        OneExpiryPerId(s.mac, a.request.challengeId, a.request.peer, a.now,
                       attempts[i].request.challengeId, attempts[i].request.peer, attempts[i].now, s.ttl);
      }
    }
  }

  lemma PruneOnlyDrops(spent: SpentMap, now: U64)
    ensures forall id :: id in Prune(spent, now) ==> id in spent && Prune(spent, now)[id] == spent[id] && spent[id] >= now
  {
  }

  /**
   The exact condition, over every such sequence: once a challenge released a key, a later
   request with it that passes every check is answered if and only if it is spent after the
   challenge's expiry and there is room for it.
   */
  lemma ReleasedAgainIffExpired(s: Server, c: Config, attempts: seq<Attempt>, i: nat, j: nat, role: Role)
    requires i < j < |attempts|
    requires forall k, m :: 0 <= k < m < |attempts| ==> attempts[k].later <= attempts[m].later
    requires Lower(attempts[i].request.challengeId) == Lower(attempts[j].request.challengeId)
    requires AnswerTo(s, c, attempts, i).Ok?
    requires Passes(s, attempts[j].request, attempts[j].now, attempts[j].read, role)
    ensures Open(s.mac, attempts[i].request.challengeId, attempts[i].request.peer, attempts[i].now, s.ttl).Ok?
    ensures AnswerTo(s, c, attempts, j).Ok? <==>
              && ExpiryOf(s, attempts[i]) < attempts[j].later
              && |Prune(SpentAfter(s, c, attempts, j), attempts[j].later)| < s.capacity
  {
    var (a, b) := (attempts[i], attempts[j]);
    var (before, held) := (SpentAfter(s, c, attempts, i), SpentAfter(s, c, attempts, j));
    hide Pipeline, Open, Lower, Prune, Passes;
    OnlyAReleaseSpends(s, c, before, a.request, a.now, a.later, a.read);
    ReleasedExactlyToTheEntitled(s, c, held, b.request, b.now, b.later, b.read);
    HeldIsItsExpiry(s, c, attempts, i, j);
    PruneOnlyDrops(held, b.later);
    if b.later <= ExpiryOf(s, a) {
      ReleasedIsHeld(s, c, attempts, i, j);
      PruneKeeps(held, Lower(b.request.challengeId), b.later);
    } else {
      assert Lower(b.request.challengeId) !in Prune(held, b.later);
      assert |Prune(held, b.later)| < s.capacity ==> Entitled(s, held, b.request, b.now, b.later, b.read, role);
    }
  }

  /** The tags of one id for two peers do not collide. */
  ghost predicate NoCollisionAt(mac: Mac, r: Request, r': Request) {
    var decoded := HexDecode(r.challengeId);
    decoded.Some? && |decoded.value| == ID_BYTES
    && (TagOf(mac, decoded.value[..BODY_BYTES], r.peer) == TagOf(mac, decoded.value[..BODY_BYTES], r'.peer) ==> r.peer == r'.peer)
  }

  lemma OnePeerPerId(s: Server, r: Request, now: U64, r': Request, now': U64)
    requires Lower(r.challengeId) == Lower(r'.challengeId)
    requires Open(s.mac, r.challengeId, r.peer, now, s.ttl).Ok? && Open(s.mac, r'.challengeId, r'.peer, now', s.ttl).Ok?
    ensures r.peer == r'.peer || !NoCollisionAt(s.mac, r, r')
  {
    HexDecodeIgnoresCase(r.challengeId);
    HexDecodeIgnoresCase(r'.challengeId);
    hide HexDecode, Lower, TagOf, NonceOf, Expiry;
  }
}
