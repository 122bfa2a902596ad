/**
 Every byte string the service hashes, MACs or expands a key over
 (mero-kms/src/cluster.rs, sealed.rs, handlers/attest.rs, handlers/rollback.rs,
 handlers/get_key.rs, counters.rs, stateless_challenge.rs, backend.rs). One function
 prints them all, and one theorem says that two well-formed messages print alike only
 if they are the same message: injective in every field, and no two kinds share a
 preimage.
 */
module Framing {
  import opened Text
  import opened CounterViews
  import PeerIds

  datatype Message =
    | Join(joinerPublic: Bytes)
    | Give(joinerPublic: Bytes, giverPublic: Bytes, sealNonce: Bytes, sealedRoot: Bytes)
    | RootSeal(giverPublic: Bytes, joinerPublic: Bytes)
    | JoinNonceTag(random: Bytes, expiresAt: U64)
    | PlainAttest(binding: Bytes)
    | DefaultBinding
    | SelfMeasurement
    | Transport(binding: Bytes, transportPublic: Bytes)
    | TransportV2(binding: Bytes, transportPublic: Bytes)
    | LegacyRequest(peer: string)
    | SealedRequest(sealTo: Bytes, peer: string)
    | SealedRequestV2(sealTo: Bytes, peer: string, node: U64)
    | SealInfo(transportPublic: Bytes, sealTo: Bytes, peer: string)
    | SealInfoV2(transportPublic: Bytes, sealTo: Bytes, peer: string)
    | Raise(peer: string, node: U64, session: Bytes, generation: U64, mark: U64, nonce: Bytes)
    | Reset(peer: string, node: U64, session: Bytes, generation: U64, mark: U64, nonce: Bytes)
    | Ack(nonce: Bytes, epoch: U64, generation: U64, mark: U64)
    | CounterRead(body: Bytes)
    | CounterMerge(body: Bytes)
    | CounterAnswer(body: Bytes)
    | ChallengeNonce(random: Bytes, expiresAt: U64, peer: string)
    | ChallengeTag(random: Bytes, expiresAt: U64, peer: string)

  const CAPABILITIES: string := "rollback/v1"

  /** The fixed-size fields have their size; a peer id has the validated shape. */
  ghost predicate WellFormed(m: Message) {
    match m
    case Join(j) => |j| == 32
    case Give(j, g, n, sealed) => |j| == 32 && |g| == 32 && |n| == 12
    case RootSeal(g, j) => |g| == 32 && |j| == 32
    case JoinNonceTag(r, e) => |r| == 8
    case PlainAttest(b) => |b| == 32
    case DefaultBinding => true
    case SelfMeasurement => true
    case Transport(b, t) => |b| == 32 && |t| == 32
    case TransportV2(b, t) => |b| == 32 && |t| == 32
    case LegacyRequest(p) => PeerIds.Valid(p)
    case SealedRequest(s, p) => |s| == 32 && PeerIds.Valid(p)
    case SealedRequestV2(s, p, n) => |s| == 32 && PeerIds.Valid(p)
    case SealInfo(t, s, p) => |t| == 32 && |s| == 32 && PeerIds.Valid(p)
    case SealInfoV2(t, s, p) => |t| == 32 && |s| == 32 && PeerIds.Valid(p)
    case Raise(p, n, s, g, k, x) => PeerIds.Valid(p) && |s| == 16 && |x| == 32
    case Reset(p, n, s, g, k, x) => PeerIds.Valid(p) && |s| == 16 && |x| == 32
    case Ack(x, e, g, k) => |x| == 32
    case CounterRead(b) => true
    case CounterMerge(b) => true
    case CounterAnswer(b) => true
    case ChallengeNonce(r, e, p) => |r| == 16
    case ChallengeTag(r, e, p) => |r| == 16
  }

  function Domain(m: Message): string {
    match m
    case Join(_) => "mero-kms/cluster/join/v1"
    case Give(_, _, _, _) => "mero-kms/cluster/give/v1"
    case RootSeal(_, _) => "mero-kms/cluster/root-seal/v1"
    case JoinNonceTag(_, _) => "mero-kms/cluster/join-nonce/v1"
    case PlainAttest(_) => "mero-kms/attest-plain/v1"
    case DefaultBinding => "mero-kms-attest-v1"
    case SelfMeasurement => "mero-kms/self-measurement/v1"
    case Transport(_, _) => "mero-kms/attest-transport-key/v1"
    case TransportV2(_, _) => "mero-kms/attest-transport-key/v2"
    case LegacyRequest(_) => ""
    case SealedRequest(_, _) => "mero-kms/sealed-get-key/v1"
    case SealedRequestV2(_, _, _) => "mero-kms/sealed-get-key/v2"
    case SealInfo(_, _, _) => "mero-kms/sealed-key/v1"
    case SealInfoV2(_, _, _) => "mero-kms/sealed-key/v2"
    case Raise(_, _, _, _, _, _) => "mero-kms/rollback-raise/v1"
    case Reset(_, _, _, _, _, _) => "mero-kms/rollback-reset/v1"
    case Ack(_, _, _, _) => "mero-kms/rollback-ack/v1"
    case CounterRead(_) => "mero-kms/counters/read/v1"
    case CounterMerge(_) => "mero-kms/counters/merge/v1"
    case CounterAnswer(_) => "mero-kms/counters/answer/v1"
    case ChallengeNonce(_, _, _) => "mero-kms/tdx-challenge/v1\0"
    case ChallengeTag(_, _, _) => "mero-kms/tdx-challenge-id/v1\0"
  }

  function U64Bytes(x: U64): (r: Bytes)
    ensures |r| == 8
  {
    BigEndian(x, 8)
  }

  /** The fields after the domain, each appended in turn. */
  function Fields(m: Message): Bytes {
    match m
    case Join(j) => j
    case Give(j, g, n, sealed) => ((j + g) + n) + sealed
    case RootSeal(g, j) => g + j
    case JoinNonceTag(r, e) => r + U64Bytes(e)
    case PlainAttest(b) => b
    case DefaultBinding => ""
    case SelfMeasurement => ""
    case Transport(b, t) => b + t
    case TransportV2(b, t) => (b + t) + CAPABILITIES
    case LegacyRequest(p) => p
    case SealedRequest(s, p) => s + p
    case SealedRequestV2(s, p, n) => (s + p) + U64Bytes(n)
    case SealInfo(t, s, p) => (t + s) + p
    case SealInfoV2(t, s, p) => (t + s) + p
    case Raise(p, n, s, g, k, x) => CallFields(p, n, s, g, k, x)
    case Reset(p, n, s, g, k, x) => CallFields(p, n, s, g, k, x)
    case Ack(x, e, g, k) => ((x + U64Bytes(e)) + U64Bytes(g)) + U64Bytes(k)
    case CounterRead(b) => b
    case CounterMerge(b) => b
    case CounterAnswer(b) => b
    case ChallengeNonce(r, e, p) => (r + U64Bytes(e)) + p
    case ChallengeTag(r, e, p) => (r + U64Bytes(e)) + p
  }

  function Tail(node: U64, session: Bytes, generation: U64, mark: U64, nonce: Bytes): (r: Bytes)
    ensures |r| == 24 + |session| + |nonce|
  {
    (((U64Bytes(node) + session) + U64Bytes(generation)) + U64Bytes(mark)) + nonce
  }

  function CallFields(peer: string, node: U64, session: Bytes, generation: U64, mark: U64, nonce: Bytes): Bytes {
    (peer + "\n") + Tail(node, session, generation, mark, nonce)
  }

  /** The preimage itself. */
  function Frame(m: Message): Bytes {
    Domain(m) + Fields(m)
  }

  /** The message of a raise or a reset, grown field by field as the source grows its buffer. */
  method RequestMessage(domain: string, peer: string, node: U64, session: Bytes, generation: U64, mark: U64, nonce: Bytes)
      returns (message: Bytes)
    ensures message == domain + CallFields(peer, node, session, generation, mark, nonce)
    ensures domain == "mero-kms/rollback-raise/v1" ==> message == Frame(Raise(peer, node, session, generation, mark, nonce))
    ensures domain == "mero-kms/rollback-reset/v1" ==> message == Frame(Reset(peer, node, session, generation, mark, nonce))
  {
    message := domain;
    message := message + peer;
    message := message + "\n";
    message := message + U64Bytes(node);
    message := message + session;
    message := message + U64Bytes(generation);
    message := message + U64Bytes(mark);
    message := message + nonce;
    Regroup(domain, peer, U64Bytes(node), session, U64Bytes(generation), U64Bytes(mark), nonce);
  }

  lemma Regroup(d: string, p: string, n: string, s: string, g: string, k: string, x: string)
    ensures ((((((d + p) + "\n") + n) + s) + g) + k) + x == d + ((p + "\n") + ((((n + s) + g) + k) + x))
  {
  }

  // ---- the formats, spelled out ----

  /** Joining: the two quotes' bindings, what the root is sealed under, a nonce's tag. */
  lemma ClusterFormats(j: Bytes, g: Bytes, n: Bytes, sealed: Bytes, r: Bytes, e: U64)
    ensures Frame(Join(j)) == "mero-kms/cluster/join/v1" + j
    ensures Frame(Give(j, g, n, sealed)) == "mero-kms/cluster/give/v1" + (((j + g) + n) + sealed)
    ensures Frame(RootSeal(g, j)) == "mero-kms/cluster/root-seal/v1" + (g + j)
    ensures Frame(JoinNonceTag(r, e)) == "mero-kms/cluster/join-nonce/v1" + (r + BigEndian(e, 8))
  {
  }

  /** Attesting: the bindings of `/attest` and of a replica's own quote. */
  lemma AttestFormats(b: Bytes, t: Bytes)
    ensures Frame(PlainAttest(b)) == "mero-kms/attest-plain/v1" + b
    ensures Frame(DefaultBinding) == "mero-kms-attest-v1" && Frame(SelfMeasurement) == "mero-kms/self-measurement/v1"
    ensures Frame(Transport(b, t)) == "mero-kms/attest-transport-key/v1" + (b + t)
    ensures Frame(TransportV2(b, t)) == "mero-kms/attest-transport-key/v2" + ((b + t) + "rollback/v1")
  {
  }

  /** Releasing a key: the request's binding, and what the key is sealed under. */
  lemma ReleaseFormats(s: Bytes, t: Bytes, p: string, n: U64)
    ensures Frame(LegacyRequest(p)) == p
    ensures Frame(SealedRequest(s, p)) == "mero-kms/sealed-get-key/v1" + (s + p)
    ensures Frame(SealedRequestV2(s, p, n)) == "mero-kms/sealed-get-key/v2" + ((s + p) + BigEndian(n, 8))
    ensures Frame(SealInfo(t, s, p)) == "mero-kms/sealed-key/v1" + ((t + s) + p)
    ensures Frame(SealInfoV2(t, s, p)) == "mero-kms/sealed-key/v2" + ((t + s) + p)
  {
  }

  /** Moving a counter: the two calls and their acknowledgement. */
  lemma RollbackFormats(p: string, n: U64, s: Bytes, e: U64, g: U64, k: U64, x: Bytes)
    ensures var fields := (p + "\n") + ((((BigEndian(n, 8) + s) + BigEndian(g, 8)) + BigEndian(k, 8)) + x);
            && Frame(Raise(p, n, s, g, k, x)) == "mero-kms/rollback-raise/v1" + fields
            && Frame(Reset(p, n, s, g, k, x)) == "mero-kms/rollback-reset/v1" + fields
    ensures Frame(Ack(x, e, g, k)) == "mero-kms/rollback-ack/v1" + (((x + BigEndian(e, 8)) + BigEndian(g, 8)) + BigEndian(k, 8))
  {
  }

  /** Between replicas, and a challenge's nonce and tag. */
  lemma MessageFormats(b: Bytes, r: Bytes, e: U64, p: string)
    ensures Frame(CounterRead(b)) == "mero-kms/counters/read/v1" + b
    ensures Frame(CounterMerge(b)) == "mero-kms/counters/merge/v1" + b
    ensures Frame(CounterAnswer(b)) == "mero-kms/counters/answer/v1" + b
    ensures Frame(ChallengeNonce(r, e, p)) == "mero-kms/tdx-challenge/v1\0" + ((r + BigEndian(e, 8)) + p)
    ensures Frame(ChallengeTag(r, e, p)) == "mero-kms/tdx-challenge-id/v1\0" + ((r + BigEndian(e, 8)) + p)
  {
  }

  // ---- the kinds never share a preimage ----

  function At(s: string, k: nat): char {
    if k < |s| then s[k] else ' '
  }

  function Kind(m: Message): nat {
    match m
    case Join(_) => 0
    case Give(_, _, _, _) => 1
    case RootSeal(_, _) => 2
    case JoinNonceTag(_, _) => 3
    case PlainAttest(_) => 4
    case DefaultBinding => 5
    case SelfMeasurement => 6
    case Transport(_, _) => 7
    case TransportV2(_, _) => 8
    case LegacyRequest(_) => 9
    case SealedRequest(_, _) => 10
    case SealedRequestV2(_, _, _) => 11
    case SealInfo(_, _, _) => 12
    case SealInfoV2(_, _, _) => 13
    case Raise(_, _, _, _, _, _) => 14
    case Reset(_, _, _, _, _, _) => 15
    case Ack(_, _, _, _) => 16
    case CounterRead(_) => 17
    case CounterMerge(_) => 18
    case CounterAnswer(_) => 19
    case ChallengeNonce(_, _, _) => 20
    case ChallengeTag(_, _, _) => 21
  }

  /** A preimage's kind, read off a few of its characters. */
  function KindOf(s: Bytes): nat {
    if At(s, 4) != '-' then 9
    else if At(s, 8) == '-' then 5
    else match At(s, 9)
      case 'a' => if At(s, 16) == 'p' then 4 else if At(s, 31) == '1' then 7 else 8
      case 'c' => ClusterKind(s)
      case 'r' => if At(s, 18) == 'a' then 16 else if At(s, 19) == 'a' then 14 else 15
      case 's' => SealedKind(s)
      case _ => if At(s, 22) == '/' then 20 else 21
  }

  function ClusterKind(s: Bytes): nat {
    if At(s, 10) == 'o' then if At(s, 18) == 'r' then 17 else if At(s, 18) == 'm' then 18 else 19
    else if At(s, 17) == 'g' then 1
    else if At(s, 17) == 'r' then 2
    else if At(s, 21) == '/' then 0
    else 3
  }

  function SealedKind(s: Bytes): nat {
    if At(s, 11) == 'l' then 6
    else if At(s, 16) == 'g' then if At(s, 25) == '1' then 10 else 11
    else if At(s, 21) == '1' then 12
    else 13
  }

  /** Every domain starts "mero-kms". */
  predicate StartsAlike(s: Bytes) {
    && At(s, 0) == 'm' && At(s, 1) == 'e' && At(s, 2) == 'r' && At(s, 3) == 'o'
    && At(s, 4) == '-' && At(s, 5) == 'k' && At(s, 6) == 'm' && At(s, 7) == 's'
  }

  /** A longer string starts with the same characters. */
  lemma DomainIsRead(m: Message)
    ensures forall k :: 0 <= k < |Domain(m)| ==> At(Frame(m), k) == Domain(m)[k]
  {
    hide Fields, Domain;
  }

  lemma ClusterFrame(m: Message)
    requires m.Join? || m.Give?
    ensures KindOf(Frame(m)) == Kind(m) && StartsAlike(Frame(m))
  {
    DomainIsRead(m);
    hide Fields, At, Frame;
  }

  lemma ClusterKeyFrame(m: Message)
    requires m.RootSeal? || m.JoinNonceTag?
    ensures KindOf(Frame(m)) == Kind(m) && StartsAlike(Frame(m))
  {
    DomainIsRead(m);
    hide Fields, At, Frame;
  }

  lemma AttestFrame(m: Message)
    requires m.PlainAttest? || m.DefaultBinding? || m.Transport? || m.TransportV2?
    ensures KindOf(Frame(m)) == Kind(m) && StartsAlike(Frame(m))
  {
    DomainIsRead(m);
    hide Fields, At, Frame;
  }

  lemma SealedFrame(m: Message)
    requires m.SelfMeasurement? || m.SealedRequest? || m.SealedRequestV2?
    ensures KindOf(Frame(m)) == Kind(m) && StartsAlike(Frame(m))
  {
    DomainIsRead(m);
    hide Fields, At, Frame;
  }

  lemma SealInfoFrame(m: Message)
    requires m.SealInfo? || m.SealInfoV2?
    ensures KindOf(Frame(m)) == Kind(m) && StartsAlike(Frame(m))
  {
    DomainIsRead(m);
    hide Fields, At, Frame;
  }

  lemma RollbackFrame(m: Message)
    requires m.Raise? || m.Reset? || m.Ack?
    ensures KindOf(Frame(m)) == Kind(m) && StartsAlike(Frame(m))
  {
    DomainIsRead(m);
    hide Fields, At, Frame;
  }

  lemma CounterFrame(m: Message)
    requires m.CounterRead? || m.CounterMerge? || m.CounterAnswer?
    ensures KindOf(Frame(m)) == Kind(m) && StartsAlike(Frame(m))
  {
    DomainIsRead(m);
    hide Fields, At, Frame;
  }

  lemma ChallengeFrame(m: Message)
    requires m.ChallengeNonce? || m.ChallengeTag?
    ensures KindOf(Frame(m)) == Kind(m) && StartsAlike(Frame(m))
  {
    DomainIsRead(m);
    hide Fields, At, Frame;
  }

  /** A preimage shows its kind, whatever follows the domain. */
  lemma FrameTellsItsKind(m: Message)
    requires WellFormed(m)
    ensures KindOf(Frame(m)) == Kind(m)
    ensures m.LegacyRequest? || StartsAlike(Frame(m))
  {
    hide Frame, KindOf, Domain, Fields, StartsAlike;
    match m
    case LegacyRequest(_) => LegacyKind(m);
    case Join(_) => ClusterFrame(m);
    case Give(_, _, _, _) => ClusterFrame(m);
    case RootSeal(_, _) => ClusterKeyFrame(m);
    case JoinNonceTag(_, _) => ClusterKeyFrame(m);
    case PlainAttest(_) => AttestFrame(m);
    case DefaultBinding => AttestFrame(m);
    case Transport(_, _) => AttestFrame(m);
    case TransportV2(_, _) => AttestFrame(m);
    case SelfMeasurement => SealedFrame(m);
    case SealedRequest(_, _) => SealedFrame(m);
    case SealedRequestV2(_, _, _) => SealedFrame(m);
    case SealInfo(_, _, _) => SealInfoFrame(m);
    case SealInfoV2(_, _, _) => SealInfoFrame(m);
    case Raise(_, _, _, _, _, _) => RollbackFrame(m);
    case Reset(_, _, _, _, _, _) => RollbackFrame(m);
    case Ack(_, _, _, _) => RollbackFrame(m);
    case CounterRead(_) => CounterFrame(m);
    case CounterMerge(_) => CounterFrame(m);
    case CounterAnswer(_) => CounterFrame(m);
    case ChallengeNonce(_, _, _) => ChallengeFrame(m);
    case ChallengeTag(_, _, _) => ChallengeFrame(m);
  }

  lemma LegacyKind(m: Message)
    requires m.LegacyRequest? && WellFormed(m)
    ensures KindOf(Frame(m)) == 9
  {
    assert Frame(m) == m.peer;
  }

  // ---- each kind is injective ----

  lemma U64BytesAreInjective(x: U64, y: U64)
    requires U64Bytes(x) == U64Bytes(y)
    ensures x == y
  {
    BigEndianIsInjective(x, y);
  }

  lemma TailIsInjective(n: U64, s: Bytes, g: U64, k: U64, x: Bytes, n': U64, s': Bytes, g': U64, k': U64, x': Bytes)
    requires |s| == |s'| == 16 && |x| == |x'| == 32
    requires Tail(n, s, g, k, x) == Tail(n', s', g', k', x')
    ensures n == n' && s == s' && g == g' && k == k' && x == x'
  {
    hide U64Bytes;
    var (a, b, c) := (U64Bytes(n), U64Bytes(g), U64Bytes(k));
    var (a', b', c') := (U64Bytes(n'), U64Bytes(g'), U64Bytes(k'));
    SameParts(((a + s) + b) + c, x, ((a' + s') + b') + c', x');
    SameParts((a + s) + b, c, (a' + s') + b', c');
    SameParts(a + s, b, a' + s', b');
    SameParts(a, s, a', s');
    U64BytesAreInjective(n, n');
    U64BytesAreInjective(g, g');
    U64BytesAreInjective(k, k');
  }

  lemma CallFieldsAreInjective(
      p: string, n: U64, s: Bytes, g: U64, k: U64, x: Bytes,
      p': string, n': U64, s': Bytes, g': U64, k': U64, x': Bytes)
    requires |s| == |s'| == 16 && |x| == |x'| == 32
    requires CallFields(p, n, s, g, k, x) == CallFields(p', n', s', g', k', x')
    ensures p == p' && n == n' && s == s' && g == g' && k == k' && x == x'
  {
    hide Tail;
    SameParts(p + "\n", Tail(n, s, g, k, x), p' + "\n", Tail(n', s', g', k', x'));
    SameParts(p, "\n", p', "\n");
    TailIsInjective(n, s, g, k, x, n', s', g', k', x');
  }

  lemma ThreeAreInjective(a: string, b: string, c: string, a': string, b': string, c': string)
    requires (a + b) + c == (a' + b') + c'
    requires (|a| == |a'| && |b| == |b'|) || (|a| == |a'| && |c| == |c'|) || (|b| == |b'| && |c| == |c'|)
    ensures a == a' && b == b' && c == c'
  {
    assert |(a + b) + c| == |a| + |b| + |c| && |(a' + b') + c'| == |a'| + |b'| + |c'|;
    SameParts(a + b, c, a' + b', c');
    SameParts(a, b, a', b');
  }

  lemma FourAreInjective(a: string, b: string, c: string, d: string, a': string, b': string, c': string, d': string)
    requires ((a + b) + c) + d == ((a' + b') + c') + d'
    requires |a| == |a'| && |b| == |b'| && |c| == |c'|
    ensures a == a' && b == b' && c == c' && d == d'
  {
    SameParts((a + b) + c, d, (a' + b') + c', d');
    ThreeAreInjective(a, b, c, a', b', c');
  }

  lemma FieldsAreInjective(m: Message, m': Message)
    requires WellFormed(m) && WellFormed(m') && Kind(m) == Kind(m')
    requires Fields(m) == Fields(m')
    ensures m == m'
  {
    hide U64Bytes, CallFields, PeerIds.Valid;
    match m
    case Give(j, g, n, x) => FourAreInjective(j, g, n, x, m'.joinerPublic, m'.giverPublic, m'.sealNonce, m'.sealedRoot);
    case RootSeal(g, j) => SameParts(g, j, m'.giverPublic, m'.joinerPublic);
    case JoinNonceTag(r, e) =>
      SameParts(r, U64Bytes(e), m'.random, U64Bytes(m'.expiresAt));
      U64BytesAreInjective(e, m'.expiresAt);
    case Transport(b, t) => SameParts(b, t, m'.binding, m'.transportPublic);
    case TransportV2(b, t) => ThreeAreInjective(b, t, CAPABILITIES, m'.binding, m'.transportPublic, CAPABILITIES);
    case SealedRequest(s, p) => SameParts(s, p, m'.sealTo, m'.peer);
    case SealedRequestV2(s, p, n) =>
      ThreeAreInjective(s, p, U64Bytes(n), m'.sealTo, m'.peer, U64Bytes(m'.node));
      U64BytesAreInjective(n, m'.node);
    case SealInfo(t, s, p) => ThreeAreInjective(t, s, p, m'.transportPublic, m'.sealTo, m'.peer);
    case SealInfoV2(t, s, p) => ThreeAreInjective(t, s, p, m'.transportPublic, m'.sealTo, m'.peer);
    case Raise(p, n, s, g, k, x) =>
      CallFieldsAreInjective(p, n, s, g, k, x, m'.peer, m'.node, m'.session, m'.generation, m'.mark, m'.nonce);
    case Reset(p, n, s, g, k, x) =>
      CallFieldsAreInjective(p, n, s, g, k, x, m'.peer, m'.node, m'.session, m'.generation, m'.mark, m'.nonce);
    case Ack(x, e, g, k) =>
      FourAreInjective(x, U64Bytes(e), U64Bytes(g), U64Bytes(k),
                       m'.nonce, U64Bytes(m'.epoch), U64Bytes(m'.generation), U64Bytes(m'.mark));
      U64BytesAreInjective(e, m'.epoch);
      U64BytesAreInjective(g, m'.generation);
      U64BytesAreInjective(k, m'.mark);
    case ChallengeNonce(r, e, p) =>
      ThreeAreInjective(r, U64Bytes(e), p, m'.random, U64Bytes(m'.expiresAt), m'.peer);
      U64BytesAreInjective(e, m'.expiresAt);
    case ChallengeTag(r, e, p) =>
      ThreeAreInjective(r, U64Bytes(e), p, m'.random, U64Bytes(m'.expiresAt), m'.peer);
      U64BytesAreInjective(e, m'.expiresAt);
    case _ =>
  }

  /**
   Two well-formed messages have the same preimage only if they are the same message:
   same kind, same value in every field, whatever the variable-length fields hold.
   */
  lemma FrameIsInjective(m: Message, m': Message)
    requires WellFormed(m) && WellFormed(m') && Frame(m) == Frame(m')
    ensures m == m'
  {
    hide Fields, KindOf, WellFormed;
    FrameTellsItsKind(m);
    FrameTellsItsKind(m');
    assert Domain(m) == Domain(m');
    SameParts(Domain(m), Fields(m), Domain(m'), Fields(m'));
    FieldsAreInjective(m, m');
  }

  // ---- the session key's info ----

  /** The info of a node's rollback session key: key path, node id and session id, line by line. */
  function SessionInfo(keyPath: string, node: U64, session: Bytes): string
    requires IsBytes(session)
  {
    ((((keyPath + "\n") + Decimal(node)) + "\n") + Hex(session))
  }

  /** Two session keys share their info only for the same key path, node and session, whatever the path holds. */
  lemma SessionInfoIsInjective(p: string, n: U64, s: Bytes, p': string, n': U64, s': Bytes)
    requires IsBytes(s) && IsBytes(s') && |s| == |s'| == 16
    requires SessionInfo(p, n, s) == SessionInfo(p', n', s')
    ensures p == p' && n == n' && s == s'
  {
    hide Hex, Decimal;
    SameParts(((p + "\n") + Decimal(n)) + "\n", Hex(s), ((p' + "\n") + Decimal(n')) + "\n", Hex(s'));
    SameParts((p + "\n") + Decimal(n), "\n", (p' + "\n") + Decimal(n'), "\n");
    LastPart(p, "\n", Decimal(n), p', Decimal(n'));
    DecimalIsInjective(n, n');
    HexRoundTrip(s);
    HexRoundTrip(s');
  }
}
