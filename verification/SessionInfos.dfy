/**
 When a session key's info (`session_key_info` in mero-kms/src/counters.rs) reads like
 another message. `Framing` shows that two messages never do; the info has no domain of
 its own, so it can, and the condition is exact: its key path starts with the other
 kind's domain, and what follows has that kind's shape. The two are still told apart by
 their keys, since the info is expanded under a salt of its own.
 */
module SessionInfos {
  import opened Outcomes
  import opened Text
  import opened CounterViews
  import opened Framing
  import opened KeyPaths
  import PeerIds

  // ---- the shape of every kind ----

  function Sample(kind: nat): Message
    requires kind < 22
    ensures Kind(Sample(kind)) == kind
  {
    match kind
    case 0 => Join("")
    case 1 => Give("", "", "", "")
    case 2 => RootSeal("", "")
    case 3 => JoinNonceTag("", 0)
    case 4 => PlainAttest("")
    case 5 => DefaultBinding
    case 6 => SelfMeasurement
    case 7 => Transport("", "")
    case 8 => TransportV2("", "")
    case 9 => LegacyRequest("")
    case 10 => SealedRequest("", "")
    case 11 => SealedRequestV2("", "", 0)
    case 12 => SealInfo("", "", "")
    case 13 => SealInfoV2("", "", "")
    case 14 => Raise("", 0, "", 0, 0, "")
    case 15 => Reset("", 0, "", 0, 0, "")
    case 16 => Ack("", 0, 0, 0)
    case 17 => CounterRead("")
    case 18 => CounterMerge("")
    case 19 => CounterAnswer("")
    case 20 => ChallengeNonce("", 0, "")
    case _ => ChallengeTag("", 0, "")
  }

  function DomainOf(kind: nat): string
    requires kind < 22
  {
    Domain(Sample(kind))
  }

  /** What may follow a kind's domain. */
  predicate Fits(kind: nat, rest: Bytes) {
    var n := |rest|;
    match kind
    case 0 => n == 32
    case 1 => n >= 76
    case 2 => n == 64
    case 3 => n == 16 && IsBytes(rest[8..])
    case 4 => n == 32
    case 5 => n == 0
    case 6 => n == 0
    case 7 => n == 64
    case 8 => n == 64 + |CAPABILITIES| && rest[64..] == CAPABILITIES
    case 9 => PeerIds.Valid(rest)
    case 10 => n >= 32 && PeerIds.Valid(rest[32..])
    case 11 => n >= 40 && PeerIds.Valid(rest[32..n - 8]) && IsBytes(rest[n - 8..])
    case 12 => n >= 64 && PeerIds.Valid(rest[64..])
    case 13 => n >= 64 && PeerIds.Valid(rest[64..])
    case 14 => FitsCall(rest)
    case 15 => FitsCall(rest)
    case 16 => n == 56 && IsBytes(rest[32..])
    case 17 => true
    case 18 => true
    case 19 => true
    case 20 => n >= 24 && IsBytes(rest[16..24])
    case 21 => n >= 24 && IsBytes(rest[16..24])
    case _ => false
  }

  /** A peer id, a line break, and 72 bytes of which the four integers are bytes. */
  predicate FitsCall(rest: Bytes) {
    var n := |rest|;
    && n >= 73 && PeerIds.Valid(rest[..n - 73]) && rest[n - 73] == '\n'
    && IsBytes(rest[n - 72..n - 64]) && IsBytes(rest[n - 48..n - 32])
  }

  function ReadU64(s: Bytes): (x: U64)
    requires |s| == 8 && IsBytes(s)
    ensures U64Bytes(x) == s
  {
    BigEndianOfBytes(s);
    Pow256Of8();
    FromBigEndian(s)
  }

  lemma U64BytesAreBytes(x: U64)
    ensures |U64Bytes(x)| == 8 && IsBytes(U64Bytes(x))
  {
  }

  /** The message whose fields are these bytes. */
  function Decode(kind: nat, rest: Bytes): Message
    requires kind < 22 && Fits(kind, rest)
  {
    var n := |rest|;
    match kind
    case 0 => Join(rest)
    case 1 => Give(rest[..32], rest[32..64], rest[64..76], rest[76..])
    case 2 => RootSeal(rest[..32], rest[32..])
    case 3 => JoinNonceTag(rest[..8], ReadU64(rest[8..]))
    case 4 => PlainAttest(rest)
    case 5 => DefaultBinding
    case 6 => SelfMeasurement
    case 7 => Transport(rest[..32], rest[32..])
    case 8 => TransportV2(rest[..32], rest[32..64])
    case 9 => LegacyRequest(rest)
    case 10 => SealedRequest(rest[..32], rest[32..])
    case 11 => SealedRequestV2(rest[..32], rest[32..n - 8], ReadU64(rest[n - 8..]))
    case 12 => SealInfo(rest[..32], rest[32..64], rest[64..])
    case 13 => SealInfoV2(rest[..32], rest[32..64], rest[64..])
    case 14 => Raise(rest[..n - 73], CallNode(rest), rest[n - 64..n - 48], CallGeneration(rest), CallMark(rest), rest[n - 32..])
    case 15 => Reset(rest[..n - 73], CallNode(rest), rest[n - 64..n - 48], CallGeneration(rest), CallMark(rest), rest[n - 32..])
    case 16 => AckOf(rest)
    case 17 => CounterRead(rest)
    case 18 => CounterMerge(rest)
    case 19 => CounterAnswer(rest)
    case 20 => ChallengeNonce(rest[..16], ReadU64(rest[16..24]), rest[24..])
    case _ => ChallengeTag(rest[..16], ReadU64(rest[16..24]), rest[24..])
  }

  function CallNode(rest: Bytes): U64
    requires FitsCall(rest)
  {
    ReadU64(rest[|rest| - 72..|rest| - 64])
  }

  lemma HalfIsBytes(s: Bytes, a: nat, b: nat)
    requires IsBytes(s) && a <= b <= |s|
    ensures IsBytes(s[a..b])
  {
  }

  function CallGeneration(rest: Bytes): U64
    requires FitsCall(rest)
  {
    var pair := rest[|rest| - 48..|rest| - 32];
    HalfIsBytes(pair, 0, 8);
    ReadU64(pair[0..8])
  }

  function CallMark(rest: Bytes): U64
    requires FitsCall(rest)
  {
    var pair := rest[|rest| - 48..|rest| - 32];
    HalfIsBytes(pair, 8, 16);
    ReadU64(pair[8..16])
  }

  function AckOf(rest: Bytes): Message
    requires |rest| == 56 && IsBytes(rest[32..])
  {
    var triple := rest[32..];
    HalfIsBytes(triple, 0, 8);
    HalfIsBytes(triple, 8, 16);
    HalfIsBytes(triple, 16, 24);
    Ack(rest[..32], ReadU64(triple[0..8]), ReadU64(triple[8..16]), ReadU64(triple[16..24]))
  }

  lemma Adjoin(s: Bytes, a: nat, b: nat, c: nat)
    requires a <= b <= c <= |s|
    ensures s[a..b] + s[b..c] == s[a..c]
  {
  }

  lemma SliceOfSlice(s: Bytes, a: nat, b: nat, c: nat, d: nat)
    requires a <= b <= |s| && c <= d <= b - a
    ensures s[a..b][c..d] == s[a + c..a + d]
  {
    forall k | 0 <= k < d - c ensures s[a..b][c..d][k] == s[a + c..a + d][k] {}
    assert s[a..b][c..d] == s[a + c..a + d];
  }

  lemma DecodedCall(rest: Bytes)
    requires FitsCall(rest)
    ensures var n := |rest|;
            CallFields(rest[..n - 73], CallNode(rest), rest[n - 64..n - 48], CallGeneration(rest), CallMark(rest), rest[n - 32..]) == rest
  {
    hide IsBytes, PeerIds.Valid, BigEndian;
    var n := |rest|;
    var pair := rest[n - 48..n - 32];
    SliceOfSlice(rest, n - 48, n - 32, 0, 8);
    SliceOfSlice(rest, n - 48, n - 32, 8, 16);
    assert U64Bytes(CallNode(rest)) == rest[n - 72..n - 64];
    assert U64Bytes(CallGeneration(rest)) == rest[n - 48..n - 40];
    assert U64Bytes(CallMark(rest)) == rest[n - 40..n - 32];
    hide CallNode, CallGeneration, CallMark, U64Bytes, FitsCall;
    assert rest[..n - 73] + "\n" == rest[..n - 72];
    Adjoin(rest, n - 72, n - 64, n - 48);
    Adjoin(rest, n - 72, n - 48, n - 40);
    Adjoin(rest, n - 72, n - 40, n - 32);
    Adjoin(rest, n - 72, n - 32, n);
    assert rest[n - 32..n] == rest[n - 32..] && rest[n - 72..n] == rest[n - 72..];
    assert rest == rest[..n - 72] + rest[n - 72..];
  }

  lemma DecodedAck(rest: Bytes)
    requires |rest| == 56 && IsBytes(rest[32..])
    ensures Fields(AckOf(rest)) == rest && WellFormed(AckOf(rest))
  {
    hide BigEndian;
    var triple := rest[32..];
    HalfIsBytes(triple, 0, 8);
    HalfIsBytes(triple, 8, 16);
    HalfIsBytes(triple, 16, 24);
    hide IsBytes, U64Bytes;
    assert ((rest[..32] + triple[0..8]) + triple[8..16]) + triple[16..24] == rest;
  }

  /** Bytes of a kind's shape are the fields of a well-formed message of that kind. */
  lemma DecodeIsRight(kind: nat, rest: Bytes)
    requires kind < 22 && Fits(kind, rest)
    ensures var m := Decode(kind, rest); WellFormed(m) && Kind(m) == kind && Fields(m) == rest
  {
    hide IsBytes, PeerIds.Valid, U64Bytes, FitsCall, CallFields, CallNode, CallGeneration, CallMark;
    if kind == 14 || kind == 15 {
      DecodedCall(rest);
      CallSizes(rest);
    } else if kind == 16 {
      DecodedAck(rest);
    } else {
      hide AckOf;
    }
  }

  lemma CallSizes(rest: Bytes)
    requires FitsCall(rest)
    ensures |rest| >= 73 && PeerIds.Valid(rest[..|rest| - 73])
  {
  }

  lemma CallFits(p: string, n: U64, s: Bytes, g: U64, k: U64, x: Bytes)
    requires PeerIds.Valid(p) && |s| == 16 && |x| == 32
    ensures FitsCall(CallFields(p, n, s, g, k, x))
  {
    U64BytesAreBytes(n);
    U64BytesAreBytes(g);
    U64BytesAreBytes(k);
    hide U64Bytes, PeerIds.Valid;
    var rest := CallFields(p, n, s, g, k, x);
    var l := |rest|;
    assert l == |p| + 73;
    assert rest[..l - 73] == p;
    assert rest[l - 72..l - 64] == U64Bytes(n);
    assert rest[l - 48..l - 32] == U64Bytes(g) + U64Bytes(k);
  }

  lemma AckFits(x: Bytes, e: U64, g: U64, k: U64)
    requires |x| == 32
    ensures var rest := Fields(Ack(x, e, g, k)); |rest| == 56 && IsBytes(rest[32..])
  {
    U64BytesAreBytes(e);
    U64BytesAreBytes(g);
    U64BytesAreBytes(k);
    hide U64Bytes;
    var rest := Fields(Ack(x, e, g, k));
    assert rest[32..] == (U64Bytes(e) + U64Bytes(g)) + U64Bytes(k);
  }

  lemma MiddleFits(r: Bytes, x: U64, p: string)
    ensures var rest := (r + U64Bytes(x)) + p; |rest| >= |r| + 8 && rest[|r|..|r| + 8] == U64Bytes(x) && IsBytes(rest[|r|..|r| + 8])
  {
    U64BytesAreBytes(x);
    hide U64Bytes;
    assert ((r + U64Bytes(x)) + p)[|r|..|r| + 8] == U64Bytes(x);
  }

  lemma TailOf(s: Bytes, t: Bytes)
    ensures (s + t)[|s|..] == t
  {
  }

  lemma ThreeParts(s: Bytes, t: Bytes, u: Bytes)
    ensures var r := (s + t) + u; |r| >= |s| + |u| && r[|s|..|r| - |u|] == t && r[|r| - |u|..] == u
  {
  }

  /** The fields of every well-formed message have its kind's shape. */
  lemma FieldsFit(m: Message)
    requires WellFormed(m)
    ensures Kind(m) < 22 && Fits(Kind(m), Fields(m))
  {
    hide IsBytes, PeerIds.Valid, U64Bytes, FitsCall, CallFields;
    match m
    case JoinNonceTag(r, e) => U64BytesAreBytes(e); TailOf(r, U64Bytes(e));
    case TransportV2(b, t) => TailOf(b + t, CAPABILITIES);
    case SealedRequest(s, p) => TailOf(s, p);
    case SealedRequestV2(s, p, n) =>
      U64BytesAreBytes(n);
      ThreeParts(s, p, U64Bytes(n));
    case SealInfo(t, s, p) => TailOf(t + s, p);
    case SealInfoV2(t, s, p) => TailOf(t + s, p);
    case Raise(p, n, s, g, k, x) => CallFits(p, n, s, g, k, x);
    case Reset(p, n, s, g, k, x) => CallFits(p, n, s, g, k, x);
    case Ack(x, e, g, k) => AckFits(x, e, g, k);
    case ChallengeNonce(r, e, p) => MiddleFits(r, e, p);
    case ChallengeTag(r, e, p) => MiddleFits(r, e, p);
    case _ =>
  }

  lemma SameDomain(m: Message)
    ensures Kind(m) < 22 && Domain(m) == DomainOf(Kind(m))
  {
    SameDomainBelow(m);
    SameDomainAbove(m);
    hide Domain, DomainOf;
  }

  lemma SameDomainBelow(m: Message)
    ensures Kind(m) < 11 ==> Domain(m) == DomainOf(Kind(m))
  {
  }

  lemma SameDomainAbove(m: Message)
    ensures 11 <= Kind(m) < 22 ==> Domain(m) == DomainOf(Kind(m))
  {
  }

  /** The preimages of a kind are exactly its domain followed by bytes of its shape. */
  lemma PreimagesAreExactly(kind: nat, s: Bytes)
    requires kind < 22
    ensures (exists m: Message :: WellFormed(m) && Kind(m) == kind && Frame(m) == s)
            <==> DomainOf(kind) <= s && Fits(kind, s[|DomainOf(kind)|..])
  {
    hide Domain, Fields, Fits, WellFormed, Decode, DomainOf;
    if DomainOf(kind) <= s && Fits(kind, s[|DomainOf(kind)|..]) {
      var rest := s[|DomainOf(kind)|..];
      DecodeIsRight(kind, rest);
      SameDomain(Decode(kind, rest));
      assert s == DomainOf(kind) + rest;
      assert Frame(Decode(kind, rest)) == s;
    }
    forall m: Message | WellFormed(m) && Kind(m) == kind && Frame(m) == s
      ensures DomainOf(kind) <= s && Fits(kind, s[|DomainOf(kind)|..])
    {
      FieldsFit(m);
      SameDomain(m);
      assert s[|DomainOf(kind)|..] == Fields(m);
    }
  }

  // ---- the info among them ----

  lemma NoBreakInClusterDomains(kind: nat)
    requires kind < 4
    ensures '\n' !in DomainOf(kind)
  {
  }

  lemma NoBreakInAttestDomains(kind: nat)
    requires 4 <= kind < 9
    ensures '\n' !in DomainOf(kind)
  {
  }

  lemma NoBreakInSealDomains(kind: nat)
    requires 9 <= kind < 14
    ensures '\n' !in DomainOf(kind)
  {
  }

  lemma NoBreakInRollbackDomains(kind: nat)
    requires 14 <= kind < 17
    ensures '\n' !in DomainOf(kind)
  {
  }

  lemma NoBreakInOtherDomains(kind: nat)
    requires 17 <= kind < 22
    ensures '\n' !in DomainOf(kind)
  {
  }

  lemma NoBreakInDomains(kind: nat)
    requires kind < 22
    ensures '\n' !in DomainOf(kind)
  {
    hide DomainOf;
    if kind < 4 {
      NoBreakInClusterDomains(kind);
    } else if kind < 9 {
      NoBreakInAttestDomains(kind);
    } else if kind < 14 {
      NoBreakInSealDomains(kind);
    } else if kind < 17 {
      NoBreakInRollbackDomains(kind);
    } else {
      NoBreakInOtherDomains(kind);
    }
  }

  /** What follows the key path in an info. */
  function Tail(node: U64, session: Bytes): (r: string)
    requires IsBytes(session)
    ensures r != "" && r[0] == '\n'
  {
    "\n" + ((Decimal(node) + "\n") + Hex(session))
  }

  lemma InfoIsPathAndTail(keyPath: string, node: U64, session: Bytes)
    requires IsBytes(session)
    ensures SessionInfo(keyPath, node, session) == keyPath + Tail(node, session)
  {
    hide Hex, Decimal;
  }

  lemma InAPrefix(d: string, s: string, n: nat)
    ensures d <= s && n < |d| ==> s[n] in d
  {
    if d <= s && n < |d| {
      assert s[n] == d[n];
    }
  }

  /** A text without a line break starts an info only by starting its key path. */
  lemma StartsThePath(d: string, keyPath: string, tail: string)
    requires '\n' !in d && tail != "" && tail[0] == '\n'
    ensures d <= keyPath + tail <==> d <= keyPath
    ensures d <= keyPath ==> (keyPath + tail)[|d|..] == keyPath[|d|..] + tail
  {
    var n := |keyPath|;
    assert (keyPath + tail)[n] == '\n';
    InAPrefix(d, keyPath + tail, n);
    assert |d| <= n ==> (keyPath + tail)[..|d|] == keyPath[..|d|];
    if d <= keyPath {
      assert keyPath + tail == d + (keyPath[|d|..] + tail);
    }
  }

  /** Some message of this kind has the info as its preimage. */
  ghost predicate ReadsAs(kind: nat, info: string) {
    exists m: Message :: WellFormed(m) && Kind(m) == kind && Frame(m) == info
  }

  /**
   The exact condition: a session's info is the preimage of some message of a kind if and
   only if its key path starts with that kind's domain and the rest has the kind's shape.
   */
  lemma InfoReadsAsIff(kind: nat, keyPath: string, node: U64, session: Bytes)
    requires kind < 22 && IsBytes(session)
    ensures ReadsAs(kind, SessionInfo(keyPath, node, session))
            <==> DomainOf(kind) <= keyPath && Fits(kind, keyPath[|DomainOf(kind)|..] + Tail(node, session))
  {
    hide DomainOf, Fits, Frame, SessionInfo, Tail, WellFormed;
    InfoIsPathAndTail(keyPath, node, session);
    PreimagesAreExactly(kind, SessionInfo(keyPath, node, session));
    NoBreakInDomains(kind);
    StartsThePath(DomainOf(kind), keyPath, Tail(node, session));
  }

  /** As a counter message it does exactly when the path starts with that message's domain. */
  lemma InfoReadsAsACounterMessageIff(keyPath: string, node: U64, session: Bytes)
    requires IsBytes(session)
    ensures var info := SessionInfo(keyPath, node, session);
            && ((exists b :: info == Frame(CounterRead(b))) <==> "mero-kms/counters/read/v1" <= keyPath)
            && ((exists b :: info == Frame(CounterMerge(b))) <==> "mero-kms/counters/merge/v1" <= keyPath)
            && ((exists b :: info == Frame(CounterAnswer(b))) <==> "mero-kms/counters/answer/v1" <= keyPath)
  {
    CounterDomains();
    InfoReadsAsIff(17, keyPath, node, session);
    InfoReadsAsIff(18, keyPath, node, session);
    InfoReadsAsIff(19, keyPath, node, session);
    hide DomainOf, Frame, SessionInfo, Tail;
    var info := SessionInfo(keyPath, node, session);
    ReadBodies(info);
    MergeBodies(info);
    AnswerBodies(info);
  }

  lemma CounterDomains()
    ensures DomainOf(17) == "mero-kms/counters/read/v1"
    ensures DomainOf(18) == "mero-kms/counters/merge/v1"
    ensures DomainOf(19) == "mero-kms/counters/answer/v1"
  {
  }

  lemma ReadBodies(info: string)
    ensures ReadsAs(17, info) <==> exists b :: info == Frame(CounterRead(b))
  {
    hide Frame;
    if ReadsAs(17, info) {
      var m: Message :| WellFormed(m) && Kind(m) == 17 && Frame(m) == info;
      assert info == Frame(CounterRead(m.body));
    }
    if b :| info == Frame(CounterRead(b)) {
      assert WellFormed(CounterRead(b)) && Kind(CounterRead(b)) == 17;
    }
  }

  lemma MergeBodies(info: string)
    ensures ReadsAs(18, info) <==> exists b :: info == Frame(CounterMerge(b))
  {
    hide Frame;
    if ReadsAs(18, info) {
      var m: Message :| WellFormed(m) && Kind(m) == 18 && Frame(m) == info;
      assert info == Frame(CounterMerge(m.body));
    }
    if b :| info == Frame(CounterMerge(b)) {
      assert WellFormed(CounterMerge(b)) && Kind(CounterMerge(b)) == 18;
    }
  }

  lemma AnswerBodies(info: string)
    ensures ReadsAs(19, info) <==> exists b :: info == Frame(CounterAnswer(b))
  {
    hide Frame;
    if ReadsAs(19, info) {
      var m: Message :| WellFormed(m) && Kind(m) == 19 && Frame(m) == info;
      assert info == Frame(CounterAnswer(m.body));
    }
    if b :| info == Frame(CounterAnswer(b)) {
      assert WellFormed(CounterAnswer(b)) && Kind(CounterAnswer(b)) == 19;
    }
  }

  // ---- kinds that never collide ----

  lemma TailEnds(node: U64, session: Bytes)
    requires IsBytes(session) && |session| == 16
    ensures var t := Tail(node, session);
            && |t| >= 35 && t[|t| - 33] == '\n'
            && forall k :: |t| - 32 <= k < |t| ==> t[k] != 'r' && t[k] != 'v'
  {
    HexChars(session);
    hide Hex, Decimal;
    var (d, h) := (Decimal(node), Hex(session));
    var t := Tail(node, session);
    assert t == (("\n" + d) + "\n") + h;
    assert |t| == |d| + 34;
    forall k | |t| - 32 <= k < |t| ensures t[k] == h[k - (|t| - 32)] {}
  }

  lemma {:induction false} HexChars(s: Bytes)
    requires IsBytes(s)
    ensures forall k :: 0 <= k < |Hex(s)| ==> Hex(s)[k] != 'r' && Hex(s)[k] != 'v'
  {
    if s != [] {
      HexChars(s[1..]);
      HexDigitOf(s[0] as int / 16);
      HexDigitOf(s[0] as int % 16);
      hide IsBytes;
      assert Hex(s) == ByteHex(s[0]) + Hex(s[1..]);
    }
  }

  lemma NotTheCapabilities(before: string, t: string)
    requires |t| >= 35 && forall k :: |t| - 32 <= k < |t| ==> t[k] != 'r' && t[k] != 'v'
    ensures !Fits(8, before + t)
  {
    var rest := before + t;
    assert rest[|rest| - 11] == t[|t| - 11];
    assert CAPABILITIES[0] == 'r' && |CAPABILITIES| == 11;
    hide CAPABILITIES;
    assert |rest| == 64 + 11 ==> rest[64..][0] == rest[|rest| - 11];
  }

  lemma NotAPeer(before: string, t: string)
    requires |t| >= 35 && t[|t| - 33] == '\n'
    ensures !Fits(9, before + t)
  {
    var rest := before + t;
    assert rest[|rest| - 33] == t[|t| - 33];
    hide PeerIds.Valid;
    if PeerIds.Valid(rest) {
      ValidHasNoBreak(rest);
    }
  }

  /**
   Join, join-nonce, plain attest, default binding, self measurement, transport v2 and
   legacy request messages are no session's info, whatever the key path holds.
   */
  lemma NeverReadsAs(kind: nat, keyPath: string, node: U64, session: Bytes)
    requires kind in {0, 3, 4, 5, 6, 8, 9} && IsBytes(session) && |session| == 16
    ensures !ReadsAs(kind, SessionInfo(keyPath, node, session))
  {
    InfoReadsAsIff(kind, keyPath, node, session);
    TailEnds(node, session);
    hide DomainOf, Frame, SessionInfo, Tail, ReadsAs, PeerIds.Valid;
    var t := Tail(node, session);
    if DomainOf(kind) <= keyPath {
      var before := keyPath[|DomainOf(kind)|..];
      NotTheCapabilities(before, t);
      NotAPeer(before, t);
    }
  }

  lemma ValidHasNoBreak(peer: string)
    requires PeerIds.Valid(peer)
    ensures forall k :: 0 <= k < |peer| ==> peer[k] != '\n'
  {
    assert forall k :: 0 <= k < |peer| ==> PeerIds.Base58(peer[k]);
  }

  // ---- in configurations that load ----

  lemma InfoOfThePath(p: string, s: Bytes, kind: nat, node: U64)
    requires kind < 22 && IsBytes(s) && ReadsAs(kind, SessionInfo(p, node, s)) && |s| == 16
    ensures kind != 9 ==> |DomainOf(kind)| >= 8 && DomainOf(kind) <= p && StartsAlike(p)
  {
    InfoReadsAsIff(kind, p, node, s);
    if kind != 9 {
      var m: Message :| WellFormed(m) && Kind(m) == kind && Frame(m) == SessionInfo(p, node, s);
      FrameTellsItsKind(m);
      InfoIsPathAndTail(p, node, s);
      hide Frame, SessionInfo, Tail, WellFormed, KindOf, Fits;
      DomainIsLong(kind);
      assert forall k: nat :: k < 8 ==> At(p + Tail(node, s), k) == At(p, k);
    }
  }

  lemma DomainIsLong(kind: nat)
    requires kind < 22 && kind != 9
    ensures |DomainOf(kind)| >= 8
  {
  }

  /** With the default prefixes no session's info reads as any other message. */
  lemma DefaultPrefixesNeverCollide(env: Env, role: Role, peer: string, node: U64, session: Bytes, kind: nat)
    requires Load(env).Ok? && env.nodePrefix.None? && env.agentPrefix.None?
    requires kind < 22 && IsBytes(session) && |session| == 16
    ensures !ReadsAs(kind, SessionInfo(KeyPath(Load(env).value, role, peer), node, session))
  {
    var p := KeyPath(Load(env).value, role, peer);
    DefaultPathStart(env, role, peer);
    hide KeyPath, Load, SessionInfo, DomainOf;
    if kind == 9 {
      NeverReadsAs(kind, p, node, session);
    } else if ReadsAs(kind, SessionInfo(p, node, session)) {
      hide ReadsAs;
      InfoOfThePath(p, session, kind, node);
    }
  }

  lemma DefaultPathStart(env: Env, role: Role, peer: string)
    requires Load(env).Ok? && env.nodePrefix.None? && env.agentPrefix.None?
    ensures !StartsAlike(KeyPath(Load(env).value, role, peer))
  {
    DefaultsAreTrimmed();
    hide TrimBoth, PinnedProfile, ProfileOverride, ResolveProfile;
    var c := Load(env).value;
    var p := KeyPath(c, role, peer);
    if role.Node? {
      assert p[4] == DEFAULT_NODE_PREFIX[4] == 'd';
    } else {
      assert p[5] == DEFAULT_AGENT_PREFIX[5] == 'a';
    }
  }

  lemma Untrimmed(p: string)
    requires p != "" && p[0] != '/' && p[|p| - 1] != '/'
    ensures TrimBoth(p, IsSlash) == p
  {
    assert TrimStart(p, IsSlash) == p;
  }

  /** A trimmed node prefix other than the agents' default loads as it is. */
  lemma PrefixLoads(p: string)
    requires p != "" && p[0] != '/' && p[|p| - 1] != '/' && p != DEFAULT_AGENT_PREFIX
    ensures Load(Env(None, None, None, Some(p), None)) == Ok(Config("locked-read-only", p, DEFAULT_AGENT_PREFIX))
  {
    KnownProfileParses("locked-read-only");
    Untrimmed(p);
    hide ParseProfile, TrimBoth, Trim, Lower, IsSlash;
    assert KeyPrefix(Some(p), DEFAULT_NODE_PREFIX) == p;
  }

  /** Its nodes' key paths start with it. */
  lemma PathStartsWithPrefix(c: Config, peer: string)
    requires c.nodePrefix != "" && c.nodePrefix[0] != '/' && c.nodePrefix[|c.nodePrefix| - 1] != '/'
    ensures c.nodePrefix <= KeyPath(c, Node, peer)
  {
    hide TrimBoth, IsSlash, KeyPath;
    Untrimmed(c.nodePrefix);
    PathIs(c, peer);
    FirstOfFive(c.nodePrefix, "/", c.profile, "/", peer);
  }

  lemma FirstOfFive(p: string, s: string, t: string, u: string, v: string)
    ensures p <= (((p + s) + t) + u) + v
  {
    Longer(p, p, s);
    Longer(p, p + s, t);
    Longer(p, (p + s) + t, u);
    Longer(p, ((p + s) + t) + u, v);
  }

  lemma PathIs(c: Config, peer: string)
    requires TrimBoth(c.nodePrefix, IsSlash) == c.nodePrefix
    ensures KeyPath(c, Node, peer) == (((c.nodePrefix + "/") + c.profile) + "/") + peer
  {
    hide TrimBoth;
  }

  lemma Longer(p: string, s: string, t: string)
    requires p <= s
    ensures p <= s + t
  {
  }

  /** The input: this configuration loads, and its node paths start like a counter read. */
  const CLASH: Env := Env(None, None, None, Some("mero-kms/counters/read/v1"), None)

  lemma ClashPrefix()
    ensures var p := "mero-kms/counters/read/v1"; p[0] != '/' && p[|p| - 1] != '/' && p != DEFAULT_AGENT_PREFIX
  {
    assert DEFAULT_AGENT_PREFIX[5] == 'a' && "mero-kms/counters/read/v1"[5] == 'k';
  }

  /** A configured prefix that is a domain makes every node's info another message's preimage. */
  lemma AConfiguredPathCollides(peer: string, node: U64, session: Bytes)
    requires IsBytes(session)
    ensures Load(CLASH).Ok?
    ensures exists b :: SessionInfo(KeyPath(Load(CLASH).value, Node, peer), node, session) == Frame(CounterRead(b))
  {
    ClashPrefix();
    PrefixLoads("mero-kms/counters/read/v1");
    hide Load, KeyPath, Frame, SessionInfo;
    var c := Load(CLASH).value;
    PathStartsWithPrefix(c, peer);
    InfoReadsAsACounterMessageIff(KeyPath(c, Node, peer), node, session);
  }

  // ---- every other kind can collide ----

  function Ones(n: nat): (r: string)
    ensures |r| == n && forall k :: 0 <= k < n ==> r[k] == '1'
  {
    seq(n, _ => '1')
  }

  /** A session id of sixteen bytes 0x11. */
  function OnesSession(n: nat): (s: Bytes)
    ensures |s| == n && IsBytes(s) && forall k :: 0 <= k < n ==> s[k] as int == 17
  {
    seq(n, _ => 17 as char)
  }

  lemma {:induction false} HexOnes(s: Bytes)
    requires IsBytes(s) && forall k :: 0 <= k < |s| ==> s[k] as int == 17
    ensures forall k :: 0 <= k < |Hex(s)| ==> Hex(s)[k] == '1'
  {
    if s != [] {
      HexOnes(s[1..]);
      HexDigitOf(1);
      hide IsBytes;
      assert Hex(s) == ByteHex(s[0]) + Hex(s[1..]);
    }
  }

  lemma TailOfOnes()
    ensures Tail(0, OnesSession(16)) == ['\n', '0', '\n'] + Ones(32)
  {
    HexOnes(OnesSession(16));
    assert Decimal(0) == ['0'];
    hide Hex, Decimal;
    assert Hex(OnesSession(16)) == Ones(32);
  }

  function Extra(kind: nat): string {
    if kind == 14 || kind == 15 then ['1', '\n', '1'] else ['1']
  }

  function PeerSize(kind: nat): (n: nat)
    ensures 1 <= n <= 128
  {
    if kind in {1, 12, 13} then 42 else if kind == 16 then 2 else if kind in {14, 15} then 18 else 10
  }

  /** What such a configuration puts between the domain and the tail. */
  function Padding(kind: nat): string {
    (((Extra(kind) + "/") + "locked-read-only") + "/") + Ones(PeerSize(kind))
  }

  lemma PaddingIs(kind: nat)
    ensures var q := Padding(kind);
            && |q| == |Extra(kind)| + 18 + PeerSize(kind) && IsBytes(q) && Extra(kind) <= q
  {
    assert IsBytes("locked-read-only");
    FirstOfFive(Extra(kind), "/", "locked-read-only", "/", Ones(PeerSize(kind)));
  }

  lemma OnesAreAPeer(s: string)
    requires 1 <= |s| <= 128 && forall k :: 0 <= k < |s| ==> s[k] == '1'
    ensures PeerIds.Valid(s)
  {
  }

  predicate Collides(kind: nat) {
    kind < 22 && kind !in {0, 3, 4, 5, 6, 8, 9}
  }

  lemma PaddedFits(kind: nat, q: string, rest: string)
    requires Collides(kind) && IsBytes(q) && Extra(kind) <= q && |q| == |Extra(kind)| + 18 + PeerSize(kind)
    requires rest == q + (['\n', '0', '\n'] + Ones(32))
    ensures Fits(kind, rest)
  {
    hide PeerIds.Valid;
    var n := |rest|;
    assert IsBytes(rest);
    assert forall k :: |q| + 3 <= k < n ==> rest[k] == '1';
    hide IsBytes;
    if kind in {10, 11, 12, 13} {
      hide Ones;
      PaddedPeer(kind, rest, |q| + 3);
    } else if kind == 14 || kind == 15 {
      hide Ones;
      assert rest[..1] == "1" && rest[1] == '\n';
      PaddedCall(rest);
    } else {
      PaddedBytes(rest);
    }
  }

  lemma PaddedPeer(kind: nat, rest: string, from: nat)
    requires kind in {10, 11, 12, 13} && IsBytes(rest)
    requires from <= (if kind < 12 then 32 else 64) && |rest| == from + 32
    requires forall k :: from <= k < |rest| ==> rest[k] == '1'
    requires |rest| >= (if kind < 12 then 41 else 65)
    ensures Fits(kind, rest)
  {
    var n := |rest|;
    match kind
    case 10 => OnesAreAPeer(rest[32..]);
    case 11 => OnesAreAPeer(rest[32..n - 8]); HalfIsBytes(rest, n - 8, n); assert rest[n - 8..n] == rest[n - 8..];
    case _ => OnesAreAPeer(rest[64..]);
  }

  lemma PaddedCall(rest: string)
    requires IsBytes(rest) && |rest| == 74 && rest[..1] == "1" && rest[1] == '\n'
    ensures FitsCall(rest)
  {
    OnesAreAPeer(rest[..1]);
    HalfIsBytes(rest, 2, 10);
    HalfIsBytes(rest, 26, 42);
  }

  lemma PaddedBytes(rest: string)
    requires IsBytes(rest)
    ensures |rest| >= 32 ==> IsBytes(rest[32..]) && IsBytes(rest[16..24])
  {
  }

  lemma DomainStart(kind: nat)
    requires Collides(kind)
    ensures |DomainOf(kind)| >= 8 && DomainOf(kind)[0] == 'm' && DomainOf(kind)[5] == 'k'
  {
  }

  /**
   Every kind but those seven can collide in a configuration that loads, for a valid peer:
   its node prefix is that kind's domain and a little more.
   */
  lemma EveryOtherKindCollides(kind: nat)
    requires Collides(kind)
    ensures var (env, peer) := (Env(None, None, None, Some(DomainOf(kind) + Extra(kind)), None), Ones(PeerSize(kind)));
            && Load(env).Ok? && PeerIds.Valid(peer)
            && ReadsAs(kind, SessionInfo(KeyPath(Load(env).value, Node, peer), 0, OnesSession(16)))
  {
    hide DomainOf, PeerIds.Valid, Extra, Load, KeyPath, ReadsAs, SessionInfo, Padding;
    var (d, x, peer) := (DomainOf(kind), Extra(kind), Ones(PeerSize(kind)));
    OnesAreAPeer(peer);
    CollidingPrefix(kind);
    hide OnesSession, Ones, PeerSize;
    PrefixLoads(d + x);
    PathOfDomain(d, x, peer);
    PaddingUnfolds(kind);
    PathIsInfo(kind, KeyPath(Config("locked-read-only", d + x, DEFAULT_AGENT_PREFIX), Node, peer));
  }

  lemma PaddingUnfolds(kind: nat)
    ensures Padding(kind) == (((Extra(kind) + "/") + "locked-read-only") + "/") + Ones(PeerSize(kind))
  {
  }

  lemma CollidingPrefix(kind: nat)
    requires Collides(kind)
    ensures var p := DomainOf(kind) + Extra(kind);
            p != "" && p[0] != '/' && p[|p| - 1] != '/' && p != DEFAULT_AGENT_PREFIX
  {
    DomainStart(kind);
    hide DomainOf;
    var p := DomainOf(kind) + Extra(kind);
    assert p[0] == 'm' && p[5] == 'k' && p[|p| - 1] == '1';
    assert DEFAULT_AGENT_PREFIX[5] == 'a';
  }

  lemma PathOfDomain(d: string, x: string, peer: string)
    requires var p := d + x; p != "" && p[0] != '/' && p[|p| - 1] != '/'
    ensures var path := KeyPath(Config("locked-read-only", d + x, DEFAULT_AGENT_PREFIX), Node, peer);
            d <= path && path[|d|..] == (((x + "/") + "locked-read-only") + "/") + peer
  {
    Untrimmed(d + x);
    hide TrimBoth, IsSlash;
    PathIs(Config("locked-read-only", d + x, DEFAULT_AGENT_PREFIX), peer);
    hide KeyPath;
    FourthPart(d, x, "/", "locked-read-only", "/", peer);
  }

  lemma PathIsInfo(kind: nat, path: string)
    requires Collides(kind) && DomainOf(kind) <= path && path[|DomainOf(kind)|..] == Padding(kind)
    ensures ReadsAs(kind, SessionInfo(path, 0, OnesSession(16)))
  {
    hide DomainOf, OnesSession, Ones, PeerSize, Padding, Extra;
    PaddingIs(kind);
    TailOfOnes();
    PaddedFits(kind, Padding(kind), Padding(kind) + Tail(0, OnesSession(16)));
    InfoReadsAsIff(kind, path, 0, OnesSession(16));
  }

  lemma FourthPart(d: string, p: string, s: string, t: string, u: string, v: string)
    ensures var path := (((((d + p) + s) + t) + u) + v);
            d <= path && path[|d|..] == (((p + s) + t) + u) + v
  {
    assert (((((d + p) + s) + t) + u) + v) == d + ((((p + s) + t) + u) + v);
  }
}
