/**
 How a replica gets its cluster's root (mero-kms/src/cluster.rs, mero-kms/src/backend.rs),
 as a step system over an arbitrary network. Ideal parts: a quote that verifies was made
 by a TD with those measurements; X25519 keys, sealed roots and roots are drawn fresh; a
 sealed root opens only under the two keys and the nonce it was sealed with. What a
 quote commits to is the very byte string that `Framing` prints, so everything here
 rests on those preimages never colliding.
 */
module ClusterJoin {
  import opened Outcomes
  import opened Text
  import opened CounterViews
  import opened Framing
  import opened Challenges
  import opened JoinNonces

  type Id = nat
  type Root = nat

  datatype Measurements = Measurements(mrtd: string, rtmr0: string, rtmr1: string, rtmr2: string, rtmr3: string)

  /** `binding` is the preimage hashed into the report data's second half, when that half is a hash. */
  datatype Quote = Quote(body: Measurements, attributes: string, tcb: Option<string>, nonce: Bytes, binding: Option<Bytes>)

  datatype PeerRefusal = NotVerified | DebugTd | NoTcbStatus | TcbNotInPolicy | MeasurementsDiffer

  function Lowered(m: Measurements): Measurements {
    Measurements(Lower(m.mrtd), Lower(m.rtmr0), Lower(m.rtmr1), Lower(m.rtmr2), Lower(m.rtmr3))
  }

  /** Bit zero of the first of eight bytes; a malformed field counts as debug. */
  predicate IsDebugTd(attributes: string) {
    var bytes := HexDecode(Trim(attributes));
    bytes.None? || |bytes.value| != 8 || bytes.value[0] as int % 2 == 1
  }

  predicate SameIgnoringCase(a: string, b: string) {
    Lower(a) == Lower(b)
  }

  /** The "same as me" rule, over a quote and what it must commit to. */
  function CheckPeer(own: Measurements, allowedTcb: seq<string>, genuine: bool, q: Quote, nonce: Bytes, binding: Bytes): Option<PeerRefusal> {
    if !genuine || q.nonce != nonce || q.binding != Some(binding) then Some(NotVerified)
    else if IsDebugTd(q.attributes) then Some(DebugTd)
    else if q.tcb.None? then Some(NoTcbStatus)
    else if !(exists k :: 0 <= k < |allowedTcb| && SameIgnoringCase(allowedTcb[k], q.tcb.value)) then Some(TcbNotInPolicy)
    else if Lowered(q.body) != own then Some(MeasurementsDiffer)
    else None
  }

  /** Eight bytes in hex, the second digit even: bit zero of the first byte is the debug bit. */
  predicate ProductionAttributes(digits: string) {
    && |digits| == 16 && (forall k :: 0 <= k < 16 ==> IsHexDigit(digits[k]))
    && digits[1] in {'0', '2', '4', '6', '8', 'a', 'c', 'e', 'A', 'C', 'E'}
  }

  lemma DebugUnlessProduction(attributes: string)
    ensures IsDebugTd(attributes) <==> !ProductionAttributes(Trim(attributes))
  {
    var t := Trim(attributes);
    hide Trim;
    HexDecodesIff(t);
    if HexDecode(t).Some? && |t| == 16 {
      FirstByte(t);
      EvenDigit(t[1]);
      assert IsHexDigit(t[0]) && IsHexDigit(t[1]);
    }
  }

  lemma FirstByte(t: string)
    requires |t| == 16 && HexDecode(t).Some?
    ensures |HexDecode(t).value| == 8 && HexValue(t[0]).Some? && HexValue(t[1]).Some?
    ensures HexDecode(t).value[0] as int == 16 * HexValue(t[0]).value + HexValue(t[1]).value
  {
    hide HexValue;
  }

  lemma EvenDigit(c: char)
    requires IsHexDigit(c)
    ensures HexValue(c).value % 2 == 0 <==> c in {'0', '2', '4', '6', '8', 'a', 'c', 'e', 'A', 'C', 'E'}
  {
  }

  /**
   The rule on a peer, check by check: who passes, and the first check failed by who does
   not. TCB statuses and registers are compared up to the case of ASCII letters.
   */
  lemma PeerPassesIff(own: Measurements, allowedTcb: seq<string>, genuine: bool, q: Quote, nonce: Bytes, binding: Bytes)
    ensures var verified := genuine && q.nonce == nonce && q.binding == Some(binding);
            var production := ProductionAttributes(Trim(q.attributes));
            var listed := q.tcb.Some? && exists k :: 0 <= k < |allowedTcb| && Lower(allowedTcb[k]) == Lower(q.tcb.value);
            var b := q.body;
            var same := own == Measurements(Lower(b.mrtd), Lower(b.rtmr0), Lower(b.rtmr1), Lower(b.rtmr2), Lower(b.rtmr3));
            match CheckPeer(own, allowedTcb, genuine, q, nonce, binding)
            case None => verified && production && listed && same
            case Some(NotVerified) => !verified
            case Some(DebugTd) => verified && !production
            case Some(NoTcbStatus) => verified && production && q.tcb.None?
            case Some(TcbNotInPolicy) => verified && production && q.tcb.Some? && !listed
            case Some(MeasurementsDiffer) => verified && production && listed && !same
  {
    hide IsDebugTd, ProductionAttributes, Trim, Lower;
    DebugUnlessProduction(q.attributes);
  }

  // ---- the system ----

  datatype Replica = Replica(
    own: Measurements,
    attributes: string,
    allowedTcb: seq<string>,
    mac: Mac,
    root: Option<Root>,
    spent: SpentMap,
    clock: U64)

  datatype Sealed = Sealed(root: Root, giverPublic: Bytes, joinerPublic: Bytes, joinNonce: Bytes, sealNonce: Bytes)

  /** A joiner's attempt: who made the one-time key, and for which nonce. */
  datatype JoinAttempt = JoinAttempt(joiner: Id, nonce: Bytes)

  /** A root given: by whom, for which nonce, when that was opened and when it was spent. */
  datatype Gave = Gave(giver: Id, nonce: Bytes, joinerPublic: Bytes, expiresAt: U64, openedAt: U64, spentAt: U64)

  datatype State = State(
    // the images whose measurements cover this program, and the TCB statuses under which hardware can be trusted
    images: set<Measurements>,
    sound: set<string>,
    lowOrder: set<Bytes>,
    replicas: map<Id, Replica>,
    generated: map<Root, Id>,
    keys: map<Bytes, Id>,
    attempts: map<Bytes, JoinAttempt>,
    seals: map<Bytes, Sealed>,
    quotes: set<Quote>,
    gave: seq<Gave>)

  /** Only hardware running a known image can make a quote like this. */
  ghost predicate Trusted(s: State, q: Quote) {
    && Lowered(q.body) in s.images
    && ProductionAttributes(Trim(q.attributes))
    && q.tcb.Some? && Lower(q.tcb.value) in s.sound
  }

  /** A quote this replica's TD makes, over a nonce and a binding. */
  ghost predicate OwnQuote(r: Replica, q: Quote, nonce: Bytes, binding: Bytes) {
    Lowered(q.body) == r.own && q.attributes == r.attributes && q.nonce == nonce && q.binding == Some(binding)
  }

  /** Somebody who is no replica can open a sealed copy of this root. */
  ghost predicate Exposed(s: State, root: Root) {
    exists ct :: ct in s.seals && s.seals[ct].root == root
                 && (s.seals[ct].joinerPublic !in s.keys || s.seals[ct].giverPublic !in s.keys)
  }

  datatype Step =
    | Boot(id: Id, body: Measurements, attributes: string, allowedTcb: seq<string>, mac: Mac, bootstrap: Option<Root>)
    | Attest(id: Id, nonce: Bytes, message: Message, quote: Quote)
    | ForeignQuote(quote: Quote)
    | StartJoin(id: Id, nonce: Bytes, joinerPublic: Bytes, quote: Quote)
    | GiveRoot(id: Id, nonce: Bytes, joinerPublic: Bytes, joinQuote: Quote, now: U64, later: U64,
               giverPublic: Bytes, sealNonce: Bytes, sealedRoot: Bytes, quote: Quote)
    | ForeignSeal(sealedRoot: Bytes, content: Sealed)
    | FinishJoin(id: Id, joinerPublic: Bytes, giverPublic: Bytes, sealNonce: Bytes, sealedRoot: Bytes, quote: Quote)

  function PutReplica(s: State, id: Id, r: Replica): State {
    s.(replicas := s.replicas[id := r])
  }

  /** A replica holds one root for its lifetime. */
  function SetRoot(r: Replica, root: Root): Replica {
    if r.root.Some? then r else r.(root := Some(root))
  }

  /**
   A replica starts in a TD that is no debug TD and whose RTMR3 was extended; the
   bootstrapping one draws a fresh root. Its image's policy allows sound statuses only.
   */
  ghost predicate BootStep(s: State, step: Step, s': State)
    requires step.Boot?
  {
    var own := Lowered(step.body);
    && step.id !in s.replicas
    && own in s.images && ProductionAttributes(Trim(step.attributes))
    && (exists k :: 0 <= k < |own.rtmr3| && own.rtmr3[k] != '0')
    && (forall k :: 0 <= k < |step.allowedTcb| ==> Lower(step.allowedTcb[k]) in s.sound)
    && (step.bootstrap.Some? ==>
        step.bootstrap.value !in s.generated && forall ct :: ct in s.seals ==> s.seals[ct].root != step.bootstrap.value)
    && s' == PutReplica(s, step.id, Replica(own, step.attributes, step.allowedTcb, step.mac, step.bootstrap, map[], 0)).(
               generated := if step.bootstrap.Some? then s.generated[step.bootstrap.value := step.id] else s.generated)
  }

  /** `/attest`: anyone may ask, with any nonce and any bytes; a transport key needs the root. */
  ghost predicate AttestStep(s: State, step: Step, s': State)
    requires step.Attest?
  {
    && step.id in s.replicas
    && WellFormed(step.message)
    && (step.message.PlainAttest? || (s.replicas[step.id].root.Some? && (step.message.Transport? || step.message.TransportV2?)))
    && OwnQuote(s.replicas[step.id], step.quote, step.nonce, Frame(step.message))
    && s' == s.(quotes := s.quotes + {step.quote})
  }

  /** Everybody else's TDs quote whatever they like, but not as a trusted one. */
  ghost predicate ForeignQuoteStep(s: State, step: Step, s': State)
    requires step.ForeignQuote?
  {
    !Trusted(s, step.quote) && s' == s.(quotes := s.quotes + {step.quote})
  }

  /** A joiner got some nonce from somewhere; it draws a one-time key and quotes it. */
  ghost predicate StartJoinStep(s: State, step: Step, s': State)
    requires step.StartJoin?
  {
    && step.id in s.replicas
    && |step.nonce| == 32 && |step.joinerPublic| == 32
    && step.joinerPublic !in s.keys && step.joinerPublic !in s.lowOrder
    && OwnQuote(s.replicas[step.id], step.quote, step.nonce, Frame(Join(step.joinerPublic)))
    && s' == s.(keys := s.keys[step.joinerPublic := step.id],
                attempts := s.attempts[step.joinerPublic := JoinAttempt(step.id, step.nonce)],
                quotes := s.quotes + {step.quote})
  }

  /** The nonce opens, the joiner's quote verifies over it and its key, and the joiner is the same as me. */
  ghost predicate JoinAccepted(s: State, step: Step)
    requires step.GiveRoot?
  {
    && step.id in s.replicas
    && |step.nonce| == 32 && IsBytes(step.nonce) && |step.joinerPublic| == 32
    && var r := s.replicas[step.id];
    && OpenNonce(r.mac, step.nonce, step.now).Ok?
    && CheckPeer(r.own, r.allowedTcb, step.joinQuote in s.quotes, step.joinQuote, step.nonce, Frame(Join(step.joinerPublic))).None?
    && step.now <= step.later && r.clock <= step.later
  }

  /** The replica once the nonce is spent. */
  ghost function SpentReplica(s: State, step: Step): Replica
    requires step.GiveRoot? && JoinAccepted(s, step)
  {
    var r := s.replicas[step.id];
    r.(spent := SpendNonce(r.spent, step.nonce, NonceExpiry(step.nonce), step.later).0, clock := step.later)
  }

  /** The nonce was not used before, the replica holds a root, and the joiner's key is usable. */
  ghost predicate CanGive(s: State, step: Step)
    requires step.GiveRoot? && JoinAccepted(s, step)
  {
    var r := s.replicas[step.id];
    && SpendNonce(r.spent, step.nonce, NonceExpiry(step.nonce), step.later).1.Ok?
    && r.root.Some?
    && step.joinerPublic !in s.lowOrder
  }

  /** The giver's one-time key and the sealed root are fresh, and its quote covers the whole response. */
  ghost predicate FreshSeal(s: State, step: Step)
    requires step.GiveRoot? && step.id in s.replicas
  {
    && |step.giverPublic| == 32 && step.giverPublic !in s.keys
    && |step.sealNonce| == 12 && step.sealedRoot !in s.seals
    && OwnQuote(s.replicas[step.id], step.quote, step.nonce,
                Frame(Give(step.joinerPublic, step.giverPublic, step.sealNonce, step.sealedRoot)))
  }

  ghost function Given(s: State, step: Step, root: Root): State
    requires step.GiveRoot? && |step.nonce| == 32 && IsBytes(step.nonce)
  {
    s.(keys := s.keys[step.giverPublic := step.id],
       seals := s.seals[step.sealedRoot := Sealed(root, step.giverPublic, step.joinerPublic, step.nonce, step.sealNonce)],
       quotes := s.quotes + {step.quote},
       gave := s.gave + [Gave(step.id, step.nonce, step.joinerPublic, NonceExpiry(step.nonce), step.now, step.later)])
  }

  /** The nonce is spent before the root is sealed; `GivesAgainIffExpired` says when it still gives the root again. */
  ghost predicate GiveRootStep(s: State, step: Step, s': State)
    requires step.GiveRoot?
  {
    && JoinAccepted(s, step)
    && var spent := PutReplica(s, step.id, SpentReplica(s, step));
    && if CanGive(s, step) then FreshSeal(s, step) && s' == Given(spent, step, s.replicas[step.id].root.value)
       else s' == spent
  }

  /** Anyone holding one of the two secrets can seal; a cluster's root only once it is exposed. */
  ghost predicate ForeignSealStep(s: State, step: Step, s': State)
    requires step.ForeignSeal?
  {
    && step.sealedRoot !in s.seals
    && (step.content.giverPublic !in s.keys || step.content.joinerPublic !in s.keys)
    && (step.content.root in s.generated ==> Exposed(s, step.content.root))
    && s' == s.(seals := s.seals[step.sealedRoot := step.content])
  }

  /** Some response reached a joiner: its quote verifies against everything in it, and the root opens. */
  ghost predicate FinishJoinStep(s: State, step: Step, s': State)
    requires step.FinishJoin?
  {
    && step.id in s.replicas && step.joinerPublic in s.attempts && s.attempts[step.joinerPublic].joiner == step.id
    && |step.giverPublic| == 32 && |step.sealNonce| == 12
    && var (r, nonce) := (s.replicas[step.id], s.attempts[step.joinerPublic].nonce);
    && CheckPeer(r.own, r.allowedTcb, step.quote in s.quotes, step.quote, nonce,
                 Frame(Give(step.joinerPublic, step.giverPublic, step.sealNonce, step.sealedRoot))).None?
    && step.sealedRoot in s.seals
    && s.seals[step.sealedRoot] == Sealed(s.seals[step.sealedRoot].root, step.giverPublic, step.joinerPublic, nonce, step.sealNonce)
    && s' == PutReplica(s, step.id, SetRoot(r, s.seals[step.sealedRoot].root))
  }

  ghost predicate Init(s: State) {
    && s.replicas == map[] && s.generated == map[] && s.keys == map[] && s.attempts == map[]
    && s.seals == map[] && s.quotes == {} && s.gave == []
  }

  ghost predicate Next(s: State, step: Step, s': State) {
    match step
    case Boot(_, _, _, _, _, _) => BootStep(s, step, s')
    case Attest(_, _, _, _) => AttestStep(s, step, s')
    case ForeignQuote(_) => ForeignQuoteStep(s, step, s')
    case StartJoin(_, _, _, _) => StartJoinStep(s, step, s')
    case GiveRoot(_, _, _, _, _, _, _, _, _, _) => GiveRootStep(s, step, s')
    case ForeignSeal(_, _) => ForeignSealStep(s, step, s')
    case FinishJoin(_, _, _, _, _, _) => FinishJoinStep(s, step, s')
  }

  // ---- the invariant ----

  /** Replicas run known images under sound policies; keys and attempts belong to replicas. */
  ghost predicate Grounded(s: State) {
    && (forall id :: id in s.replicas ==>
        && s.replicas[id].own in s.images
        && forall k :: 0 <= k < |s.replicas[id].allowedTcb| ==> Lower(s.replicas[id].allowedTcb[k]) in s.sound)
    && (forall r :: r in s.generated ==> s.generated[r] in s.replicas)
    && (forall p :: p in s.keys ==> s.keys[p] in s.replicas)
    && (forall p :: p in s.attempts ==> |p| == 32 && p in s.keys && s.keys[p] == s.attempts[p].joiner)
  }

  /** The root was generated by a bootstrapping replica with exactly these measurements. */
  ghost predicate RootOf(s: State, root: Root, own: Measurements) {
    root in s.generated && s.generated[root] in s.replicas && s.replicas[s.generated[root]].own == own
  }

  ghost predicate Agreed(s: State) {
    forall id :: id in s.replicas && s.replicas[id].root.Some? ==> RootOf(s, s.replicas[id].root.value, s.replicas[id].own)
  }

  /** A trusted quote over a joiner's key: that key belongs to a replica with the quote's measurements. */
  ghost predicate JoinQuoteOk(s: State, q: Quote, joinerPublic: Bytes) {
    joinerPublic in s.keys && s.keys[joinerPublic] in s.replicas && s.replicas[s.keys[joinerPublic]].own == Lowered(q.body)
  }

  ghost predicate JoinQuotes(s: State) {
    forall q, p :: q in s.quotes && Trusted(s, q) && |p| == 32 && q.binding == Some(Frame(Join(p))) ==> JoinQuoteOk(s, q, p)
  }

  /** A trusted quote over a sealed root: it is a cluster root of the quote's measurements, sealed for this nonce. */
  ghost predicate GiveQuoteOk(s: State, q: Quote, m: Message)
    requires m.Give?
  {
    && m.sealedRoot in s.seals
    && RootOf(s, s.seals[m.sealedRoot].root, Lowered(q.body))
  }

  ghost predicate GiveQuotes(s: State) {
    forall q, m: Message :: q in s.quotes && Trusted(s, q) && m.Give? && WellFormed(m) && q.binding == Some(Frame(m)) ==> GiveQuoteOk(s, q, m)
  }

  /** A sealed cluster root is sealed between two replicas, to one with the root's measurements. */
  ghost predicate SealOk(s: State, sealing: Sealed) {
    sealing.root in s.generated ==>
      && sealing.giverPublic in s.keys && sealing.joinerPublic in s.keys
      && s.keys[sealing.joinerPublic] in s.replicas
      && RootOf(s, sealing.root, s.replicas[s.keys[sealing.joinerPublic]].own)
  }

  ghost predicate Seals(s: State) {
    forall ct :: ct in s.seals ==> SealOk(s, s.seals[ct])
  }

  ghost predicate Inv(s: State) {
    Grounded(s) && Agreed(s) && JoinQuotes(s) && GiveQuotes(s) && Seals(s)
  }

  /** Nothing recorded is taken back: roots, keys, seals, and who generated what. */
  ghost predicate Extends(s: State, s': State) {
    && s'.images == s.images && s'.sound == s.sound
    && (forall id :: id in s.replicas ==> id in s'.replicas && s'.replicas[id].own == s.replicas[id].own
                                          && s'.replicas[id].allowedTcb == s.replicas[id].allowedTcb
                                          && (s.replicas[id].root.Some? ==> s'.replicas[id].root == s.replicas[id].root))
    && (forall r :: r in s.generated ==> r in s'.generated && s'.generated[r] == s.generated[r])
    && (forall p :: p in s.keys ==> p in s'.keys && s'.keys[p] == s.keys[p])
    && (forall ct :: ct in s.seals ==> ct in s'.seals && s'.seals[ct] == s.seals[ct])
    && s.quotes <= s'.quotes
  }

  lemma JoinAcceptedSizes(s: State, step: Step)
    requires step.GiveRoot? && JoinAccepted(s, step)
    ensures |step.nonce| == 32 && IsBytes(step.nonce) && |step.joinerPublic| == 32 && step.id in s.replicas
  {
    hide CheckPeer, OpenNonce, Frame, IsBytes;
  }

  lemma SpendingKeepsTheRest(s: State, step: Step)
    requires step.GiveRoot? && JoinAccepted(s, step)
    ensures step.id in s.replicas
    ensures var (r, r') := (s.replicas[step.id], SpentReplica(s, step));
            r'.own == r.own && r'.attributes == r.attributes && r'.allowedTcb == r.allowedTcb && r'.root == r.root && r'.mac == r.mac
  {
    hide CheckPeer, OpenNonce, SpendNonce, Frame, IsBytes;
  }

  lemma ExtendsIsTransitive(a: State, b: State, c: State)
    requires Extends(a, b) && Extends(b, c)
    ensures Extends(a, c)
  {
  }

  lemma PutExtends(s: State, id: Id, r: Replica)
    requires id in s.replicas && r.own == s.replicas[id].own && r.allowedTcb == s.replicas[id].allowedTcb
    requires s.replicas[id].root.Some? ==> r.root == s.replicas[id].root
    ensures Extends(s, PutReplica(s, id, r))
  {
  }

  lemma GivenExtends(s: State, step: Step, root: Root)
    requires step.GiveRoot? && |step.nonce| == 32 && IsBytes(step.nonce)
    requires step.giverPublic !in s.keys && step.sealedRoot !in s.seals
    ensures Extends(s, Given(s, step, root))
  {
    hide NonceExpiry, IsBytes;
  }

  lemma GiveExtends(s: State, step: Step, s': State)
    requires step.GiveRoot? && GiveRootStep(s, step, s')
    ensures Extends(s, s')
  {
    SpendingKeepsTheRest(s, step);
    JoinAcceptedSizes(s, step);
    hide Extends, OwnQuote, Frame, CanGive, JoinAccepted, SpentReplica, Given, IsBytes;
    var spent := PutReplica(s, step.id, SpentReplica(s, step));
    PutExtends(s, step.id, SpentReplica(s, step));
    if CanGive(s, step) {
      GivenExtends(spent, step, s.replicas[step.id].root.value);
      ExtendsIsTransitive(s, spent, s');
    }
  }

  lemma BootOrFinishExtends(s: State, step: Step, s': State)
    requires (step.Boot? && BootStep(s, step, s')) || (step.FinishJoin? && FinishJoinStep(s, step, s'))
    ensures Extends(s, s')
  {
    hide OwnQuote, Trusted, CheckPeer, OpenNonce, SpendNonce, Frame, IsDebugTd, ProductionAttributes, Trim, Lowered, WellFormed, IsBytes, Exposed;
  }

  lemma NextExtends(s: State, step: Step, s': State)
    requires Next(s, step, s')
    ensures Extends(s, s')
  {
    hide OwnQuote, Trusted, CheckPeer, OpenNonce, SpendNonce, Frame, IsDebugTd, ProductionAttributes, Trim, Lowered, WellFormed, IsBytes, Exposed, GiveRootStep, BootStep, FinishJoinStep;
    if step.GiveRoot? {
      GiveExtends(s, step, s');
    } else if step.Boot? || step.FinishJoin? {
      BootOrFinishExtends(s, step, s');
    }
  }

  lemma RootOfStays(s: State, s': State, root: Root, own: Measurements)
    requires Extends(s, s') && RootOf(s, root, own)
    ensures RootOf(s', root, own)
  {
  }

  /** A peer that passes the rule shows a trusted quote with the checker's own measurements. */
  lemma PassedPeerIsTrusted(s: State, id: Id, q: Quote, nonce: Bytes, binding: Bytes)
    requires Grounded(s) && id in s.replicas
    requires CheckPeer(s.replicas[id].own, s.replicas[id].allowedTcb, q in s.quotes, q, nonce, binding).None?
    ensures q in s.quotes && Trusted(s, q) && Lowered(q.body) == s.replicas[id].own && q.nonce == nonce && q.binding == Some(binding)
  {
    DebugUnlessProduction(q.attributes);
    hide IsDebugTd, ProductionAttributes, Trim, Lowered, Lower;
  }

  lemma PutKeepsGrounded(s: State, id: Id, r: Replica)
    requires Grounded(s) && id in s.replicas && r.own == s.replicas[id].own && r.allowedTcb == s.replicas[id].allowedTcb
    ensures Grounded(PutReplica(s, id, r))
  {
    hide Lower;
  }

  lemma GivenKeepsGrounded(s: State, step: Step, root: Root)
    requires Grounded(s) && step.GiveRoot? && step.id in s.replicas && |step.nonce| == 32 && IsBytes(step.nonce)
    requires step.giverPublic !in s.keys
    ensures Grounded(Given(s, step, root))
  {
    hide NonceExpiry, IsBytes, Lower;
  }

  lemma GiveKeepsGrounded(s: State, step: Step, s': State)
    requires Grounded(s) && step.GiveRoot? && GiveRootStep(s, step, s')
    ensures Grounded(s')
  {
    SpendingKeepsTheRest(s, step);
    JoinAcceptedSizes(s, step);
    hide Grounded, OwnQuote, Frame, CanGive, JoinAccepted, SpentReplica, Given, IsBytes;
    PutKeepsGrounded(s, step.id, SpentReplica(s, step));
    if CanGive(s, step) {
      GivenKeepsGrounded(PutReplica(s, step.id, SpentReplica(s, step)), step, s.replicas[step.id].root.value);
    }
  }

  lemma BootOrFinishKeepsGrounded(s: State, step: Step, s': State)
    requires Grounded(s)
    requires (step.Boot? && BootStep(s, step, s')) || (step.FinishJoin? && FinishJoinStep(s, step, s'))
    ensures Grounded(s')
  {
    hide OwnQuote, Trusted, CheckPeer, OpenNonce, SpendNonce, Frame, IsDebugTd, ProductionAttributes, Trim, Lowered, WellFormed, IsBytes, Exposed;
  }

  lemma NextKeepsGrounded(s: State, step: Step, s': State)
    requires Grounded(s) && Next(s, step, s')
    ensures Grounded(s')
  {
    hide OwnQuote, Trusted, CheckPeer, OpenNonce, SpendNonce, Frame, IsDebugTd, ProductionAttributes, Trim, Lowered, WellFormed, IsBytes, Exposed, GiveRootStep, BootStep, FinishJoinStep;
    if step.GiveRoot? {
      GiveKeepsGrounded(s, step, s');
    } else if step.Boot? || step.FinishJoin? {
      BootOrFinishKeepsGrounded(s, step, s');
    }
  }

  /** What kind of quote each step can add as a trusted one. */
  lemma NewQuote(s: State, step: Step, s': State, q: Quote)
    requires Next(s, step, s') && q in s'.quotes && q !in s.quotes && Trusted(s, q)
    ensures step.Attest? || step.StartJoin? || step.GiveRoot?
    ensures q == step.quote
    ensures step.Attest? ==> WellFormed(step.message) && q.binding == Some(Frame(step.message))
                             && (step.message.PlainAttest? || step.message.Transport? || step.message.TransportV2?)
    ensures step.StartJoin? ==> q.binding == Some(Frame(Join(step.joinerPublic))) && |step.joinerPublic| == 32
                                && Lowered(q.body) == s.replicas[step.id].own
    ensures step.GiveRoot? ==> JoinAccepted(s, step) && CanGive(s, step) && |step.giverPublic| == 32 && |step.sealNonce| == 12
                               && Lowered(q.body) == s.replicas[step.id].own
                               && q.binding == Some(Frame(Give(step.joinerPublic, step.giverPublic, step.sealNonce, step.sealedRoot)))
  {
    hide CheckPeer, OpenNonce, SpendNonce, Frame, IsDebugTd, ProductionAttributes, Trim, Lowered, WellFormed, IsBytes, Exposed;
  }

  lemma NextKeepsJoinQuotes(s: State, step: Step, s': State)
    requires Grounded(s) && JoinQuotes(s) && Next(s, step, s')
    ensures JoinQuotes(s')
  {
    NextExtends(s, step, s');
    forall q, p | q in s'.quotes && Trusted(s', q) && |p| == 32 && q.binding == Some(Frame(Join(p)))
      ensures JoinQuoteOk(s', q, p)
    {
      if q in s.quotes {
        OldJoinQuote(s, s', q, p);
      } else {
        SameTrust(s, s', q);
        NewQuote(s, step, s', q);
        NewJoinQuote(s, step, s', q, p);
      }
    }
  }

  lemma SameTrust(s: State, s': State, q: Quote)
    requires Extends(s, s')
    ensures Trusted(s, q) <==> Trusted(s', q)
  {
    hide IsDebugTd, ProductionAttributes, Trim, Lowered, Lower;
  }

  lemma OldJoinQuote(s: State, s': State, q: Quote, p: Bytes)
    requires Extends(s, s') && JoinQuotes(s) && q in s.quotes && Trusted(s', q) && |p| == 32 && q.binding == Some(Frame(Join(p)))
    ensures JoinQuoteOk(s', q, p)
  {
    hide Frame, Lowered;
    SameTrust(s, s', q);
    hide Trusted;
    assert JoinQuoteOk(s, q, p);
  }

  /** A quote a replica makes for a peer's eyes is of one kind only. */
  lemma QuotedKind(m: Message, m': Message, q: Quote)
    requires WellFormed(m) && WellFormed(m') && q.binding == Some(Frame(m)) && q.binding == Some(Frame(m'))
    ensures m == m'
  {
    hide Frame, WellFormed;
    FrameIsInjective(m, m');
  }

  lemma StartedQuote(s: State, step: Step, s': State)
    requires Grounded(s) && step.StartJoin? && StartJoinStep(s, step, s')
    ensures step.joinerPublic in s'.keys && s'.keys[step.joinerPublic] == step.id && step.id in s'.replicas
    ensures s'.replicas[step.id].own == s.replicas[step.id].own
  {
    hide Frame, Lowered, OwnQuote;
  }

  lemma NewJoinQuote(s: State, step: Step, s': State, q: Quote, p: Bytes)
    requires Grounded(s) && Next(s, step, s') && q in s'.quotes && q !in s.quotes && Trusted(s, q)
    requires |p| == 32 && q.binding == Some(Frame(Join(p)))
    ensures JoinQuoteOk(s', q, p)
  {
    hide BootStep, GiveRootStep, AttestStep, FinishJoinStep, ForeignSealStep, ForeignQuoteStep, StartJoinStep, Frame, Lowered, Trusted, CanGive, JoinAccepted;
    NewQuote(s, step, s', q);
    if step.Attest? {
      QuotedKind(step.message, Join(p), q);
    } else if step.GiveRoot? {
      JoinAcceptedSizes(s, step);
      QuotedKind(Give(step.joinerPublic, step.giverPublic, step.sealNonce, step.sealedRoot), Join(p), q);
    } else {
      QuotedKind(Join(step.joinerPublic), Join(p), q);
      StartedQuote(s, step, s');
    }
  }

  lemma OldGiveQuote(s: State, s': State, q: Quote, m: Message)
    requires Extends(s, s') && GiveQuotes(s) && q in s.quotes && Trusted(s', q)
    requires m.Give? && WellFormed(m) && q.binding == Some(Frame(m))
    ensures GiveQuoteOk(s', q, m)
  {
    hide Frame, Lowered, WellFormed;
    SameTrust(s, s', q);
    hide Trusted;
    assert GiveQuoteOk(s, q, m);
  }

  lemma GivenQuote(s: State, step: Step, s': State)
    requires Agreed(s) && step.GiveRoot? && GiveRootStep(s, step, s') && CanGive(s, step) && Extends(s, s')
    ensures step.sealedRoot in s'.seals && RootOf(s', s'.seals[step.sealedRoot].root, s.replicas[step.id].own)
  {
    hide Frame, CheckPeer, OpenNonce, SpendNonce, IsBytes, OwnQuote, Extends;
    RootOfStays(s, s', s.replicas[step.id].root.value, s.replicas[step.id].own);
  }

  lemma NewGiveQuote(s: State, step: Step, s': State, q: Quote, m: Message)
    requires Agreed(s) && Next(s, step, s') && Extends(s, s') && q in s'.quotes && q !in s.quotes && Trusted(s, q)
    requires m.Give? && WellFormed(m) && q.binding == Some(Frame(m))
    ensures GiveQuoteOk(s', q, m)
  {
    hide Agreed, Extends, BootStep, GiveRootStep, AttestStep, FinishJoinStep, ForeignSealStep, ForeignQuoteStep, StartJoinStep, Frame, Lowered, Trusted, CanGive, JoinAccepted, RootOf;
    NewQuote(s, step, s', q);
    if step.Attest? {
      QuotedKind(step.message, m, q);
    } else if step.GiveRoot? {
      JoinAcceptedSizes(s, step);
      QuotedKind(Give(step.joinerPublic, step.giverPublic, step.sealNonce, step.sealedRoot), m, q);
      GivenQuote(s, step, s');
    } else {
      QuotedKind(Join(step.joinerPublic), m, q);
    }
  }

  lemma NextKeepsGiveQuotes(s: State, step: Step, s': State)
    requires Agreed(s) && GiveQuotes(s) && Next(s, step, s')
    ensures GiveQuotes(s')
  {
    NextExtends(s, step, s');
    hide Next, Agreed, Extends, Frame, WellFormed, Trusted;
    forall q, m: Message | q in s'.quotes && Trusted(s', q) && m.Give? && WellFormed(m) && q.binding == Some(Frame(m))
      ensures GiveQuoteOk(s', q, m)
    {
      SameTrust(s, s', q);
      if q in s.quotes {
        OldGiveQuote(s, s', q, m);
      } else {
        NewGiveQuote(s, step, s', q, m);
      }
    }
  }

  /** A joiner takes over a root only from a replica of its own measurements. */
  lemma NextKeepsAgreed(s: State, step: Step, s': State)
    requires Grounded(s) && Agreed(s) && GiveQuotes(s) && Next(s, step, s')
    ensures Agreed(s')
  {
    NextExtends(s, step, s');
    forall id | id in s'.replicas && s'.replicas[id].root.Some?
      ensures RootOf(s', s'.replicas[id].root.value, s'.replicas[id].own)
    {
      if id in s.replicas && s.replicas[id].root.Some? {
        RootOfStays(s, s', s.replicas[id].root.value, s.replicas[id].own);
      } else {
        NewRoot(s, step, s', id);
      }
    }
  }

  lemma JoinedRoot(s: State, step: Step, s': State)
    requires Grounded(s) && GiveQuotes(s) && Extends(s, s') && step.FinishJoin? && FinishJoinStep(s, step, s')
    ensures RootOf(s', s.seals[step.sealedRoot].root, s.replicas[step.id].own)
  {
    hide OwnQuote, Trusted, CheckPeer, OpenNonce, SpendNonce, Frame, IsDebugTd, ProductionAttributes, Trim, Lowered, WellFormed, IsBytes, Exposed, Extends, RootOf;
    var nonce := s.attempts[step.joinerPublic].nonce;
    var m := Give(step.joinerPublic, step.giverPublic, step.sealNonce, step.sealedRoot);
    PassedPeerIsTrusted(s, step.id, step.quote, nonce, Frame(m));
    WellFormedGive(m, step.joinerPublic);
    assert GiveQuoteOk(s, step.quote, m);
    RootOfStays(s, s', s.seals[step.sealedRoot].root, Lowered(step.quote.body));
  }

  lemma WellFormedGive(m: Message, joinerPublic: Bytes)
    requires m.Give? && m.joinerPublic == joinerPublic && |joinerPublic| == 32 && |m.giverPublic| == 32 && |m.sealNonce| == 12
    ensures WellFormed(m)
  {
  }

  lemma BootedRoot(s: State, step: Step, s': State)
    requires step.Boot? && BootStep(s, step, s')
    ensures s'.replicas == s.replicas[step.id := s'.replicas[step.id]]
    ensures s'.replicas[step.id].root.Some? ==> RootOf(s', s'.replicas[step.id].root.value, s'.replicas[step.id].own)
  {
    hide Lowered, IsDebugTd, ProductionAttributes, Trim, Lower;
  }

  /** No other step gives a replica a root. */
  lemma NoNewRoot(s: State, step: Step, s': State, id: Id)
    requires Next(s, step, s') && !step.Boot? && !step.FinishJoin? && id in s'.replicas
    ensures id in s.replicas && s'.replicas[id].root == s.replicas[id].root
  {
    hide OwnQuote, Frame, CanGive, JoinAccepted, SpentReplica, FreshSeal, NonceExpiry, Exposed, Trusted, IsBytes, WellFormed;
    if step.GiveRoot? {
      SpendingKeepsTheRest(s, step);
    }
  }

  lemma FinishedRoot(s: State, step: Step, s': State, id: Id)
    requires Grounded(s) && GiveQuotes(s) && Extends(s, s') && step.FinishJoin? && FinishJoinStep(s, step, s')
    requires id in s'.replicas && s'.replicas[id].root.Some? && !(id in s.replicas && s.replicas[id].root.Some?)
    ensures RootOf(s', s'.replicas[id].root.value, s'.replicas[id].own)
  {
    JoinedRoot(s, step, s');
    hide Grounded, GiveQuotes, Extends, CheckPeer, Frame, RootOf;
  }

  lemma NewRoot(s: State, step: Step, s': State, id: Id)
    requires Grounded(s) && GiveQuotes(s) && Next(s, step, s') && Extends(s, s')
    requires id in s'.replicas && s'.replicas[id].root.Some? && !(id in s.replicas && s.replicas[id].root.Some?)
    ensures RootOf(s', s'.replicas[id].root.value, s'.replicas[id].own)
  {
    hide Grounded, GiveQuotes, Extends, RootOf, BootStep, GiveRootStep, FinishJoinStep, StartJoinStep, AttestStep, ForeignQuoteStep, ForeignSealStep;
    if step.Boot? {
      BootedRoot(s, step, s');
    } else if step.FinishJoin? {
      FinishedRoot(s, step, s', id);
    } else {
      NoNewRoot(s, step, s', id);
    }
  }

  lemma NotExposed(s: State, root: Root)
    requires Seals(s) && root in s.generated
    ensures !Exposed(s, root)
  {
    forall ct | ct in s.seals && s.seals[ct].root == root
      ensures s.seals[ct].joinerPublic in s.keys && s.seals[ct].giverPublic in s.keys
    {
      assert SealOk(s, s.seals[ct]);
    }
  }

  lemma NextKeepsSeals(s: State, step: Step, s': State)
    requires Inv(s) && Next(s, step, s')
    ensures Seals(s')
  {
    NextExtends(s, step, s');
    forall ct | ct in s'.seals
      ensures SealOk(s', s'.seals[ct])
    {
      if ct in s.seals {
        OldSeal(s, step, s', ct);
      } else {
        NewSeal(s, step, s', ct);
      }
    }
  }

  lemma OldSeal(s: State, step: Step, s': State, ct: Bytes)
    requires Seals(s) && Next(s, step, s') && Extends(s, s') && ct in s.seals
    ensures SealOk(s', s'.seals[ct])
  {
    hide Frame, CheckPeer, OpenNonce, SpendNonce, Trusted, ProductionAttributes, IsDebugTd, IsBytes, Exposed, OwnQuote, Lowered, WellFormed;
    assert SealOk(s, s.seals[ct]);
  }

  lemma NewSeal(s: State, step: Step, s': State, ct: Bytes)
    requires Inv(s) && Next(s, step, s') && Extends(s, s') && ct in s'.seals && ct !in s.seals
    ensures SealOk(s', s'.seals[ct])
  {
    hide Frame, CheckPeer, OpenNonce, SpendNonce, Trusted, ProductionAttributes, IsDebugTd, IsBytes, Exposed, OwnQuote, Lowered, WellFormed, GiveQuotes;
    if step.ForeignSeal? {
      if step.content.root in s.generated {
        NotExposed(s, step.content.root);
        assert false;
      }
    } else {
      var giver := s.replicas[step.id];
      PassedPeerIsTrusted(s, step.id, step.joinQuote, step.nonce, Frame(Join(step.joinerPublic)));
      assert JoinQuoteOk(s, step.joinQuote, step.joinerPublic);
      RootOfStays(s, s', giver.root.value, giver.own);
    }
  }

  lemma NextKeepsInv(s: State, step: Step, s': State)
    requires Inv(s) && Next(s, step, s')
    ensures Inv(s')
  {
    hide Grounded, Agreed, JoinQuotes, GiveQuotes, Seals, Next;
    NextKeepsGrounded(s, step, s');
    NextKeepsAgreed(s, step, s');
    NextKeepsJoinQuotes(s, step, s');
    NextKeepsGiveQuotes(s, step, s');
    NextKeepsSeals(s, step, s');
  }
}
