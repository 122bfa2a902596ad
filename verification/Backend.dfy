/**
 A replica's side of the join as the service holds it (`TdxBackend` in
 mero-kms/src/backend.rs, `join_handler` and `join_until_ready` in
 mero-kms/src/cluster.rs): the root slot, the notes about failed joins, and the handler
 that opens, verifies, spends and only then gives.
 */
module Backend {
  import opened Outcomes
  import opened Text
  import opened CounterViews
  import opened Framing
  import opened Challenges
  import opened JoinNonces
  import opened ClusterJoin

  datatype JoinRefusal =
    | BadNonce(nonceError: NonceError)
    | PeerRefused(peerRefusal: PeerRefusal)
    | NoRootYet
    | LowOrderKey

  /** The handler's answer, and what the nonces then hold. */
  ghost function JoinAnswer(
      own: Measurements, allowedTcb: seq<string>, root: Option<Root>, mac: Mac, spent: SpentMap,
      nonce: Bytes, joinerPublic: Bytes, q: Quote, genuine: bool, lowOrder: bool, now: U64, later: U64)
      : (SpentMap, Result<Root, JoinRefusal>)
    requires |nonce| == NONCE_BYTES && IsBytes(nonce)
  {
    var expiry := OpenNonce(mac, nonce, now);
    if expiry.Err? then (spent, Err(BadNonce(expiry.error)))
    else
      var peer := CheckPeer(own, allowedTcb, genuine, q, nonce, Frame(Join(joinerPublic)));
      if peer.Some? then (spent, Err(PeerRefused(peer.value)))
      else
        var (after, answer) := SpendNonce(spent, nonce, expiry.value, later);
        if answer.Err? then (after, Err(BadNonce(answer.error)))
        else if root.None? then (after, Err(NoRootYet))
        else if lowOrder then (after, Err(LowOrderKey))
        else (after, Ok(root.value))
  }

  /** The failures of a round: those before the first root a peer hands over. */
  ghost function Failures(answers: seq<Result<Root, string>>): seq<string> {
    if answers == [] || answers[0].Ok? then [] else [answers[0].error] + Failures(answers[1..])
  }

  /** They are the errors before the first root, in order, and all of them. */
  lemma {:induction false} FailuresEndAtARoot(answers: seq<Result<Root, string>>)
    ensures var r := Failures(answers);
            && |r| <= |answers| && (forall k :: 0 <= k < |r| ==> answers[k] == Err(r[k]))
            && (|r| < |answers| ==> answers[|r|].Ok?)
  {
    if answers != [] && answers[0].Err? {
      FailuresEndAtARoot(answers[1..]);
    }
  }

  class TdxBackend {
    const own: Measurements
    const allowedTcb: seq<string>
    const nonces: JoinNonces
    var root: Option<Root>
    var lastJoinError: Option<string>
    var lastJoinRefusal: Option<PeerRefusal>
    /** Every failed join so far, oldest first. */
    ghost var failures: seq<string>

    /** The note is the newest failure. */
    ghost predicate Valid()
      reads this`lastJoinError, this`failures
    {
      lastJoinError == if failures == [] then None else Some(failures[|failures| - 1])
    }

    constructor (own: Measurements, allowedTcb: seq<string>, key: Mac)
      ensures Valid() && this.own == own && this.allowedTcb == allowedTcb && root == None && failures == []
      ensures fresh(nonces) && nonces.key == key && nonces.spent == map[]
    {
      this.own, this.allowedTcb := own, allowedTcb;
      root, lastJoinError, lastJoinRefusal, failures := None, None, None, [];
      nonces := new JoinNonces(key);
    }

    /** Install the root; a second one is refused and changes nothing. */
    method SetRoot(root: Root) returns (ok: bool)
      modifies this`root
      ensures ok <==> old(this.root).None?
      ensures this.root == if old(this.root).None? then Some(root) else old(this.root)
    {
      if this.root.Some? {
        return false;
      }
      this.root := Some(root);
      ok := true;
    }

    method RecordJoinError(error: string)
      requires Valid()
      modifies this`lastJoinError, this`failures
      ensures Valid() && failures == old(failures) + [error]
    {
      lastJoinError := Some(error);
      failures := failures + [error];
    }

    /** Why the last join failed: the newest failure there ever was, unless there is a root. */
    method LastJoinError() returns (error: Option<string>)
      requires Valid()
      ensures error.Some? <==> root.None? && failures != []
      ensures error.Some? ==> error.value == failures[|failures| - 1]
    {
      if root.Some? {
        return None;
      }
      error := lastJoinError;
    }

    /** Give the root to a peer that is "same as me", once per nonce. */
    method JoinHandler(nonce: Bytes, joinerPublic: Bytes, q: Quote, genuine: bool, lowOrder: bool, now: U64, later: U64)
        returns (r: Result<Root, JoinRefusal>)
      requires |nonce| == NONCE_BYTES && IsBytes(nonce)
      modifies this`lastJoinRefusal, nonces`spent
      ensures (nonces.spent, r)
              == JoinAnswer(own, allowedTcb, root, nonces.key, old(nonces.spent), nonce, joinerPublic, q, genuine, lowOrder, now, later)
      ensures lastJoinRefusal == if r.Err? && r.error.PeerRefused? then Some(r.error.peerRefusal) else old(lastJoinRefusal)
    {
      hide OpenNonce, CheckPeer, SpendNonce, Frame;
      var expiry := nonces.Open(nonce, now);
      if expiry.Err? {
        return Err(BadNonce(expiry.error));
      }
      var peer := CheckPeer(own, allowedTcb, genuine, q, nonce, Frame(Join(joinerPublic)));
      if peer.Some? {
        lastJoinRefusal := peer;
        return Err(PeerRefused(peer.value));
      }
      var spent := nonces.Spend(nonce, expiry.value, later);
      if spent.Err? {
        return Err(BadNonce(spent.error));
      }
      if root.None? {
        return Err(NoRootYet);
      }
      if lowOrder {
        return Err(LowOrderKey);
      }
      r := Ok(root.value);
    }

    /**
     One round over the peers: the first root a peer hands over is kept, if this replica
     has none yet, and ends the joining; each failure before it is noted.
     */
    method JoinRound(answers: seq<Result<Root, string>>) returns (done: bool)
      requires Valid()
      modifies this`root, this`lastJoinError, this`failures
      ensures Valid() && failures == old(failures) + Failures(answers)
      ensures done <==> exists k :: 0 <= k < |answers| && answers[k].Ok?
      ensures !done ==> root == old(root)
      ensures done ==> exists k :: 0 <= k < |answers| && answers[k].Ok? && (forall j :: 0 <= j < k ==> answers[j].Err?)
                                   && root == if old(root).None? then Some(answers[k].value) else old(root)
    {
      assert answers[0..] == answers;
      for k := 0 to |answers|
        invariant Valid() && root == old(root) && forall j :: 0 <= j < k ==> answers[j].Err?
        invariant failures + Failures(answers[k..]) == old(failures) + Failures(answers)
      {
        assert answers[k..][0] == answers[k] && answers[k..][1..] == answers[k + 1..];
        if answers[k].Ok? {
          var _ := SetRoot(answers[k].value);
          return true;
        }
        RecordJoinError(answers[k].error);
      }
      done := false;
    }
  }

  lemma OpenedExpiry(mac: Mac, nonce: Bytes, now: U64)
    requires |nonce| == NONCE_BYTES && IsBytes(nonce) && OpenNonce(mac, nonce, now).Ok?
    ensures OpenNonce(mac, nonce, now).value == NonceExpiry(nonce)
  {
  }

  /** What the handler answers the request of a step. */
  ghost function AnswerOf(s: State, step: Step): (SpentMap, Result<Root, JoinRefusal>)
    requires step.GiveRoot? && step.id in s.replicas && |step.nonce| == NONCE_BYTES && IsBytes(step.nonce)
  {
    var r := s.replicas[step.id];
    JoinAnswer(r.own, r.allowedTcb, r.root, r.mac, r.spent, step.nonce, step.joinerPublic, step.joinQuote,
               step.joinQuote in s.quotes, step.joinerPublic in s.lowOrder, step.now, step.later)
  }

  lemma AcceptedAnswer(s: State, step: Step)
    requires step.GiveRoot? && JoinAccepted(s, step)
    ensures var r := s.replicas[step.id];
            var (after, spent) := SpendNonce(r.spent, step.nonce, NonceExpiry(step.nonce), step.later);
            AnswerOf(s, step) == (after,
                                  if spent.Err? then Err(BadNonce(spent.error))
                                  else if r.root.None? then Err(NoRootYet)
                                  else if step.joinerPublic in s.lowOrder then Err(LowOrderKey)
                                  else Ok(r.root.value))
  {
    OpenedExpiry(s.replicas[step.id].mac, step.nonce, step.now);
    hide CheckPeer, SpendNonce, OpenNonce, Frame, IsBytes, NonceExpiry;
  }

  /** The handler is the system's step: what the step accepts it spends, and gives exactly when the step can. */
  lemma HandlerIsTheStep(s: State, step: Step)
    requires step.GiveRoot? && JoinAccepted(s, step)
    ensures AnswerOf(s, step).0 == SpentReplica(s, step).spent
    ensures AnswerOf(s, step).1.Ok? <==> CanGive(s, step)
    ensures CanGive(s, step) ==> AnswerOf(s, step).1 == Ok(s.replicas[step.id].root.value)
  {
    AcceptedAnswer(s, step);
    hide JoinAccepted, SpendNonce, IsBytes, NonceExpiry, AnswerOf;
  }

  /** What the step does not accept the handler refuses, spending nothing. */
  lemma HandlerRefusesTheRest(s: State, step: Step)
    requires step.GiveRoot? && step.id in s.replicas && |step.nonce| == 32 && IsBytes(step.nonce) && |step.joinerPublic| == 32
    requires step.now <= step.later && s.replicas[step.id].clock <= step.later && !JoinAccepted(s, step)
    ensures AnswerOf(s, step).0 == s.replicas[step.id].spent && AnswerOf(s, step).1.Err?
  {
    hide CheckPeer, SpendNonce, OpenNonce, Frame, IsBytes, NonceExpiry;
  }
}
