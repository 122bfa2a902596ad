/**
 Join nonces a replica issues and checks without keeping one it issued (`JoinNonces` in
 mero-kms/src/cluster.rs): the nonce carries its expiry and a tag under a key of this
 process; only a nonce whose join verified is remembered, until it expires.
 */
module JoinNonces {
  import opened Outcomes
  import opened Text
  import opened CounterViews
  import opened Framing
  import opened Challenges

  const JOIN_NONCE_TTL_SECS: nat := 60
  const NONCE_RANDOM: nat := 8
  const NONCE_BODY: nat := 16
  const NONCE_BYTES: nat := 32

  datatype NonceError = UnknownNonce | NonceExpired | NonceAlreadyUsed

  type Random8 = r: Bytes | |r| == NONCE_RANDOM && IsBytes(r) witness seq(8, _ => '\0')

  function Tag16(mac: Mac, body: Bytes): (r: Bytes)
    ensures |r| == NONCE_BYTES - NONCE_BODY
  {
    mac("mero-kms/cluster/join-nonce/v1" + body)[..NONCE_BYTES - NONCE_BODY]
  }

  /** The expiry is 64 bits wide and wraps. */
  function ExpiryAt(now: U64): U64 {
    (now + JOIN_NONCE_TTL_SECS) % 0x1_0000_0000_0000_0000
  }

  function NonceFor(mac: Mac, random: Random8, expiresAt: U64): (r: Bytes)
    ensures |r| == NONCE_BYTES
  {
    var body := random + U64Bytes(expiresAt);
    body + Tag16(mac, body)
  }

  function IssueNonce(mac: Mac, random: Random8, now: U64): (r: Bytes)
    ensures |r| == NONCE_BYTES
  {
    NonceFor(mac, random, ExpiryAt(now))
  }

  function NonceExpiry(nonce: Bytes): U64
    requires |nonce| == NONCE_BYTES && IsBytes(nonce)
  {
    BigEndianOfBytes(nonce[NONCE_RANDOM..NONCE_BODY]);
    Pow256Of8();
    FromBigEndian(nonce[NONCE_RANDOM..NONCE_BODY])
  }

  /** The expiry of a nonce, if this replica issued it and it has not expired. */
  function OpenNonce(mac: Mac, nonce: Bytes, now: U64): Result<U64, NonceError>
    requires |nonce| == NONCE_BYTES && IsBytes(nonce)
  {
    if nonce[NONCE_BODY..] != Tag16(mac, nonce[..NONCE_BODY]) then Err(UnknownNonce)
    else if NonceExpiry(nonce) < now then Err(NonceExpired)
    else Ok(NonceExpiry(nonce))
  }

  /** A nonce opens on the replica that issued it until 60 seconds later, and gives that expiry. */
  lemma IssuedNonceOpensUntilItsExpiry(mac: Mac, random: Random8, a: U64, now: U64)
    requires a + 60 <= U64_MAX
    ensures var nonce := IssueNonce(mac, random, a);
            && IsBytes(nonce)
            && (OpenNonce(mac, nonce, now).Ok? <==> now <= a + 60)
            && (OpenNonce(mac, nonce, now).Ok? ==> OpenNonce(mac, nonce, now).value == a + 60)
  {
    NonceParts(mac, random, ExpiryAt(a));
    hide Tag16, NonceFor, NonceExpiry, U64Bytes, IsBytes;
  }

  lemma NonceParts(mac: Mac, random: Random8, e: U64)
    ensures var nonce := NonceFor(mac, random, e);
            && IsBytes(nonce)
            && nonce[NONCE_BODY..] == Tag16(mac, nonce[..NONCE_BODY])
            && NonceExpiry(nonce) == e
  {
    hide BigEndian, FromBigEndian;
    var body := random + U64Bytes(e);
    var nonce := NonceFor(mac, random, e);
    assert nonce[..NONCE_BODY] == body && nonce[NONCE_BODY..] == Tag16(mac, body);
    assert nonce[NONCE_RANDOM..NONCE_BODY] == U64Bytes(e);
    Pow256Of8();
    BigEndianRoundTrip(e, 8);
  }

  /** Nothing else opens: a nonce that opens is what this process's key makes of its random bytes and expiry. */
  lemma OpenedNonceWasIssued(mac: Mac, nonce: Bytes, now: U64)
    requires |nonce| == NONCE_BYTES && IsBytes(nonce) && OpenNonce(mac, nonce, now).Ok?
    ensures now <= NonceExpiry(nonce) && nonce == NonceFor(mac, nonce[..NONCE_RANDOM], NonceExpiry(nonce))
  {
    BigEndianOfBytes(nonce[NONCE_RANDOM..NONCE_BODY]);
    hide BigEndian, FromBigEndian, IsBytes;
    assert nonce[..NONCE_BODY] == nonce[..NONCE_RANDOM] + U64Bytes(NonceExpiry(nonce));
    assert nonce == nonce[..NONCE_BODY] + nonce[NONCE_BODY..];
  }

  /**
   A nonce in its fields: eight random bytes, the expiry in eight, most significant first,
   and the first sixteen bytes of the tag over both. It opens exactly when that tag is the
   one this key makes and the expiry has not passed; each refusal has its cause.
   */
  lemma OpensIffTaggedAndInTime(mac: Mac, nonce: Bytes, now: U64)
    requires |nonce| == 32 && IsBytes(nonce)
    ensures var (random, e, tag) := (nonce[..8], NonceExpiry(nonce), nonce[16..]);
            && U64Bytes(e) == nonce[8..16]
            && match OpenNonce(mac, nonce, now)
               case Ok(expiry) => tag == mac(Frame(JoinNonceTag(random, e)))[..16] && now <= e && expiry == e
               case Err(UnknownNonce) => tag != mac(Frame(JoinNonceTag(random, e)))[..16]
               case Err(NonceExpired) => tag == mac(Frame(JoinNonceTag(random, e)))[..16] && now > e
               case Err(NonceAlreadyUsed) => false
  {
    BigEndianOfBytes(nonce[8..16]);
    hide BigEndian, FromBigEndian, IsBytes;
    assert nonce[..16] == nonce[..8] + nonce[8..16];
  }

  /** The map after a spend, and what the spend answered; a refused nonce is written again. */
  function SpendNonce(spent: SpentMap, nonce: Bytes, expiresAt: U64, now: U64): (SpentMap, Result<(), NonceError>) {
    var kept := Prune(spent, now);
    (kept[nonce := expiresAt], if nonce in kept then Err(NonceAlreadyUsed) else Ok(()))
  }

  class JoinNonces {
    const key: Mac
    var spent: SpentMap

    constructor (key: Mac)
      ensures this.key == key && spent == map[]
    {
      this.key, spent := key, map[];
    }

    method Issue(random: Random8, now: U64) returns (nonce: Bytes)
      ensures nonce == IssueNonce(key, random, now)
    {
      nonce := random;
      nonce := nonce + U64Bytes(ExpiryAt(now));
      nonce := nonce + Tag16(key, nonce);
    }

    method Open(nonce: Bytes, now: U64) returns (r: Result<U64, NonceError>)
      requires |nonce| == NONCE_BYTES && IsBytes(nonce)
      ensures r == OpenNonce(key, nonce, now)
    {
      r := OpenNonce(key, nonce, now);
    }

    /** Record a nonce as used by a verified join, or refuse it if it already was. */
    method Spend(nonce: Bytes, expiresAt: U64, now: U64) returns (r: Result<(), NonceError>)
      modifies this`spent
      ensures (spent, r) == SpendNonce(old(spent), nonce, expiresAt, now)
    {
      spent := Prune(spent, now);
      var was := nonce in spent;
      spent := spent[nonce := expiresAt];
      if was {
        return Err(NonceAlreadyUsed);
      }
      r := Ok(());
    }
  }

  // ---- every sequence of joins ----

  function NoncesAfter(calls: seq<Call>, n: nat): SpentMap
    requires n <= |calls|
  {
    if n == 0 then map[]
    else SpendNonce(NoncesAfter(calls, n - 1), calls[n - 1].id, calls[n - 1].expiresAt, calls[n - 1].now).0
  }

  function NonceAnswer(calls: seq<Call>, n: nat): Result<(), NonceError>
    requires n < |calls|
  {
    SpendNonce(NoncesAfter(calls, n), calls[n].id, calls[n].expiresAt, calls[n].now).1
  }

  lemma PutSize(kept: SpentMap, id: string, e: U64)
    ensures |kept[id := e]| <= |kept| + 1
  {
    assert kept[id := e].Keys == kept.Keys + {id};
    assert |kept[id := e].Keys| == |kept[id := e]| && |kept.Keys| == |kept|;
  }

  lemma OneSpendIsAlike(spent: SpentMap, call: Call, capacity: nat)
    requires |spent| < capacity
    requires call.id in Prune(spent, call.now) ==> Prune(spent, call.now)[call.id] == call.expiresAt
    ensures SpendNonce(spent, call.id, call.expiresAt, call.now).0 == Spend(spent, call.id, call.expiresAt, call.now, capacity).0
    ensures SpendNonce(spent, call.id, call.expiresAt, call.now).1.Ok? <==> Spend(spent, call.id, call.expiresAt, call.now, capacity).1.Ok?
    ensures |SpendNonce(spent, call.id, call.expiresAt, call.now).0| <= |spent| + 1
  {
    hide Prune;
    var kept := Prune(spent, call.now);
    PrunedIsSmaller(spent, call.now);
    PutSize(kept, call.id, call.expiresAt);
    if call.id in kept {
      assert kept[call.id := call.expiresAt] == kept;
    }
  }

  /** With room for every call, a challenge map spends as the nonce map does. */
  lemma {:induction false} NoncesSpendLikeChallenges(calls: seq<Call>, n: nat)
    requires n <= |calls| && Orderly(calls)
    ensures NoncesAfter(calls, n) == After(calls, |calls| + 1, n)
    ensures |NoncesAfter(calls, n)| <= n
  {
    hide Spend, SpendNonce, Prune;
    if n > 0 {
      NoncesSpendLikeChallenges(calls, n - 1);
      HeldAgrees(calls, n - 1);
      OneSpendIsAlike(NoncesAfter(calls, n - 1), calls[n - 1], |calls| + 1);
    }
  }

  lemma HeldAgrees(calls: seq<Call>, n: nat)
    requires n < |calls| && Orderly(calls)
    ensures var held := Prune(After(calls, |calls| + 1, n), calls[n].now);
            calls[n].id in held ==> held[calls[n].id] == calls[n].expiresAt
  {
    hide After, Answered;
    var held := Prune(After(calls, |calls| + 1, n), calls[n].now);
    if calls[n].id in held {
      HeldWasSpent(calls, |calls| + 1, n, calls[n].id);
    }
  }

  lemma AnswersAgree(calls: seq<Call>, n: nat)
    requires n < |calls| && Orderly(calls)
    ensures NonceAnswer(calls, n).Ok? <==> Answered(calls, |calls| + 1, n).Ok?
    ensures |Prune(After(calls, |calls| + 1, n), calls[n].now)| <= n
  {
    hide Spend, SpendNonce, Prune;
    NoncesSpendLikeChallenges(calls, n);
    HeldAgrees(calls, n);
    OneSpendIsAlike(NoncesAfter(calls, n), calls[n], |calls| + 1);
    PrunedIsSmaller(NoncesAfter(calls, n), calls[n].now);
  }

  lemma PrunedIsSmaller(spent: SpentMap, now: U64)
    ensures |Prune(spent, now)| <= |spent|
  {
    assert Prune(spent, now).Keys <= spent.Keys;
    SubsetIsSmaller(Prune(spent, now).Keys, spent.Keys);
    assert |Prune(spent, now).Keys| == |Prune(spent, now)| && |spent.Keys| == |spent|;
  }

  /**
   Over every sequence of verified joins: a nonce that was spent is accepted again exactly
   when the clock has passed its expiry.
   */
  lemma NonceSpentAgainIffExpired(calls: seq<Call>, i: nat, j: nat)
    requires i < j < |calls| && Orderly(calls) && calls[i].id == calls[j].id && NonceAnswer(calls, i).Ok?
    ensures NonceAnswer(calls, j).Ok? <==> calls[j].now > calls[i].expiresAt
  {
    hide Answered, NonceAnswer;
    AnswersAgree(calls, i);
    AnswersAgree(calls, j);
    UsedAgainIffExpired(calls, |calls| + 1, i, j);
  }
}
