/**
 Challenges that any replica of a cluster can check (mero-kms/src/stateless_challenge.rs):
 the id carries its own expiry and a tag under a key every replica derives, and each
 replica remembers the ids it has seen used until they expire.
 */
module Challenges {
  import opened Outcomes
  import opened Text
  import opened CounterViews
  import opened Framing

  const CLOCK_SKEW_SECS: nat := 30
  const RANDOM_BYTES: nat := 16
  const BODY_BYTES: nat := 24
  const ID_BYTES: nat := 56

  type Digest = d: Bytes | |d| == 32 && IsBytes(d) witness seq(32, _ => '\0')
  type Random = r: Bytes | |r| == RANDOM_BYTES && IsBytes(r) witness seq(16, _ => '\0')

  /** HMAC under the cluster's challenge key: any function of the message. */
  type Mac = Bytes -> Digest

  datatype ChallengeError = Malformed | NotIssuedToThisPeer | Expired | ExpiresTooLate | AlreadyUsed | RateLimited

  function SaturatingAdd(a: U64, b: U64): U64 {
    if a + b <= U64_MAX then a + b else U64_MAX
  }

  function Body(random: Random, expiresAt: U64): (r: Bytes)
    ensures |r| == BODY_BYTES && IsBytes(r)
  {
    random + U64Bytes(expiresAt)
  }

  function TagOf(mac: Mac, body: Bytes, peer: string): Digest {
    mac((("mero-kms/tdx-challenge-id/v1\0" + body) + peer))
  }

  function NonceOf(mac: Mac, body: Bytes, peer: string): Digest {
    mac((("mero-kms/tdx-challenge/v1\0" + body) + peer))
  }

  /** A challenge for `peer`, valid until `expiresAt`: its id, and the nonce to attest. */
  function Issue(mac: Mac, random: Random, peer: string, expiresAt: U64): (string, Digest) {
    var body := Body(random, expiresAt);
    (Hex(body + TagOf(mac, body, peer)), NonceOf(mac, body, peer))
  }

  /** The nonce and expiry of an id as issued to `peer`, on any replica. */
  function Open(mac: Mac, id: string, peer: string, now: U64, ttl: U64): Result<(Digest, U64), ChallengeError> {
    var decoded := HexDecode(id);
    if decoded.None? || |decoded.value| != ID_BYTES then Err(Malformed)
    else
      var (body, tag) := (decoded.value[..BODY_BYTES], decoded.value[BODY_BYTES..]);
      if tag != TagOf(mac, body, peer) then Err(NotIssuedToThisPeer)
      else
        var expiresAt: U64 := Expiry(body);
        if expiresAt < now then Err(Expired)
        else if expiresAt > SaturatingAdd(SaturatingAdd(now, ttl), CLOCK_SKEW_SECS) then Err(ExpiresTooLate)
        else Ok((NonceOf(mac, body, peer), expiresAt))
  }

  function Expiry(body: Bytes): (r: U64)
    requires |body| == BODY_BYTES && IsBytes(body)
  {
    BigEndianOfBytes(body[RANDOM_BYTES..]);
    Pow256Of8();
    FromBigEndian(body[RANDOM_BYTES..])
  }

  lemma ExpiryOfBody(random: Random, expiresAt: U64)
    ensures Expiry(Body(random, expiresAt)) == expiresAt
  {
    assert Body(random, expiresAt)[RANDOM_BYTES..] == U64Bytes(expiresAt);
    Pow256Of8();
    BigEndianRoundTrip(expiresAt, 8);
  }

  lemma BodyOfParts(body: Bytes)
    requires |body| == BODY_BYTES && IsBytes(body)
    ensures Body(body[..RANDOM_BYTES], Expiry(body)) == body
  {
    BigEndianOfBytes(body[RANDOM_BYTES..]);
    assert body == body[..RANDOM_BYTES] + body[RANDOM_BYTES..];
  }

  /** The MAC tells these two messages apart, as it does any two up to a collision. */
  ghost predicate NoCollision(mac: Mac, m: Bytes, m': Bytes) {
    mac(m) == mac(m') ==> m == m'
  }

  function TagMessage(random: Random, expiresAt: U64, peer: string): Bytes {
    Frame(ChallengeTag(random, expiresAt, peer))
  }

  lemma TagIsFramed(mac: Mac, random: Random, expiresAt: U64, peer: string)
    ensures TagOf(mac, Body(random, expiresAt), peer) == mac(TagMessage(random, expiresAt, peer))
    ensures NonceOf(mac, Body(random, expiresAt), peer) == mac(Frame(ChallengeNonce(random, expiresAt, peer)))
  {
    var b := Body(random, expiresAt);
    Reassociate("mero-kms/tdx-challenge-id/v1\0", b, peer);
    Reassociate("mero-kms/tdx-challenge/v1\0", b, peer);
  }

  lemma Reassociate(a: string, b: string, c: string)
    ensures (a + b) + c == a + (b + c)
  {
  }

  /**
   A challenge issued at time `a` opens on any replica of the same root, in any letter
   case, exactly for the peer it was issued to and while that replica's clock is in the
   window; it then gives the nonce and the expiry it was issued with.
   */
  lemma OpensExactlyInItsWindow(mac: Mac, random: Random, peer: string, a: U64, ttl: U64, id: string, asker: string, now: U64)
    requires Lower(id) == Issue(mac, random, peer, SaturatingAdd(a, ttl)).0
    requires NoCollision(mac, TagMessage(random, SaturatingAdd(a, ttl), peer), TagMessage(random, SaturatingAdd(a, ttl), asker))
    ensures var expiresAt := SaturatingAdd(a, ttl);
            && (Open(mac, id, asker, now, ttl).Ok? <==> asker == peer && InWindow(a, ttl, now))
            && (Open(mac, id, asker, now, ttl).Ok? ==>
                Open(mac, id, asker, now, ttl).value == (Issue(mac, random, peer, expiresAt).1, expiresAt))
  {
    var expiresAt := SaturatingAdd(a, ttl);
    var body := Body(random, expiresAt);
    IssuedIdDecodes(mac, random, peer, expiresAt, id);
    ExpiryOfBody(random, expiresAt);
    TagIsFramed(mac, random, expiresAt, peer);
    TagIsFramed(mac, random, expiresAt, asker);
    hide Issue, Body, Expiry, TagOf, NonceOf, TagMessage, HexDecode, Lower;
    SamePeer(mac, random, expiresAt, peer, asker);
    IssuedNonce(mac, random, peer, expiresAt);
  }

  lemma IssuedIdDecodes(mac: Mac, random: Random, peer: string, expiresAt: U64, id: string)
    requires Lower(id) == Issue(mac, random, peer, expiresAt).0
    ensures var body := Body(random, expiresAt);
            && HexDecode(id) == Some(body + TagOf(mac, body, peer))
            && (body + TagOf(mac, body, peer))[..BODY_BYTES] == body
            && (body + TagOf(mac, body, peer))[BODY_BYTES..] == TagOf(mac, body, peer)
  {
    var body := Body(random, expiresAt);
    HexRoundTrip(body + TagOf(mac, body, peer));
    HexDecodeIgnoresCase(id);
  }

  lemma IssuedNonce(mac: Mac, random: Random, peer: string, expiresAt: U64)
    ensures Issue(mac, random, peer, expiresAt).1 == NonceOf(mac, Body(random, expiresAt), peer)
  {
  }

  lemma SamePeer(mac: Mac, random: Random, expiresAt: U64, peer: string, asker: string)
    requires NoCollision(mac, TagMessage(random, expiresAt, peer), TagMessage(random, expiresAt, asker))
    ensures mac(TagMessage(random, expiresAt, peer)) == mac(TagMessage(random, expiresAt, asker)) <==> peer == asker
  {
    if mac(TagMessage(random, expiresAt, peer)) == mac(TagMessage(random, expiresAt, asker)) {
      FrameIsInjective(ChallengeTag(random, expiresAt, peer), ChallengeTag(random, expiresAt, asker));
    }
  }

  /** From 30 seconds before the issuer's clock said `a` until `a + ttl`, both ends included. */
  predicate InWindow(a: U64, ttl: U64, now: U64) {
    var expiresAt := SaturatingAdd(a, ttl);
    now <= expiresAt && expiresAt <= SaturatingAdd(SaturatingAdd(now, ttl), CLOCK_SKEW_SECS)
  }

  /** The window is `[a - 30, a + ttl]`; near the clock's end it still is, cut off at the largest time. */
  lemma WindowIsSkewToExpiry(a: U64, ttl: U64, now: U64)
    ensures a + ttl <= U64_MAX ==> (InWindow(a, ttl, now) <==> a - 30 <= now <= a + ttl)
    ensures a + ttl > U64_MAX ==> (InWindow(a, ttl, now) <==> now >= U64_MAX - ttl - 30)
  {
  }

  /** Nothing else opens: an id that opens for a peer is one this cluster's key tagged for it. */
  lemma OpenedWasIssued(mac: Mac, id: string, peer: string, now: U64, ttl: U64)
    requires Open(mac, id, peer, now, ttl).Ok?
    ensures exists random: Random :: Issue(mac, random, peer, Open(mac, id, peer, now, ttl).value.1).0 == Lower(id)
    ensures now <= Open(mac, id, peer, now, ttl).value.1
  {
    var decoded := HexDecode(id).value;
    var body := decoded[..BODY_BYTES];
    BodyOfParts(body);
    assert decoded == body + decoded[BODY_BYTES..];
    HexDecodedPrintsLower(id);
    var random: Random := body[..RANDOM_BYTES];
    hide Body, Expiry, TagOf, NonceOf, HexDecode, Lower, Hex;
    assert Issue(mac, random, peer, Expiry(body)).0 == Hex(decoded);
  }

  /** Each refusal of an id has its cause; an id is 24 bytes of body and 32 of tag, in hex. */
  lemma OpenRefusalsAreExact(mac: Mac, id: string, peer: string, now: U64, ttl: U64)
    requires Open(mac, id, peer, now, ttl).Err?
    ensures var decoded := HexDecode(id);
            match Open(mac, id, peer, now, ttl).error
            case Malformed => decoded.None? || |decoded.value| != 56
            case NotIssuedToThisPeer => decoded.Some? && |decoded.value| == 56 && decoded.value[24..] != TagOf(mac, decoded.value[..24], peer)
            case Expired => decoded.Some? && |decoded.value| == 56 && Expiry(decoded.value[..24]) < now
            case ExpiresTooLate => decoded.Some? && |decoded.value| == 56 && now <= Expiry(decoded.value[..24])
                                   && Expiry(decoded.value[..24]) > now + ttl + 30
            case _ => false
  {
    hide HexDecode, TagOf, NonceOf, Expiry;
  }

  // ---- spent challenges ----

  type SpentMap = map<string, U64>

  /** Expired ids are forgotten. */
  function Prune(spent: SpentMap, now: U64): SpentMap {
    map id | id in spent && spent[id] >= now :: spent[id]
  }

  /** The map after a spend, and what the spend answered. */
  function Spend(spent: SpentMap, id: string, expiresAt: U64, now: U64, capacity: nat): (SpentMap, Result<(), ChallengeError>) {
    var kept := Prune(spent, now);
    if id in kept then (kept, Err(AlreadyUsed))
    else if |kept| >= capacity then (kept, Err(RateLimited))
    else (kept[id := expiresAt], Ok(()))
  }

  class SpentChallenges {
    var spent: SpentMap

    constructor ()
      ensures spent == map[]
    {
      spent := map[];
    }

    /** Record an id as used, or refuse it if it already was, or if too many unexpired ids are held. */
    method Record(id: string, expiresAt: U64, now: U64, capacity: nat) returns (r: Result<(), ChallengeError>)
      modifies this
      ensures (spent, r) == Spend(old(spent), id, expiresAt, now, capacity)
      ensures |old(spent)| <= capacity ==> |spent| <= capacity
    {
      if |spent| <= capacity {
        SpendStaysWithinCapacity(spent, id, expiresAt, now, capacity);
      }
      spent := Prune(spent, now);
      if id in spent {
        return Err(AlreadyUsed);
      }
      if |spent| >= capacity {
        return Err(RateLimited);
      }
      spent := spent[id := expiresAt];
      r := Ok(());
    }
  }

  lemma SpendStaysWithinCapacity(spent: SpentMap, id: string, expiresAt: U64, now: U64, capacity: nat)
    requires |spent| <= capacity
    ensures |Spend(spent, id, expiresAt, now, capacity).0| <= capacity
  {
    var kept := Prune(spent, now);
    assert kept.Keys <= spent.Keys;
    SubsetIsSmaller(kept.Keys, spent.Keys);
    assert |kept.Keys| == |kept| && |spent.Keys| == |spent|;
    assert kept[id := expiresAt].Keys == kept.Keys + {id};
  }

  /** One spend: the id, the expiry it carries, and the clock. */
  datatype Call = Call(id: string, expiresAt: U64, now: U64)

  /** The map after the first `n` calls on a replica that starts with nothing spent. */
  function After(calls: seq<Call>, capacity: nat, n: nat): SpentMap
    requires n <= |calls|
  {
    if n == 0 then map[]
    else Spend(After(calls, capacity, n - 1), calls[n - 1].id, calls[n - 1].expiresAt, calls[n - 1].now, capacity).0
  }

  function Answered(calls: seq<Call>, capacity: nat, n: nat): Result<(), ChallengeError>
    requires n < |calls|
  {
    Spend(After(calls, capacity, n), calls[n].id, calls[n].expiresAt, calls[n].now, capacity).1
  }

  /** The clock never goes back, and an id always carries the same expiry. */
  ghost predicate Orderly(calls: seq<Call>) {
    && (forall i, j :: 0 <= i < j < |calls| ==> calls[i].now <= calls[j].now)
    && (forall i, j :: 0 <= i < j < |calls| && calls[i].id == calls[j].id ==> calls[i].expiresAt == calls[j].expiresAt)
  }

  /** However many calls there are, the map never holds more ids than the capacity. */
  lemma {:induction false} NeverAboveCapacity(calls: seq<Call>, capacity: nat, n: nat)
    requires n <= |calls|
    ensures |After(calls, capacity, n)| <= capacity
  {
    if n > 0 {
      NeverAboveCapacity(calls, capacity, n - 1);
      hide Spend;
      SpendStaysWithinCapacity(After(calls, capacity, n - 1), calls[n - 1].id, calls[n - 1].expiresAt, calls[n - 1].now, capacity);
    }
  }

  /** Until a clock passes its expiry, an id that was spent is still held. */
  lemma {:induction false} SpentIsHeld(calls: seq<Call>, capacity: nat, i: nat, n: nat)
    requires i < n <= |calls| && Orderly(calls) && Answered(calls, capacity, i).Ok?
    requires calls[n - 1].now <= calls[i].expiresAt
    ensures calls[i].id in After(calls, capacity, n) && After(calls, capacity, n)[calls[i].id] == calls[i].expiresAt
  {
    hide Spend;
    if n > i + 1 {
      SpentIsHeld(calls, capacity, i, n - 1);
      HeldThroughASpend(After(calls, capacity, n - 1), calls[i].id, calls[n - 1], capacity);
    } else {
      SpendHolds(After(calls, capacity, i), calls[i], capacity);
    }
  }

  lemma HeldThroughASpend(spent: SpentMap, id: string, call: Call, capacity: nat)
    requires id in spent && call.now <= spent[id] && (id == call.id ==> spent[id] == call.expiresAt)
    ensures var after := Spend(spent, call.id, call.expiresAt, call.now, capacity).0; id in after && after[id] == spent[id]
  {
  }

  lemma SpendHolds(spent: SpentMap, call: Call, capacity: nat)
    requires Spend(spent, call.id, call.expiresAt, call.now, capacity).1.Ok?
    ensures var after := Spend(spent, call.id, call.expiresAt, call.now, capacity).0; call.id in after && after[call.id] == call.expiresAt
  {
  }

  /**
   Over every sequence of calls: after an id was spent at call `i`, a later call with it
   is refused as already used while the clock is at or before its expiry.
   */
  lemma SpentOnceByItsExpiry(calls: seq<Call>, capacity: nat, i: nat, j: nat)
    requires i < j < |calls| && Orderly(calls) && calls[i].id == calls[j].id
    requires Answered(calls, capacity, i).Ok? && calls[j].now <= calls[i].expiresAt
    ensures Answered(calls, capacity, j) == Err(AlreadyUsed)
  {
    SpentIsHeld(calls, capacity, i, j);
  }

  /** Everything held was spent with that expiry. */
  lemma {:induction false} HeldWasSpent(calls: seq<Call>, capacity: nat, n: nat, id: string)
    requires n <= |calls| && id in After(calls, capacity, n)
    ensures exists i :: 0 <= i < n && calls[i].id == id && Answered(calls, capacity, i).Ok?
                        && calls[i].expiresAt == After(calls, capacity, n)[id]
  {
    var last := calls[n - 1];
    var before := After(calls, capacity, n - 1);
    if last.id == id && Answered(calls, capacity, n - 1).Ok? {
      assert calls[n - 1].id == id;
    } else {
      assert id in before && before[id] == After(calls, capacity, n)[id];
      HeldWasSpent(calls, capacity, n - 1, id);
    }
  }

  /** A held id has the expiry that every call with it carries. */
  lemma HeldExpiry(calls: seq<Call>, capacity: nat, n: nat, id: string)
    requires n <= |calls| && Orderly(calls) && id in After(calls, capacity, n)
    ensures forall j :: 0 <= j < |calls| && calls[j].id == id ==> calls[j].expiresAt == After(calls, capacity, n)[id]
  {
    hide After, Answered;
    HeldWasSpent(calls, capacity, n, id);
    var m :| 0 <= m < n && calls[m].id == id && calls[m].expiresAt == After(calls, capacity, n)[id];
    forall j | 0 <= j < |calls| && calls[j].id == id ensures calls[j].expiresAt == After(calls, capacity, n)[id] {
      if j < m {
        assert calls[j].expiresAt == calls[m].expiresAt;
      }
    }
  }

  /**
   An id spent before is answered "already used" exactly while the clock has not passed
   its expiry. After that it can be spent again, if there is room.
   */
  lemma UsedAgainIffExpired(calls: seq<Call>, capacity: nat, i: nat, j: nat)
    requires i < j < |calls| && Orderly(calls) && calls[i].id == calls[j].id && Answered(calls, capacity, i).Ok?
    ensures Answered(calls, capacity, j) == Err(AlreadyUsed) <==> calls[j].now <= calls[i].expiresAt
    ensures Answered(calls, capacity, j).Ok? <==>
              calls[j].now > calls[i].expiresAt && |Prune(After(calls, capacity, j), calls[j].now)| < capacity
  {
    if calls[j].now <= calls[i].expiresAt {
      SpentOnceByItsExpiry(calls, capacity, i, j);
    } else {
      hide After, Orderly;
      if calls[j].id in After(calls, capacity, j) {
        HeldExpiry(calls, capacity, j, calls[j].id);
      }
    }
  }

  /** A refusal that is neither "already used" nor a full map does not happen; a full map holds only unexpired ids. */
  lemma RefusalsAreExact(calls: seq<Call>, capacity: nat, j: nat)
    requires j < |calls| && Orderly(calls)
    ensures match Answered(calls, capacity, j)
            case Ok(_) => forall i :: 0 <= i < j && calls[i].id == calls[j].id && Answered(calls, capacity, i).Ok? ==> calls[j].now > calls[i].expiresAt
            case Err(e) =>
              (e == AlreadyUsed && exists i :: 0 <= i < j && calls[i].id == calls[j].id && Answered(calls, capacity, i).Ok?
                                               && calls[j].now <= calls[i].expiresAt)
              || (e == RateLimited && |Prune(After(calls, capacity, j), calls[j].now)| >= capacity)
  {
    hide After;
    forall i | 0 <= i < j && calls[i].id == calls[j].id && Answered(calls, capacity, i).Ok?
      ensures Answered(calls, capacity, j) == Err(AlreadyUsed) <==> calls[j].now <= calls[i].expiresAt
    {
      UsedAgainIffExpired(calls, capacity, i, j);
    }
    if Answered(calls, capacity, j) == Err(AlreadyUsed) {
      HeldWasSpent(calls, capacity, j, calls[j].id);
    }
  }

  /** The gap: a request opened before its challenge expires can be spent twice once it has. */
  lemma SpentTwiceAfterItsExpiry(id: string)
    ensures var calls := [Call(id, 100, 101), Call(id, 100, 102)];
            Orderly(calls) && Answered(calls, 10_000, 0).Ok? && Answered(calls, 10_000, 1).Ok?
  {
    var calls := [Call(id, 100, 101), Call(id, 100, 102)];
    assert After(calls, 10_000, 1) == map[id := 100];
    assert Prune(map[id := 100], 102) == map[];
  }
}
