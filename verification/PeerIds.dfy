/**
 The shape of a peer id (`validate_peer_id_shape` in
 mero-kms/src/handlers/challenge.rs): 1 to 128 base58 characters and nothing else.
 The framing and key-path proofs rest on this alphabet.
 */
module PeerIds {
  import opened Outcomes
  import opened Text

  const MAX_PEER_ID_LENGTH: nat := 128

  datatype PeerIdError = SurroundingSpace | EmptyId | TooLong | NotBase58

  predicate Base58(c: char) {
    || '1' <= c <= '9' || 'A' <= c <= 'H' || 'J' <= c <= 'N' || 'P' <= c <= 'Z'
    || 'a' <= c <= 'k' || 'm' <= c <= 'z'
  }

  /** A string's length in UTF-8 bytes. */
  function Utf8Length(s: string): (r: nat)
    ensures r >= |s|
  {
    if s == "" then 0
    else
      var n := s[0] as int;
      (if n < 0x80 then 1 else if n < 0x800 then 2 else if n < 0x10000 then 3 else 4) + Utf8Length(s[1..])
  }

  function Validate(peer: string): Result<string, PeerIdError> {
    var trimmed := Trim(peer);
    if Utf8Length(trimmed) != Utf8Length(peer) then Err(SurroundingSpace)
    else if trimmed == "" then Err(EmptyId)
    else if Utf8Length(trimmed) > MAX_PEER_ID_LENGTH then Err(TooLong)
    else if exists k :: 0 <= k < |trimmed| && !Base58(trimmed[k]) then Err(NotBase58)
    else Ok(peer)
  }

  /** The ids that pass: base58 characters only, 1 to 128 of them. */
  predicate Valid(peer: string) {
    1 <= |peer| <= MAX_PEER_ID_LENGTH && forall k :: 0 <= k < |peer| ==> Base58(peer[k])
  }

  lemma {:induction false} AsciiLength(s: string)
    requires forall k :: 0 <= k < |s| ==> s[k] as int < 0x80
    ensures Utf8Length(s) == |s|
  {
    if s != "" {
      AsciiLength(s[1..]);
    }
  }

  lemma {:induction false} LengthOfParts(s: string, k: nat)
    requires k <= |s|
    ensures Utf8Length(s) == Utf8Length(s[..k]) + Utf8Length(s[k..])
  {
    if k > 0 {
      LengthOfParts(s[1..], k - 1);
      assert s[1..][..k - 1] == s[..k][1..] && s[1..][k - 1..] == s[k..];
    } else {
      assert s[..0] == "" && s[0..] == s;
    }
  }

  /** Trimming that removes anything shows in the length. */
  lemma TrimKeepsLengthOnlyWhenItKeepsAll(s: string)
    requires Utf8Length(Trim(s)) == Utf8Length(s)
    ensures Trim(s) == s
  {
    var started := TrimStart(s, IsSpace);
    LengthOfParts(s, |s| - |started|);
    LengthOfParts(started, |Trim(s)|);
    assert Utf8Length(s[..|s| - |started|]) == 0 && Utf8Length(started[|Trim(s)|..]) == 0;
    assert started == s && Trim(s) == started;
  }

  lemma NoSpaceInBase58(c: char)
    requires Base58(c)
    ensures !IsSpace(c)
  {
  }

  lemma ShapeHasNoSpace(peer: string)
    requires Valid(peer)
    ensures Trim(peer) == peer && Utf8Length(peer) == |peer|
  {
    hide Utf8Length, TrimStart, TrimEnd;
    NoSpaceInBase58(peer[0]);
    NoSpaceInBase58(peer[|peer| - 1]);
    hide Base58, IsSpace;
    assert TrimStart(peer, IsSpace) == peer;
    Base58IsAscii(peer);
  }

  lemma Base58IsAscii(s: string)
    requires forall k :: 0 <= k < |s| ==> Base58(s[k])
    ensures Utf8Length(s) == |s|
  {
    AsciiLength(s);
  }

  /** Letters and digits but for the four that look alike. */
  lemma Base58Is(c: char)
    ensures Base58(c) <==>
              ('0' <= c <= '9' || 'A' <= c <= 'Z' || 'a' <= c <= 'z') && c !in {'0', 'O', 'I', 'l'}
  {
  }

  /** Each refusal has its cause, and no cause checked before it. */
  lemma RefusalsAreExact(peer: string)
    ensures match Validate(peer)
            case Ok(id) => id == peer && 1 <= |peer| <= 128 && forall k :: 0 <= k < |peer| ==> Base58(peer[k])
            case Err(SurroundingSpace) => Trim(peer) != peer
            case Err(EmptyId) => peer == ""
            case Err(TooLong) => Trim(peer) == peer && Utf8Length(peer) > 128
            case Err(NotBase58) => Trim(peer) == peer && peer != "" && Utf8Length(peer) <= 128 && exists k :: 0 <= k < |peer| && !Base58(peer[k])
  {
    ValidateAcceptsExactlyTheShape(peer);
    if Utf8Length(Trim(peer)) == Utf8Length(peer) {
      TrimKeepsLengthOnlyWhenItKeepsAll(peer);
    }
    hide Trim, Utf8Length, Base58;
  }

  /** An id passes exactly when it is 1 to 128 base58 characters. */
  lemma ValidateAcceptsExactlyTheShape(peer: string)
    ensures Validate(peer) == Ok(peer) <==> Valid(peer)
    ensures Validate(peer).Ok? <==> Valid(peer)
    ensures Valid(peer) <==> 1 <= |peer| <= 128 && forall k :: 0 <= k < |peer| ==> Base58(peer[k])
  {
    if Valid(peer) {
      ShapeHasNoSpace(peer);
    }
    if Validate(peer).Ok? {
      TrimKeepsLengthOnlyWhenItKeepsAll(peer);
      hide Base58, Utf8Length, TrimStart, TrimEnd, Trim;
      Base58IsAscii(peer);
    }
  }
}
