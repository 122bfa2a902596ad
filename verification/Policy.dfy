/**
 The measurement policy: what a validated policy admits, and as which role
 (mero-kms/src/policy.rs, mero-kms/src/measurement.rs, mero-kms/src/util.rs,
 `enforce_attestation_policy` in mero-kms/src/handlers/get_key.rs).
 */
module Policy {
  import opened Outcomes
  import opened Text
  import opened KeyPaths

  const MEASUREMENT_BYTES: nat := 48
  const REGISTERS: nat := 5

  /** The quote's five registers as they arrive: MRTD, RTMR0 to RTMR3. */
  type Registers = r: seq<string> | |r| == REGISTERS witness ["", "", "", "", ""]

  /** Each register's allowed values, in the same order. */
  type Allowlists = l: seq<seq<string>> | |l| == REGISTERS witness [[], [], [], [], []]

  datatype PolicyEntry = PolicyEntry(role: Role, lists: Allowlists)
  datatype AttestationPolicy = AttestationPolicy(enforced: bool, tcbStatuses: seq<string>, entries: seq<PolicyEntry>)

  datatype PolicyProblem =
    | NoTcbStatuses
    | NoEntries
    | DuplicateRole(role: Role)
    | EntriesOverlap(earlier: nat, later: nat)
    | EmptyAllowlist(entry: nat, register: nat)

  /** The closest entry, and its first register that failed. */
  datatype Refusal = NoTcbStatus | TcbRejected | NothingToMatch | Mismatch(entry: nat, register: nat)

  // ---- measurements ----

  function Strip0x(s: string): (r: string)
    ensures |r| <= |s|
    ensures !(|r| >= 2 && r[0] == '0' && r[1] == 'x')
    ensures !(|s| >= 2 && s[0] == '0' && s[1] == 'x') ==> r == s
    decreases |s|
  {
    if |s| >= 2 && s[0] == '0' && s[1] == 'x' then Strip0x(s[2..]) else s
  }

  /** Nothing is stripped but `0x`, however often it leads. */
  lemma {:induction false} OnlyPrefixesAreStripped(s: string)
    ensures var r := Strip0x(s);
            && r == s[|s| - |r|..] && (|s| - |r|) % 2 == 0
            && forall k :: 0 <= k < |s| - |r| ==> s[k] == if k % 2 == 0 then '0' else 'x'
    decreases |s|
  {
    if |s| >= 2 && s[0] == '0' && s[1] == 'x' {
      OnlyPrefixesAreStripped(s[2..]);
      forall k | 2 <= k < |s| - |Strip0x(s)| ensures s[k] == if k % 2 == 0 then '0' else 'x' {
        assert s[k] == s[2..][k - 2];
      }
    }
  }

  function Normalize(raw: string): string {
    Lower(Strip0x(Trim(raw)))
  }

  predicate LowerHex(s: string) {
    |s| == 2 * MEASUREMENT_BYTES && forall k :: 0 <= k < |s| ==> '0' <= s[k] <= '9' || 'a' <= s[k] <= 'f'
  }

  /** A measurement as the policy keeps it: lower-case hex of 48 bytes. */
  function ParseMeasurement(raw: string): Option<string> {
    var n := Normalize(raw);
    if |n| == 2 * MEASUREMENT_BYTES && forall k :: 0 <= k < |n| ==> HexValue(n[k]).Some? then Some(n) else None
  }

  lemma HexIsNotSpace(s: string)
    requires LowerHex(s)
    ensures Trim(s) == s && Strip0x(s) == s && Lower(s) == s
  {
    assert !IsSpace(s[0]) && !IsSpace(s[|s| - 1]);
    assert TrimStart(s, IsSpace) == s;
    assert s[1] != 'x';
  }

  /**
   A measurement parses exactly when, without surrounding blanks and leading `0x`s, it is 96
   hex digits; it is kept in lower case.
   */
  lemma ParsedIff(raw: string)
    ensures var s := Strip0x(Trim(raw));
            && (ParseMeasurement(raw).Some? <==> |s| == 96 && forall k :: 0 <= k < 96 ==> IsHexDigit(s[k]))
            && (ParseMeasurement(raw).Some? ==> ParseMeasurement(raw).value == Lower(s))
  {
    hide Trim, Strip0x;
    var s := Strip0x(Trim(raw));
    forall k | 0 <= k < |s| ensures HexValue(Lower(s)[k]).Some? <==> IsHexDigit(s[k]) {
      LowerHexDigit(s[k]);
    }
  }

  /** Parsing yields lower-case hex, a fixed point of normalization; anything of that shape parses to itself. */
  lemma ParsedIsNormal(raw: string)
    ensures ParseMeasurement(raw).Some? ==> LowerHex(ParseMeasurement(raw).value) && Normalize(ParseMeasurement(raw).value) == ParseMeasurement(raw).value
    ensures LowerHex(raw) ==> ParseMeasurement(raw) == Some(raw)
  {
    hide Trim, Strip0x;
    if ParseMeasurement(raw).Some? {
      var n := Normalize(raw);
      LowerTwice(Strip0x(Trim(raw)));
      HexIsNotSpace(n);
    }
    if LowerHex(raw) {
      HexIsNotSpace(raw);
    }
  }

  // ---- matching ----

  /** Some allowed value is the raw one after normalization; an empty list allows nothing. */
  predicate RegisterMatches(allowed: seq<string>, raw: string) {
    Normalize(raw) in allowed
  }

  /** A quote matches an entry only when all five registers are in that entry's lists. */
  predicate Matches(e: PolicyEntry, quote: Registers) {
    forall r :: 0 <= r < REGISTERS ==> RegisterMatches(e.lists[r], quote[r])
  }

  predicate ListsMeet(a: seq<string>, b: seq<string>) {
    exists k :: 0 <= k < |a| && a[k] in b
  }

  /** Whether some quote could match both. */
  predicate Overlap(a: PolicyEntry, b: PolicyEntry) {
    forall r :: 0 <= r < REGISTERS ==> ListsMeet(a.lists[r], b.lists[r])
  }

  /** Every value was parsed, as the configuration loads them. */
  ghost predicate Parsed(e: PolicyEntry) {
    forall r, k :: 0 <= r < REGISTERS && 0 <= k < |e.lists[r]| ==> LowerHex(e.lists[r][k])
  }

  lemma MatchingBothMeansOverlap(a: PolicyEntry, b: PolicyEntry, quote: Registers)
    requires Matches(a, quote) && Matches(b, quote)
    ensures Overlap(a, b)
  {
    hide Normalize;
    forall r | 0 <= r < REGISTERS
      ensures ListsMeet(a.lists[r], b.lists[r])
    {
      var k :| 0 <= k < |a.lists[r]| && a.lists[r][k] == Normalize(quote[r]);
      assert RegisterMatches(a.lists[r], quote[r]) && RegisterMatches(b.lists[r], quote[r]);
    }
  }

  function Shared(a: seq<string>, b: seq<string>): (v: string)
    requires ListsMeet(a, b)
    ensures v in a && v in b
    decreases |a|
  {
    if a[0] in b then a[0]
    else
      assert ListsMeet(a[1..], b) by {
        var k :| 0 <= k < |a| && a[k] in b;
        assert a[1..][k - 1] == a[k];
      }
      Shared(a[1..], b)
  }

  function SharedQuote(a: PolicyEntry, b: PolicyEntry): (quote: Registers)
    requires Overlap(a, b)
    ensures forall r :: 0 <= r < REGISTERS ==> quote[r] in a.lists[r] && quote[r] in b.lists[r]
  {
    seq(REGISTERS, r requires 0 <= r < REGISTERS && ListsMeet(a.lists[r], b.lists[r]) => Shared(a.lists[r], b.lists[r]))
  }

  lemma SharedQuoteMatchesBoth(a: PolicyEntry, b: PolicyEntry)
    requires Parsed(a) && Overlap(a, b)
    ensures Matches(a, SharedQuote(a, b)) && Matches(b, SharedQuote(a, b))
  {
    hide Overlap, SharedQuote, LowerHex, Normalize;
    var quote := SharedQuote(a, b);
    forall r | 0 <= r < REGISTERS
      ensures Normalize(quote[r]) == quote[r]
    {
      var k :| 0 <= k < |a.lists[r]| && a.lists[r][k] == quote[r];
      NormalHex(quote[r]);
    }
  }

  lemma NormalHex(s: string)
    requires LowerHex(s)
    ensures Normalize(s) == s
  {
    hide LowerHex, Trim, Strip0x, Lower;
    HexIsNotSpace(s);
  }

  /** The overlap test is exact: it holds just when some quote matches both entries. */
  lemma OverlapIsExact(a: PolicyEntry, b: PolicyEntry)
    requires Parsed(a)
    ensures Overlap(a, b) <==> exists quote: Registers :: Matches(a, quote) && Matches(b, quote)
  {
    hide Overlap, Matches, SharedQuote, Parsed;
    if Overlap(a, b) {
      SharedQuoteMatchesBoth(a, b);
    }
    if quote: Registers :| Matches(a, quote) && Matches(b, quote) {
      MatchingBothMeansOverlap(a, b, quote);
    }
  }

  // ---- startup validation ----

  /** The first earlier entry that `later` overlaps. */
  function FirstOverlap(entries: seq<PolicyEntry>, later: nat, from: nat): (r: Option<nat>)
    requires from <= later < |entries|
    ensures r.None? <==> forall i :: from <= i < later ==> !Overlap(entries[i], entries[later])
    ensures r.Some? ==> from <= r.value < later && Overlap(entries[r.value], entries[later])
    decreases later - from
  {
    if from == later then None
    else if Overlap(entries[from], entries[later]) then Some(from)
    else FirstOverlap(entries, later, from + 1)
  }

  function FirstEmpty(lists: Allowlists, from: nat): (r: Option<nat>)
    requires from <= REGISTERS
    ensures r.None? <==> forall k :: from <= k < REGISTERS ==> lists[k] != []
    decreases REGISTERS - from
  {
    if from == REGISTERS then None else if lists[from] == [] then Some(from) else FirstEmpty(lists, from + 1)
  }

  function EntryProblem(entries: seq<PolicyEntry>, index: nat): Option<PolicyProblem>
    requires index < |entries|
  {
    var e := entries[index];
    var overlap := FirstOverlap(entries, index, 0);
    var empty := FirstEmpty(e.lists, 0);
    if exists i :: 0 <= i < index && entries[i].role == e.role then Some(DuplicateRole(e.role))
    else if overlap.Some? then Some(EntriesOverlap(overlap.value, index))
    else if empty.Some? then Some(EmptyAllowlist(index, empty.value))
    else None
  }

  function FirstProblem(entries: seq<PolicyEntry>, index: nat): (r: Option<PolicyProblem>)
    requires index <= |entries|
    ensures r.None? <==> forall i :: index <= i < |entries| ==> EntryProblem(entries, i).None?
    decreases |entries| - index
  {
    if index == |entries| then None
    else if EntryProblem(entries, index).Some? then EntryProblem(entries, index)
    else FirstProblem(entries, index + 1)
  }

  /** The check at startup: the first problem found, if any. */
  function Validate(p: AttestationPolicy): Option<PolicyProblem> {
    if !p.enforced then None
    else if p.tcbStatuses == [] then Some(NoTcbStatuses)
    else if p.entries == [] then Some(NoEntries)
    else FirstProblem(p.entries, 0)
  }

  /**
   An enforced policy validates exactly when it has TCB statuses and entries, every list
   has a value, no role appears twice, and no two entries admit a common quote.
   */
  lemma ValidateIsExact(p: AttestationPolicy)
    requires p.enforced && forall i :: 0 <= i < |p.entries| ==> Parsed(p.entries[i])
    ensures Validate(p).None? <==>
              && p.tcbStatuses != [] && p.entries != []
              && (forall i, r :: 0 <= i < |p.entries| && 0 <= r < REGISTERS ==> p.entries[i].lists[r] != [])
              && (forall i, j :: 0 <= i < j < |p.entries| ==> p.entries[i].role != p.entries[j].role)
              && (forall i, j :: 0 <= i < j < |p.entries| ==>
                    !exists quote: Registers :: Matches(p.entries[i], quote) && Matches(p.entries[j], quote))
  {
    hide Overlap, Matches, Parsed;
    forall i, j | 0 <= i < j < |p.entries|
      ensures Overlap(p.entries[i], p.entries[j]) <==>
                exists quote: Registers :: Matches(p.entries[i], quote) && Matches(p.entries[j], quote)
    {
      OverlapIsExact(p.entries[i], p.entries[j]);
    }
    forall i | 0 <= i < |p.entries|
      ensures EntryProblem(p.entries, i).None? <==>
                && (forall r :: 0 <= r < REGISTERS ==> p.entries[i].lists[r] != [])
                && (forall j :: 0 <= j < i ==> p.entries[j].role != p.entries[i].role)
                && (forall j :: 0 <= j < i ==> !Overlap(p.entries[j], p.entries[i]))
    {
    }
  }

  lemma LaterEntryIsSeparate(p: AttestationPolicy, i: nat, j: nat)
    requires p.enforced && Validate(p).None? && i < j < |p.entries|
    ensures !Overlap(p.entries[i], p.entries[j])
  {
    hide Overlap, FirstEmpty;
    assert EntryProblem(p.entries, j).None?;
  }

  lemma SeparateEntriesShareNoQuote(a: PolicyEntry, b: PolicyEntry, quote: Registers)
    requires !Overlap(a, b)
    ensures !(Matches(a, quote) && Matches(b, quote))
  {
    hide Overlap, Matches;
    if Matches(a, quote) && Matches(b, quote) {
      MatchingBothMeansOverlap(a, b, quote);
    }
  }

  /** Once a policy validates, no quote matches two of its entries. */
  lemma NoQuoteMatchesTwoEntries(p: AttestationPolicy, quote: Registers, i: nat, j: nat)
    requires p.enforced && Validate(p).None?
    requires i < |p.entries| && j < |p.entries| && Matches(p.entries[i], quote) && Matches(p.entries[j], quote)
    ensures i == j
  {
    hide Overlap, Matches, Validate;
    if i < j {
      LaterEntryIsSeparate(p, i, j);
      SeparateEntriesShareNoQuote(p.entries[i], p.entries[j], quote);
    } else if j < i {
      LaterEntryIsSeparate(p, j, i);
      SeparateEntriesShareNoQuote(p.entries[j], p.entries[i], quote);
    }
  }

  // ---- enforcement ----

  predicate TcbAllowed(statuses: seq<string>, status: string) {
    Lower(status) in statuses
  }

  function Hits(e: PolicyEntry, quote: Registers): (hits: seq<bool>)
    ensures |hits| == REGISTERS && forall r :: 0 <= r < REGISTERS ==> hits[r] == RegisterMatches(e.lists[r], quote[r])
  {
    seq(REGISTERS, r requires 0 <= r < REGISTERS => RegisterMatches(e.lists[r], quote[r]))
  }

  function Count(hits: seq<bool>): (c: nat)
    ensures c <= |hits|
    ensures c == |hits| <==> forall r :: 0 <= r < |hits| ==> hits[r]
  {
    if hits == [] then 0 else Count(hits[..|hits| - 1]) + if hits[|hits| - 1] then 1 else 0
  }

  /** How many registers match. */
  function Score(e: PolicyEntry, quote: Registers): (c: nat)
    ensures c == REGISTERS <==> Matches(e, quote)
  {
    Count(Hits(e, quote))
  }

  function Scores(entries: seq<PolicyEntry>, quote: Registers): (scores: seq<nat>)
    ensures |scores| == |entries| && forall i :: 0 <= i < |entries| ==> scores[i] == Score(entries[i], quote)
  {
    seq(|entries|, i requires 0 <= i < |entries| => Score(entries[i], quote))
  }

  /** The first largest of some scores. */
  ghost predicate IsFirstMax(scores: seq<nat>, best: nat) {
    && best < |scores|
    && (forall i :: 0 <= i < |scores| ==> scores[i] <= scores[best])
    && (forall i :: 0 <= i < best ==> scores[i] < scores[best])
  }

  /** The first register that does not match. */
  ghost predicate IsFirstMismatch(e: PolicyEntry, quote: Registers, register: nat) {
    && register < REGISTERS && !RegisterMatches(e.lists[register], quote[register])
    && forall r :: 0 <= r < register ==> RegisterMatches(e.lists[r], quote[r])
  }

  /** The first entry with the most matching registers, and its first register that does not match. */
  ghost predicate IsClosest(entries: seq<PolicyEntry>, quote: Registers, refusal: Refusal) {
    && refusal.Mismatch? && IsFirstMax(Scores(entries, quote), refusal.entry)
    && IsFirstMismatch(entries[refusal.entry], quote, refusal.register)
  }

  /** One entry: how many registers match, and the first that does not. */
  method CheckEntry(e: PolicyEntry, quote: Registers) returns (matched: nat, firstFailure: Option<nat>)
    ensures matched == Score(e, quote)
    ensures firstFailure.None? <==> Matches(e, quote)
    ensures firstFailure.Some? ==> IsFirstMismatch(e, quote, firstFailure.value)
  {
    hide RegisterMatches;
    ghost var hits := Hits(e, quote);
    matched, firstFailure := 0, None;
    for r := 0 to REGISTERS
      invariant matched == Count(hits[..r])
      invariant firstFailure.None? <==> forall j :: 0 <= j < r ==> hits[j]
      invariant firstFailure.Some? ==>
                  && firstFailure.value < r && !hits[firstFailure.value]
                  && forall j :: 0 <= j < firstFailure.value ==> hits[j]
    {
      assert hits[..r + 1][..r] == hits[..r];
      if RegisterMatches(e.lists[r], quote[r]) {
        matched := matched + 1;
      } else if firstFailure.None? {
        firstFailure := Some(r);
      }
    }
    assert hits[..REGISTERS] == hits;
  }

  lemma FirstMaxGrows(scores: seq<nat>, k: nat, best: nat)
    requires k < |scores|
    requires k > 0 ==> IsFirstMax(scores[..k], best)
    ensures IsFirstMax(scores[..k + 1], if k == 0 || scores[k] > scores[best] then k else best)
  {
  }

  /** The loop over the entries: the first match, or the closest entry so far. */
  method Search(entries: seq<PolicyEntry>, quote: Registers) returns (found: Option<nat>, closest: Refusal)
    ensures found.Some? ==> found.value < |entries| && Matches(entries[found.value], quote)
                            && forall i :: 0 <= i < found.value ==> !Matches(entries[i], quote)
    ensures found.None? ==> forall i :: 0 <= i < |entries| ==> !Matches(entries[i], quote)
    ensures found.None? ==> if entries == [] then closest == NothingToMatch else IsClosest(entries, quote, closest)
  {
    hide Matches, Score, IsFirstMismatch, IsFirstMax, Scores;
    var best: nat := 0;
    found, closest := None, NothingToMatch;
    ghost var scores := Scores(entries, quote);
    for k := 0 to |entries|
      invariant found.None? && forall i :: 0 <= i < k ==> !Matches(entries[i], quote)
      invariant k == 0 ==> closest == NothingToMatch
      invariant k > 0 ==>
                  && closest.Mismatch? && closest.entry < k && best == scores[closest.entry]
                  && IsFirstMax(scores[..k], closest.entry)
                  && IsFirstMismatch(entries[closest.entry], quote, closest.register)
    {
      var matched, failure := CheckEntry(entries[k], quote);
      if failure.None? {
        found := Some(k);
        return;
      }
      FirstMaxGrows(scores, k, if k == 0 then 0 else closest.entry);
      if k == 0 || matched > best {
        closest, best := Mismatch(k, failure.value), matched;
      }
    }
    assert scores[..|entries|] == scores;
  }

  /** The role a verified quote is released keys as; see `EnforcedIsExact`. */
  method Enforce(p: AttestationPolicy, tcb: Option<string>, quote: Registers) returns (r: Result<Role, Refusal>)
    ensures r == if p.enforced then Enforced(p, tcb, quote) else Ok(Node)
  {
    if !p.enforced {
      return Ok(Node);
    }
    if tcb.None? {
      return Err(NoTcbStatus);
    }
    if !TcbAllowed(p.tcbStatuses, tcb.value) {
      return Err(TcbRejected);
    }
    var found, closest := Search(p.entries, quote);
    if found.Some? {
      FirstMatchIsEnforced(p, tcb, quote, found.value);
      return Ok(p.entries[found.value].role);
    }
    NothingMatchesIsRefused(p, tcb, quote, closest);
    r := Err(closest);
  }

  // ---- the same decision as a function ----

  /** Which entries match. */
  function MatchList(entries: seq<PolicyEntry>, quote: Registers): (r: seq<bool>)
    ensures |r| == |entries| && forall i :: 0 <= i < |r| ==> r[i] == Matches(entries[i], quote)
  {
    seq(|entries|, i requires 0 <= i < |entries| => Matches(entries[i], quote))
  }

  function FirstTrue(s: seq<bool>): (r: Option<nat>)
    ensures r.Some? ==> r.value < |s| && s[r.value] && forall i :: 0 <= i < r.value ==> !s[i]
    ensures r.None? ==> forall i :: 0 <= i < |s| ==> !s[i]
  {
    if s == [] then None
    else if s[0] then Some(0)
    else
      var rest := FirstTrue(s[1..]);
      if rest.Some? then Some(rest.value + 1) else None
  }

  function FirstMatch(entries: seq<PolicyEntry>, quote: Registers): (r: Option<nat>)
    ensures r.Some? ==> r.value < |entries| && Matches(entries[r.value], quote)
                        && forall i :: 0 <= i < r.value ==> !Matches(entries[i], quote)
    ensures r.None? ==> forall i :: 0 <= i < |entries| ==> !Matches(entries[i], quote)
  {
    FirstTrue(MatchList(entries, quote))
  }

  function FirstMax(scores: seq<nat>): (best: nat)
    requires scores != []
    ensures IsFirstMax(scores, best)
  {
    var n := |scores| - 1;
    if n == 0 then 0
    else
      var before := FirstMax(scores[..n]);
      if scores[n] > scores[before] then n else before
  }

  function FirstMismatch(e: PolicyEntry, quote: Registers, from: nat): (r: nat)
    requires from <= REGISTERS
    ensures from <= r <= REGISTERS
    ensures forall k :: from <= k < r ==> RegisterMatches(e.lists[k], quote[k])
    ensures r < REGISTERS ==> !RegisterMatches(e.lists[r], quote[r])
    decreases REGISTERS - from
  {
    if from == REGISTERS || !RegisterMatches(e.lists[from], quote[from]) then from
    else FirstMismatch(e, quote, from + 1)
  }

  /** What an enforced policy answers. */
  function Enforced(p: AttestationPolicy, tcb: Option<string>, quote: Registers): Result<Role, Refusal> {
    if tcb.None? then Err(NoTcbStatus)
    else if !TcbAllowed(p.tcbStatuses, tcb.value) then Err(TcbRejected)
    else
      var first := FirstMatch(p.entries, quote);
      if first.Some? then Ok(p.entries[first.value].role)
      else if p.entries == [] then Err(NothingToMatch)
      else
        var closest := FirstMax(Scores(p.entries, quote));
        Err(Mismatch(closest, FirstMismatch(p.entries[closest], quote, 0)))
  }

  lemma FirstMatchIsEnforced(p: AttestationPolicy, tcb: Option<string>, quote: Registers, k: nat)
    requires tcb.Some? && TcbAllowed(p.tcbStatuses, tcb.value)
    requires k < |p.entries| && Matches(p.entries[k], quote)
    requires forall i :: 0 <= i < k ==> !Matches(p.entries[i], quote)
    ensures Enforced(p, tcb, quote) == Ok(p.entries[k].role)
  {
    hide Matches;
    assert FirstMatch(p.entries, quote) == Some(k);
  }

  lemma NothingMatchesIsRefused(p: AttestationPolicy, tcb: Option<string>, quote: Registers, closest: Refusal)
    requires tcb.Some? && TcbAllowed(p.tcbStatuses, tcb.value)
    requires forall i :: 0 <= i < |p.entries| ==> !Matches(p.entries[i], quote)
    requires if p.entries == [] then closest == NothingToMatch else IsClosest(p.entries, quote, closest)
    ensures Enforced(p, tcb, quote) == Err(closest)
  {
    hide Matches, RegisterMatches, Scores, Score;
    assert FirstMatch(p.entries, quote).None?;
    if p.entries != [] {
      var k := FirstMax(Scores(p.entries, quote));
      assert k == closest.entry;
      var r := FirstMismatch(p.entries[k], quote, 0);
      assert r == closest.register;
    }
  }

  /** A quote matches an entry when each of its five registers, trimmed, without `0x` and in lower case, is in that entry's list for it. */
  lemma MatchesIff(e: PolicyEntry, quote: Registers)
    ensures Matches(e, quote) <==> forall r :: 0 <= r < 5 ==> Lower(Strip0x(Trim(quote[r]))) in e.lists[r]
  {
    hide Lower, Strip0x, Trim, RegisterMatches;
    forall r | 0 <= r < 5 ensures RegisterMatches(e.lists[r], quote[r]) <==> Lower(Strip0x(Trim(quote[r]))) in e.lists[r] {
      RegisterMatchesIff(e.lists[r], quote[r]);
    }
  }

  lemma RegisterMatchesIff(allowed: seq<string>, raw: string)
    ensures RegisterMatches(allowed, raw) <==> Lower(Strip0x(Trim(raw))) in allowed
  {
    hide Lower, Strip0x, Trim;
  }

  /** Each problem at startup is one the policy has. */
  lemma ProblemsAreReal(p: AttestationPolicy)
    requires Validate(p).Some? && forall i :: 0 <= i < |p.entries| ==> Parsed(p.entries[i])
    ensures match Validate(p).value
            case NoTcbStatuses => p.tcbStatuses == []
            case NoEntries => p.tcbStatuses != [] && p.entries == []
            case DuplicateRole(role) => exists i, j :: 0 <= i < j < |p.entries| && p.entries[i].role == p.entries[j].role == role
            case EntriesOverlap(i, j) =>
              i < j < |p.entries| && exists quote: Registers :: Matches(p.entries[i], quote) && Matches(p.entries[j], quote)
            case EmptyAllowlist(i, r) => i < |p.entries| && r < REGISTERS && p.entries[i].lists[r] == []
  {
    hide Overlap, Matches, Parsed;
    if p.tcbStatuses != [] && p.entries != [] {
      var index := FirstProblemAt(p.entries, 0);
      var problem := EntryProblem(p.entries, index).value;
      if problem.EntriesOverlap? {
        OverlapIsExact(p.entries[problem.earlier], p.entries[problem.later]);
      }
    }
  }

  lemma {:induction false} FirstProblemAt(entries: seq<PolicyEntry>, from: nat) returns (index: nat)
    requires from <= |entries| && FirstProblem(entries, from).Some?
    ensures index < |entries| && EntryProblem(entries, index) == FirstProblem(entries, from)
    decreases |entries| - from
  {
    hide EntryProblem;
    if EntryProblem(entries, from).Some? {
      index := from;
    } else {
      index := FirstProblemAt(entries, from + 1);
    }
  }

  /**
   Granted exactly when the TCB status is allowed and some single entry lists all five
   registers; a mismatch names the first entry with the most matching registers and its
   first register that failed.
   */
  lemma EnforcedIsExact(p: AttestationPolicy, tcb: Option<string>, quote: Registers)
    ensures var r := Enforced(p, tcb, quote);
            && (r.Ok? <==> tcb.Some? && Lower(tcb.value) in p.tcbStatuses
                           && exists i :: 0 <= i < |p.entries| && Matches(p.entries[i], quote))
            && (r.Ok? ==> exists i :: 0 <= i < |p.entries| && Matches(p.entries[i], quote) && p.entries[i].role == r.value)
            && (r.Err? ==>
                match r.error
                case NoTcbStatus => tcb.None?
                case TcbRejected => tcb.Some? && Lower(tcb.value) !in p.tcbStatuses
                case NothingToMatch => p.entries == []
                case Mismatch(_, _) => IsClosest(p.entries, quote, r.error))
  {
    hide Matches, Lower, Scores, Score;
    if tcb.Some? && TcbAllowed(p.tcbStatuses, tcb.value) {
      var first := FirstMatch(p.entries, quote);
      if first.Some? {
        FirstMatchIsEnforced(p, tcb, quote, first.value);
      } else if p.entries != [] {
        var closest := FirstMax(Scores(p.entries, quote));
        ClosestMisses(p.entries[closest], quote);
      }
    }
  }

  lemma ClosestMisses(e: PolicyEntry, quote: Registers)
    requires !Matches(e, quote)
    ensures IsFirstMismatch(e, quote, FirstMismatch(e, quote, 0))
  {
    hide RegisterMatches;
  }

  /**
   The order of a validated policy's entries does not matter: every permutation of them
   grants the same quotes the same role.
   */
  lemma EntryOrderDoesNotMatter(p: AttestationPolicy, shuffled: seq<PolicyEntry>, tcb: Option<string>, quote: Registers)
    requires p.enforced && Validate(p).None? && multiset(shuffled) == multiset(p.entries)
    ensures var q := p.(entries := shuffled);
            && (Enforced(p, tcb, quote).Ok? <==> Enforced(q, tcb, quote).Ok?)
            && (Enforced(p, tcb, quote).Ok? ==> Enforced(q, tcb, quote) == Enforced(p, tcb, quote))
  {
    hide Matches, Validate, FirstMax, FirstMismatch;
    var first, other := FirstMatch(p.entries, quote), FirstMatch(shuffled, quote);
    if first.Some? {
      var e := p.entries[first.value];
      assert e in multiset(p.entries) && e in multiset(shuffled);
      var i :| 0 <= i < |shuffled| && shuffled[i] == e;
      assert Matches(shuffled[i], quote);
    }
    if other.Some? {
      var e := shuffled[other.value];
      assert e in multiset(shuffled) && e in multiset(p.entries);
      var j :| 0 <= j < |p.entries| && p.entries[j] == e;
      assert Matches(p.entries[j], quote);
      NoQuoteMatchesTwoEntries(p, quote, first.value, j);
    }
  }

  /** A quote is released keys as the role of the one entry it matches: never both roles, whatever the order. */
  lemma GrantedRoleIsTheMatchedEntrys(p: AttestationPolicy, tcb: Option<string>, quote: Registers, i: nat)
    requires p.enforced && Validate(p).None? && i < |p.entries| && Matches(p.entries[i], quote)
    requires tcb.Some? && Lower(tcb.value) in p.tcbStatuses
    ensures Enforced(p, tcb, quote) == Ok(p.entries[i].role)
    ensures forall j :: 0 <= j < |p.entries| && p.entries[j].role != p.entries[i].role ==> !Matches(p.entries[j], quote)
  {
    hide Matches, Validate;
    var first := FirstMatch(p.entries, quote);
    NoQuoteMatchesTwoEntries(p, quote, first.value, i);
    forall j | 0 <= j < |p.entries| && Matches(p.entries[j], quote) ensures j == i {
      NoQuoteMatchesTwoEntries(p, quote, i, j);
    }
  }
}
