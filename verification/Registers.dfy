/**
 Registers from event logs: replaying a log (`replay` and `diff` in
 scripts/attestation/shared/tdx_event_log.py) and comparing it with what a build
 computes (`compute` and `compare` in scripts/attestation/shared/compute_rtmr.py).
 The hash is any function; nothing here needs more of SHA-384 than that.
 */
module Registers {
  import opened Outcomes
  import opened Text
  import opened EventLog

  type Hash = Bytes -> Bytes

  /** Every register starts at 48 zero bytes. */
  function Zeros(): Bytes {
    seq(48, _ => '\0')
  }

  /** The MR indices of RTMR0 to RTMR3. */
  const RTMRS: set<nat> := {1, 2, 3, 4}

  /** A register after some digests were extended into it, first to last. */
  function Extend(hash: Hash, start: Bytes, digests: seq<Bytes>): Bytes {
    if digests == [] then start
    else hash(Extend(hash, start, digests[..|digests| - 1]) + digests[|digests| - 1])
  }

  /** Whether an event is extended into register `mr`. */
  predicate Counts(e: Event, mr: nat) {
    e.mr == mr && e.kind != NO_ACTION
  }

  /** A register's own events, in the log's order. */
  function Own(events: seq<Event>, mr: nat): seq<Event> {
    if events == [] then []
    else
      var before, last := Own(events[..|events| - 1], mr), events[|events| - 1];
      if Counts(last, mr) then before + [last] else before
  }

  function Digests(events: seq<Event>): (d: seq<Bytes>)
    ensures |d| == |events| && forall k :: 0 <= k < |d| ==> d[k] == events[k].digest
  {
    seq(|events|, k requires 0 <= k < |events| => events[k].digest)
  }

  /** The register a log replays to. */
  function RegisterOf(hash: Hash, events: seq<Event>, mr: nat): Bytes {
    Extend(hash, Zeros(), Digests(Own(events, mr)))
  }

  // ---- replay ----

  lemma OwnOneMore(hash: Hash, events: seq<Event>, k: nat, mr: nat)
    requires k < |events|
    ensures RegisterOf(hash, events[..k + 1], mr)
            == if Counts(events[k], mr) then hash(RegisterOf(hash, events[..k], mr) + events[k].digest)
               else RegisterOf(hash, events[..k], mr)
  {
    assert events[..k + 1][..k] == events[..k];
    var own := Own(events[..k], mr);
    if Counts(events[k], mr) {
      var d := Digests(own + [events[k]]);
      assert d[..|d| - 1] == Digests(own);
    }
  }

  method Replay(hash: Hash, events: seq<Event>) returns (registers: map<nat, Bytes>)
    ensures registers.Keys == {1, 2, 3, 4}
    ensures forall mr :: mr in registers ==> registers[mr] == RegisterOf(hash, events, mr)
  {
    hide RegisterOf;
    registers := map mr | mr in RTMRS :: Zeros();
    forall mr | mr in RTMRS ensures RegisterOf(hash, events[..0], mr) == Zeros() { NothingExtended(hash, events, mr); }
    for k := 0 to |events|
      invariant registers.Keys == RTMRS
      invariant forall mr :: mr in RTMRS ==> registers[mr] == RegisterOf(hash, events[..k], mr)
    {
      forall mr | mr in RTMRS
        ensures RegisterOf(hash, events[..k + 1], mr)
                == if Counts(events[k], mr) then hash(RegisterOf(hash, events[..k], mr) + events[k].digest)
                   else RegisterOf(hash, events[..k], mr)
      {
        OwnOneMore(hash, events, k, mr);
      }
      if events[k].kind == NO_ACTION || events[k].mr !in registers {
        continue;
      }
      registers := registers[events[k].mr := hash(registers[events[k].mr] + events[k].digest)];
    }
    assert events[..|events|] == events;
  }

  /** A register starts as 48 zero bytes; an event is extended into its own register, unless it is an EV_NO_ACTION. */
  lemma OneEventAtATime(hash: Hash, events: seq<Event>, e: Event, mr: nat)
    ensures |RegisterOf(hash, [], mr)| == 48 && forall k :: 0 <= k < 48 ==> RegisterOf(hash, [], mr)[k] == '\0'
    ensures e.mr == mr && e.kind != 0x00000003 ==>
              RegisterOf(hash, events + [e], mr) == hash(RegisterOf(hash, events, mr) + e.digest)
    ensures e.mr != mr || e.kind == 0x00000003 ==> RegisterOf(hash, events + [e], mr) == RegisterOf(hash, events, mr)
  {
    var all := events + [e];
    assert all[..|events| + 1] == all && all[..|events|] == events;
    OwnOneMore(hash, all, |events|, mr);
  }

  lemma NothingExtended(hash: Hash, events: seq<Event>, mr: nat)
    ensures RegisterOf(hash, events[..0], mr) == Zeros()
  {
  }

  lemma {:induction false} OwnOfParts(a: seq<Event>, b: seq<Event>, mr: nat)
    ensures Own(a + b, mr) == Own(a, mr) + Own(b, mr)
    decreases |b|
  {
    if b == [] {
      assert a + b == a;
    } else {
      assert (a + b)[..|a + b| - 1] == a + b[..|b| - 1];
      OwnOfParts(a, b[..|b| - 1], mr);
    }
  }

  lemma {:induction false} OwnTwice(events: seq<Event>, mr: nat)
    ensures Own(Own(events, mr), mr) == Own(events, mr)
    ensures forall e :: e in Own(events, mr) <==> e in events && Counts(e, mr)
  {
    if events != [] {
      var front, last := events[..|events| - 1], events[|events| - 1];
      OwnTwice(front, mr);
      if Counts(last, mr) {
        var own := Own(front, mr);
        assert (own + [last])[..|own|] == own;
      }
      forall e
        ensures e in Own(events, mr) <==> e in events && Counts(e, mr)
      {
        assert e in events <==> e in front || e == last;
      }
    }
  }

  /** Replay depends on each register's own events alone: dropping all the others changes nothing. */
  lemma OnlyOwnEventsMatter(hash: Hash, events: seq<Event>, others: seq<Event>, mr: nat)
    requires Own(events, mr) == Own(others, mr)
    ensures RegisterOf(hash, events, mr) == RegisterOf(hash, others, mr) == RegisterOf(hash, Own(events, mr), mr)
  {
    OwnTwice(events, mr);
  }

  /** Events of different registers may be logged in either order. */
  lemma OrderAcrossRegistersDoesNotMatter(hash: Hash, before: seq<Event>, x: Event, y: Event, after: seq<Event>, mr: nat)
    requires x.mr != y.mr
    ensures RegisterOf(hash, (before + [x, y]) + after, mr) == RegisterOf(hash, (before + [y, x]) + after, mr)
  {
    OwnOfParts(before + [x, y], after, mr);
    OwnOfParts(before + [y, x], after, mr);
    OwnOfParts(before, [x, y], mr);
    OwnOfParts(before, [y, x], mr);
    OwnOfParts([x], [y], mr);
    OwnOfParts([y], [x], mr);
    assert [x] + [y] == [x, y] && [y] + [x] == [y, x];
    assert [x][..0] == [] && [y][..0] == [];
  }

  /** A hash that loses nothing, to tell logs apart with: it says where its input ends. */
  function Lossless(s: Bytes): (r: Bytes)
    ensures r != [] && r[0] != '\0'
  {
    if s == [] then "0" else ['1', s[0]] + Lossless(s[1..])
  }

  lemma {:induction false} LosslessPrefix(s: Bytes, t: Bytes, x: Bytes, y: Bytes)
    requires Lossless(s) + x == Lossless(t) + y
    ensures s == t && x == y
    decreases |s|
  {
    var (p, q) := (Lossless(s) + x, Lossless(t) + y);
    assert p[0] == Lossless(s)[0] && q[0] == Lossless(t)[0];
    if s == [] {
      SameParts("0", x, "0", y);
    } else {
      var (f, g) := (['1', s[0]], ['1', t[0]]);
      assert p == f + (Lossless(s[1..]) + x) && q == g + (Lossless(t[1..]) + y);
      SameParts(f, Lossless(s[1..]) + x, g, Lossless(t[1..]) + y);
      LosslessPrefix(s[1..], t[1..], x, y);
      assert s == [s[0]] + s[1..] && t == [t[0]] + t[1..] && f[1] == g[1];
    }
  }

  lemma LastDigest(d: seq<Bytes>)
    requires d != []
    ensures Extend(Lossless, Zeros(), d) == Lossless(Extend(Lossless, Zeros(), d[..|d| - 1]) + d[|d| - 1])
  {
  }

  /** A register either starts as zeros or is a lossless hash, which starts otherwise and tells its end. */
  lemma RegisterThenDigest(d: seq<Bytes>, d': seq<Bytes>, x: Bytes, y: Bytes)
    requires Extend(Lossless, Zeros(), d) + x == Extend(Lossless, Zeros(), d') + y
    ensures Extend(Lossless, Zeros(), d) == Extend(Lossless, Zeros(), d') && x == y && (d == [] <==> d' == [])
  {
    var (r, r') := (Extend(Lossless, Zeros(), d), Extend(Lossless, Zeros(), d'));
    assert (r + x)[0] == r[0] && (r' + y)[0] == r'[0] by { RegisterIsNotEmpty(d); RegisterIsNotEmpty(d'); }
    RegisterIsNotEmpty(d);
    RegisterIsNotEmpty(d');
    if d == [] {
      SameParts(r, x, r', y);
    } else {
      LastDigest(d);
      LastDigest(d');
      LosslessPrefix(Extend(Lossless, Zeros(), d[..|d| - 1]) + d[|d| - 1], Extend(Lossless, Zeros(), d'[..|d'| - 1]) + d'[|d'| - 1], x, y);
    }
  }

  lemma RegisterIsNotEmpty(d: seq<Bytes>)
    ensures var r := Extend(Lossless, Zeros(), d); r != [] && (d == [] <==> r[0] == '\0') && (d == [] ==> r == Zeros())
  {
    if d != [] {
      LastDigest(d);
      hide Extend;
    }
  }

  lemma {:induction false} LosslessExtend(d: seq<Bytes>, d': seq<Bytes>)
    requires Extend(Lossless, Zeros(), d) == Extend(Lossless, Zeros(), d')
    ensures d == d'
  {
    RegisterIsNotEmpty(d);
    RegisterIsNotEmpty(d');
    hide Extend, Lossless;
    if d != [] {
      var (front, front') := (d[..|d| - 1], d'[..|d'| - 1]);
      SameLastDigest(d, d');
      LosslessExtend(front, front');
      assert d == front + [d[|d| - 1]] && d' == front' + [d'[|d'| - 1]];
    }
  }

  lemma SameLastDigest(d: seq<Bytes>, d': seq<Bytes>)
    requires d != [] && d' != [] && Extend(Lossless, Zeros(), d) == Extend(Lossless, Zeros(), d')
    ensures Extend(Lossless, Zeros(), d[..|d| - 1]) == Extend(Lossless, Zeros(), d'[..|d'| - 1])
    ensures d[|d| - 1] == d'[|d'| - 1]
  {
    var (front, last, front', last') := (d[..|d| - 1], d[|d| - 1], d'[..|d'| - 1], d'[|d'| - 1]);
    LastDigest(d);
    LastDigest(d');
    hide Extend, Lossless;
    LosslessPrefix(Extend(Lossless, Zeros(), front) + last, Extend(Lossless, Zeros(), front') + last', [], []);
    RegisterThenDigest(front, front', last, last');
  }

  /** Two logs replay to the same register under every hash exactly when their own events of it have the same digests. */
  lemma ReplaysAgreeIffOwnDigestsDo(a: seq<Event>, b: seq<Event>, mr: nat)
    ensures (forall hash: Hash :: RegisterOf(hash, a, mr) == RegisterOf(hash, b, mr)) <==> Digests(Own(a, mr)) == Digests(Own(b, mr))
  {
    if forall hash: Hash :: RegisterOf(hash, a, mr) == RegisterOf(hash, b, mr) {
      assert RegisterOf(Lossless, a, mr) == RegisterOf(Lossless, b, mr);
      LosslessExtend(Digests(Own(a, mr)), Digests(Own(b, mr)));
    }
  }

  // ---- a build's registers against a TD's ----

  /** What a build computes: each register's digests and value. RTMR3 only with a role and a profile. */
  datatype Computed = Computed(
    rtmr1: seq<Bytes>, register1: Bytes,
    rtmr2: seq<Bytes>, register2: Bytes,
    rtmr3: Option<seq<Bytes>>, register3: Option<Bytes>)

  /** A quote's RTMR1, RTMR2 and RTMR3. */
  datatype Quoted = Quoted(rtmr1: Bytes, rtmr2: Bytes, rtmr3: Bytes)

  method ExtendAll(hash: Hash, digests: seq<Bytes>) returns (value: Bytes)
    ensures value == Extend(hash, Zeros(), digests)
  {
    value := Zeros();
    for k := 0 to |digests|
      invariant value == Extend(hash, Zeros(), digests[..k])
    {
      assert digests[..k + 1][..k] == digests[..k];
      value := hash(value + digests[k]);
    }
    assert digests[..|digests|] == digests;
  }

  method Compute(hash: Hash, rtmr1: seq<Bytes>, rtmr2: seq<Bytes>, rtmr3: Option<seq<Bytes>>) returns (c: Computed)
    ensures c.rtmr1 == rtmr1 && c.rtmr2 == rtmr2 && c.rtmr3 == rtmr3
    ensures IsComputed(hash, c)
  {
    var register1 := ExtendAll(hash, rtmr1);
    var register2 := ExtendAll(hash, rtmr2);
    var register3: Option<Bytes> := None;
    if rtmr3.Some? {
      var value := ExtendAll(hash, rtmr3.value);
      register3 := Some(value);
    }
    c := Computed(rtmr1, register1, rtmr2, register2, rtmr3, register3);
  }

  predicate IsComputed(hash: Hash, c: Computed) {
    && c.register1 == Extend(hash, Zeros(), c.rtmr1)
    && c.register2 == Extend(hash, Zeros(), c.rtmr2)
    && c.register3 == if c.rtmr3.Some? then Some(Extend(hash, Zeros(), c.rtmr3.value)) else None
  }

  method Select(events: seq<Event>, mr: nat) returns (own: seq<Event>)
    ensures own == Own(events, mr)
  {
    own := [];
    for k := 0 to |events|
      invariant own == Own(events[..k], mr)
    {
      assert events[..k + 1][..k] == events[..k];
      if events[k].mr == mr && events[k].kind != NO_ACTION {
        own := own + [events[k]];
      }
    }
    assert events[..|events|] == events;
  }

  predicate SameDigest(expected: seq<Bytes>, measured: seq<Event>, k: nat) {
    k < |expected| && k < |measured| && expected[k] == measured[k].digest
  }

  /** Event by event, as far as the longer list goes. */
  method SameEvents(expected: seq<Bytes>, measured: seq<Event>) returns (ok: bool)
    ensures ok <==> expected == Digests(measured)
  {
    ok := true;
    var n := if |expected| >= |measured| then |expected| else |measured|;
    for i := 0 to n
      invariant ok <==> forall k :: 0 <= k < i ==> SameDigest(expected, measured, k)
    {
      var same := i < |expected| && i < |measured| && expected[i] == measured[i].digest;
      assert same <==> SameDigest(expected, measured, i);
      ok := ok && same;
    }
    if |expected| != |measured| {
      assert !SameDigest(expected, measured, n - 1);
    }
    if |expected| == |measured| && forall k :: 0 <= k < n ==> SameDigest(expected, measured, k) {
      forall k | 0 <= k < n ensures expected[k] == Digests(measured)[k] {
        assert SameDigest(expected, measured, k);
      }
      assert expected == Digests(measured);
    }
    if expected == Digests(measured) {
      assert forall k :: 0 <= k < n ==> SameDigest(expected, measured, k);
    }
  }

  /** Without a log, only the registers are compared. */
  method Compare(c: Computed, log: Option<seq<Event>>, quoted: Quoted) returns (ok: bool)
    ensures ok <==>
              && c.register1 == quoted.rtmr1 && c.register2 == quoted.rtmr2
              && (c.register3.Some? ==> c.register3.value == quoted.rtmr3)
              && (log.Some? ==> c.rtmr1 == Digests(Own(log.value, 2)) && c.rtmr2 == Digests(Own(log.value, 3)))
  {
    ok := c.register1 == quoted.rtmr1;
    ok := ok && c.register2 == quoted.rtmr2;
    if c.register3.Some? {
      ok := ok && c.register3.value == quoted.rtmr3;
    }
    if log.None? {
      return;
    }
    var measured1 := Select(log.value, 2);
    var same1 := SameEvents(c.rtmr1, measured1);
    var measured2 := Select(log.value, 3);
    var same2 := SameEvents(c.rtmr2, measured2);
    ok := ok && same1 && same2;
  }

  /** A comparison that passes: the build's registers, the replayed ones and the quote's are the same. */
  lemma PassedComparison(hash: Hash, c: Computed, log: seq<Event>, quoted: Quoted)
    requires IsComputed(hash, c)
    requires c.rtmr1 == Digests(Own(log, 2)) && c.rtmr2 == Digests(Own(log, 3))
    ensures c.register1 == RegisterOf(hash, log, 2) && c.register2 == RegisterOf(hash, log, 3)
  {
  }

  /** End to end: a build compared with the log a TD printed, whatever follows it in the table. */
  method CompareWithTable(hash: Hash, rtmr1: seq<Bytes>, rtmr2: seq<Bytes>, log: Log, padding: Bytes, quoted: Quoted)
      returns (ok: bool)
    requires WellFormed(log) && Padding(padding)
    ensures ok ==> quoted.rtmr1 == RegisterOf(hash, EventsOf(log.records, 0), 2)
                   && quoted.rtmr2 == RegisterOf(hash, EventsOf(log.records, 0), 3)
  {
    hide WellFormed, Padding, RegisterOf, Own, Extend;
    ParseRecoversEveryEvent(log, padding);
    var events := Parse(Print(log) + padding);
    var c := Compute(hash, rtmr1, rtmr2, None);
    ok := Compare(c, Some(events.value), quoted);
    if ok {
      PassedComparison(hash, c, events.value, quoted);
    }
  }

  // ---- two logs ----

  function Selected(events: seq<Event>, wanted: Option<nat>): seq<Event> {
    if events == [] then []
    else
      var before, last := Selected(events[..|events| - 1], wanted), events[|events| - 1];
      if wanted.None? || last.mr == wanted.value then before + [last] else before
  }

  predicate SameAt(a: seq<Event>, b: seq<Event>, k: nat) {
    k < |a| && k < |b| && a[k].digest == b[k].digest && a[k].kind == b[k].kind
  }

  /** The positions below `n` at which the lists differ, one being too short included. */
  ghost function DifferingBelow(a: seq<Event>, b: seq<Event>, n: nat): set<nat> {
    set k: nat | k < n && !SameAt(a, b, k)
  }

  ghost function Differing(a: seq<Event>, b: seq<Event>): set<nat> {
    DifferingBelow(a, b, if |a| >= |b| then |a| else |b|)
  }

  method SelectWanted(events: seq<Event>, wanted: Option<nat>) returns (own: seq<Event>)
    ensures own == Selected(events, wanted)
  {
    own := [];
    for k := 0 to |events|
      invariant own == Selected(events[..k], wanted)
    {
      assert events[..k + 1][..k] == events[..k];
      if wanted.None? || events[k].mr == wanted.value {
        own := own + [events[k]];
      }
    }
    assert events[..|events|] == events;
  }

  /** How many positions of the selected events differ. */
  method Diff(a: seq<Event>, b: seq<Event>, wanted: Option<nat>) returns (differing: nat)
    ensures differing == |Differing(Selected(a, wanted), Selected(b, wanted))|
    ensures differing == 0 <==> Alike(Selected(a, wanted), Selected(b, wanted))
  {
    var left := SelectWanted(a, wanted);
    var right := SelectWanted(b, wanted);
    differing := 0;
    var n := if |left| >= |right| then |left| else |right|;
    for k := 0 to n
      invariant differing == 0 <==> forall i :: 0 <= i < k ==> SameAt(left, right, i)
      invariant differing == |DifferingBelow(left, right, k)|
    {
      assert DifferingBelow(left, right, k + 1)
             == if SameAt(left, right, k) then DifferingBelow(left, right, k) else DifferingBelow(left, right, k) + {k};
      if k < |left| && k < |right| && left[k].digest == right[k].digest && left[k].kind == right[k].kind {
        assert SameAt(left, right, k);
        continue;
      }
      assert !SameAt(left, right, k);
      differing := differing + 1;
    }
    if |left| != |right| {
      assert !SameAt(left, right, n - 1);
    }
  }

  /** As many events, with the same digests and types. Which register each went to is not asked. */
  predicate Alike(a: seq<Event>, b: seq<Event>) {
    |a| == |b| && forall k :: 0 <= k < |a| ==> SameAt(a, b, k)
  }

  lemma {:induction false} OwnOfSelected(events: seq<Event>, mr: nat)
    ensures Own(events, mr) == Own(Selected(events, Some(mr)), mr)
    ensures forall k :: 0 <= k < |Selected(events, Some(mr))| ==> Selected(events, Some(mr))[k].mr == mr
  {
    if events != [] {
      var front, last := events[..|events| - 1], events[|events| - 1];
      OwnOfSelected(front, mr);
      var s := Selected(front, Some(mr));
      assert (s + [last])[..|s|] == s;
    }
  }

  lemma {:induction false} AlikeDigests(a: seq<Event>, b: seq<Event>, mr: nat)
    requires Alike(a, b)
    requires forall k :: 0 <= k < |a| ==> a[k].mr == b[k].mr
    ensures Digests(Own(a, mr)) == Digests(Own(b, mr))
  {
    if a != [] {
      var (p, q) := (a[..|a| - 1], b[..|b| - 1]);
      forall k | 0 <= k < |p| ensures SameAt(p, q, k) && p[k].mr == q[k].mr {
        assert SameAt(a, b, k);
      }
      AlikeDigests(p, q, mr);
      assert SameAt(a, b, |a| - 1);
      var (x, y) := (a[|a| - 1], b[|b| - 1]);
      assert Digests(Own(p, mr) + [x]) == Digests(Own(p, mr)) + [x.digest];
      assert Digests(Own(q, mr) + [y]) == Digests(Own(q, mr)) + [y.digest];
    }
  }

  /** Two logs without a difference in one register replay to the same value of it. */
  lemma NoDifferenceInARegister(hash: Hash, a: seq<Event>, b: seq<Event>, mr: nat)
    requires Alike(Selected(a, Some(mr)), Selected(b, Some(mr)))
    ensures RegisterOf(hash, a, mr) == RegisterOf(hash, b, mr)
  {
    OwnOfSelected(a, mr);
    OwnOfSelected(b, mr);
    AlikeDigests(Selected(a, Some(mr)), Selected(b, Some(mr)), mr);
  }

  lemma {:induction false} AllAreSelected(events: seq<Event>)
    ensures Selected(events, None) == events
  {
    if events != [] {
      AllAreSelected(events[..|events| - 1]);
    }
  }

  /**
   Compared over all registers at once, events that also went to the same registers, one
   by one, are enough.
   */
  lemma NoDifferenceAtAll(hash: Hash, a: seq<Event>, b: seq<Event>, mr: nat)
    requires Alike(Selected(a, None), Selected(b, None))
    requires forall k :: 0 <= k < |a| && k < |b| ==> a[k].mr == b[k].mr
    ensures RegisterOf(hash, a, mr) == RegisterOf(hash, b, mr)
  {
    AllAreSelected(a);
    AllAreSelected(b);
    AlikeDigests(a, b, mr);
  }

  ghost predicate ReplayAlike(a: seq<Event>, b: seq<Event>) {
    forall hash: Hash, mr :: mr in RTMRS ==> RegisterOf(hash, a, mr) == RegisterOf(hash, b, mr)
  }

  predicate SameOwnDigests(a: seq<Event>, b: seq<Event>) {
    forall mr :: mr in RTMRS ==> Digests(Own(a, mr)) == Digests(Own(b, mr))
  }

  /**
   The exact condition: logs without a difference over all registers replay alike, every
   register and under every hash, if and only if each register's own digests are the same
   in both. (That holds of any two logs; the lack of a difference adds nothing to it.)
   */
  lemma NoDifferenceReplaysAlikeIff(a: seq<Event>, b: seq<Event>)
    requires Alike(Selected(a, None), Selected(b, None))
    ensures ReplayAlike(a, b) <==> SameOwnDigests(a, b)
  {
    hide RegisterOf;
    forall mr | mr in RTMRS
      ensures (forall hash: Hash :: RegisterOf(hash, a, mr) == RegisterOf(hash, b, mr)) <==> Digests(Own(a, mr)) == Digests(Own(b, mr))
    {
      ReplaysAgreeIffOwnDigestsDo(a, b, mr);
    }
  }

  /** Agreeing one by one is not needed: two events of one digest may change places. */
  lemma SwappedRegistersReplayAlike(digest: Bytes)
    ensures var (x, y) := (Event(0, 1, 4, digest, []), Event(0, 2, 4, digest, []));
            Alike(Selected([x, y], None), Selected([y, x], None)) && ReplayAlike([x, y], [y, x]) && x.mr != y.mr
  {
    var (x, y) := (Event(0, 1, 4, digest, []), Event(0, 2, 4, digest, []));
    AllAreSelected([x, y]);
    AllAreSelected([y, x]);
    forall hash: Hash, mr | mr in RTMRS ensures RegisterOf(hash, [x, y], mr) == RegisterOf(hash, [y, x], mr) {
      OrderAcrossRegistersDoesNotMatter(hash, [], x, y, [], mr);
      assert ([] + [x, y]) + [] == [x, y] && ([] + [y, x]) + [] == [y, x];
    }
  }

  lemma OwnOfOne(e: Event, mr: nat)
    ensures Own([e], mr) == if Counts(e, mr) then [e] else []
  {
    assert [e][..0] == [];
  }

  /** Otherwise two logs can show no difference and still replay to different registers. */
  lemma NoDifferenceDespiteTheRegisters(hash: Hash, digest: Bytes)
    requires hash(Zeros() + digest) != Zeros()
    ensures var (a, b) := ([Event(0, 1, 4, digest, [])], [Event(0, 2, 4, digest, [])]);
            Alike(Selected(a, None), Selected(b, None)) && RegisterOf(hash, a, 1) != RegisterOf(hash, b, 1)
  {
    var (a, b) := ([Event(0, 1, 4, digest, [])], [Event(0, 2, 4, digest, [])]);
    AllAreSelected(a);
    AllAreSelected(b);
    assert a[..0] == [] && b[..0] == [];
    OwnOfOne(a[0], 1);
    OwnOfOne(b[0], 1);
    var d := Digests(a);
    assert d == [digest] && d[..0] == [];
  }
}
