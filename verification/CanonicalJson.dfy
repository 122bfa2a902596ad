/**
 The canonical JSON printer (`canonicalJson` and `kmsEvidenceBinding` in
 attestation-verifier/api/verify.js; section 3.2 of RFC 8785): object keys sorted by
 UTF-16 code units at every depth, strings escaped as ECMAScript does. Two values print
 to the same text exactly when they are equal up to the order of object keys.
 */
module CanonicalJson {
  import opened Sorting

  /** A UTF-16 code unit. */
  type Unit = x: int | 0 <= x < 0x10000
  type Units = seq<Unit>

  /**
   A parsed JSON value; an object keeps its members in the order they were written. A
   number is its ECMAScript text, which is one to one with its value.
   */
  datatype Json =
    | Null
    | Bool(value: bool)
    | Number(text: Units)
    | Text(units: Units)
    | Array(items: Items)
    | Object(members: Members)
  datatype Items = End | Item(first: Json, rest: Items)
  datatype Members = NoMore | Member(key: Units, value: Json, more: Members)

  const QUOTE: Unit := 0x22
  const BACKSLASH: Unit := 0x5C
  const COMMA: Unit := 0x2C
  const COLON: Unit := 0x3A
  const OPEN_ARRAY: Unit := 0x5B
  const CLOSE_ARRAY: Unit := 0x5D
  const OPEN_OBJECT: Unit := 0x7B
  const CLOSE_OBJECT: Unit := 0x7D

  // ---- strings ----

  function HexUnit(d: nat): Unit
    requires d < 16
  {
    if d < 10 then 0x30 + d else 0x61 + d - 10
  }

  predicate IsHigh(u: Unit) {
    0xD800 <= u <= 0xDBFF
  }

  predicate IsLow(u: Unit) {
    0xDC00 <= u <= 0xDFFF
  }

  /** The second unit of a short escape, or 0 for none. */
  function ShortEscape(u: Unit): Unit {
    if u == QUOTE then QUOTE
    else if u == BACKSLASH then BACKSLASH
    else if u == 0x08 then 0x62
    else if u == 0x09 then 0x74
    else if u == 0x0A then 0x6E
    else if u == 0x0C then 0x66
    else if u == 0x0D then 0x72
    else 0
  }

  /** One unit on its own: short escapes, `\uXXXX` for other controls and lone surrogates, else itself. */
  function Escape(u: Unit): (r: Units)
    ensures r != [] && r[0] != QUOTE
  {
    if ShortEscape(u) != 0 then [BACKSLASH, ShortEscape(u)]
    else if u < 0x20 || IsHigh(u) || IsLow(u) then
      [BACKSLASH, 0x75, HexUnit(u / 0x1000), HexUnit(u / 0x100 % 16), HexUnit(u / 0x10 % 16), HexUnit(u % 16)]
    else [u]
  }

  predicate StartsWithPair(s: Units) {
    |s| >= 2 && IsHigh(s[0]) && IsLow(s[1])
  }

  /** How many units the first step takes: a surrogate pair is kept together. */
  function Taken(s: Units): (n: nat)
    requires s != []
    ensures 1 <= n <= |s|
  {
    if StartsWithPair(s) then 2 else 1
  }

  function Emit(s: Units): (r: Units)
    requires s != []
    ensures r != [] && r[0] != QUOTE
  {
    if StartsWithPair(s) then s[..2] else Escape(s[0])
  }

  function Body(s: Units): Units
    decreases |s|
  {
    if s == [] then [] else Emit(s) + Body(s[Taken(s)..])
  }

  function Quoted(s: Units): (r: Units)
    ensures r != [] && r[0] == QUOTE
  {
    ([QUOTE] + Body(s)) + [QUOTE]
  }

  // ---- object keys ----

  /** Order by code units. */
  predicate KeyLe(a: Units, b: Units) {
    a == [] || (b != [] && (a[0] < b[0] || (a[0] == b[0] && KeyLe(a[1..], b[1..]))))
  }

  /** A member as printed: its key and its value's text. */
  datatype Pair = Pair(key: Units, text: Units)

  predicate PairLe(p: Pair, q: Pair) {
    KeyLe(p.key, q.key)
  }

  // ---- printing ----

  const NULL: Units := [0x6E, 0x75, 0x6C, 0x6C]

  function Literal(b: bool): Units {
    if b then [0x74, 0x72, 0x75, 0x65] else [0x66, 0x61, 0x6C, 0x73, 0x65]
  }

  function Canonical(v: Json): Units
    decreases v
  {
    match v
    case Null => NULL
    case Bool(b) => Literal(b)
    case Number(text) => text
    case Text(units) => Quoted(units)
    case Array(items) => ([OPEN_ARRAY] + PrintItems(items)) + [CLOSE_ARRAY]
    case Object(members) => ([OPEN_OBJECT] + Join(Sort(Pairs(members), PairLe))) + [CLOSE_OBJECT]
  }

  function PrintItems(items: Items): Units
    decreases items
  {
    match items
    case End => []
    case Item(first, rest) => if rest.End? then Canonical(first) else Canonical(first) + ([COMMA] + PrintItems(rest))
  }

  function Pairs(members: Members): seq<Pair>
    decreases members
  {
    match members
    case NoMore => []
    case Member(key, value, more) => [Pair(key, Canonical(value))] + Pairs(more)
  }

  function PrintPair(p: Pair): (r: Units)
    ensures r != [] && r[0] == QUOTE
  {
    Quoted(p.key) + ([COLON] + p.text)
  }

  function Join(pairs: seq<Pair>): Units {
    if pairs == [] then []
    else if |pairs| == 1 then PrintPair(pairs[0])
    else PrintPair(pairs[0]) + ([COMMA] + Join(pairs[1..]))
  }

  // ---- equality up to key order ----

  predicate Has(members: Members, key: Units) {
    members.Member? && (members.key == key || Has(members.more, key))
  }

  function Lookup(members: Members, key: Units): Json
    requires Has(members, key)
  {
    if members.key == key then members.value else Lookup(members.more, key)
  }

  predicate Same(a: Json, b: Json)
    decreases a
  {
    match a
    case Null => b.Null?
    case Bool(x) => b == a
    case Number(x) => b == a
    case Text(x) => b == a
    case Array(items) => b.Array? && SameItems(items, b.items)
    case Object(members) => b.Object? && SameMembers(members, b.members) && Within(b.members, members)
  }

  predicate SameItems(a: Items, b: Items)
    decreases a
  {
    match a
    case End => b.End?
    case Item(first, rest) => b.Item? && Same(first, b.first) && SameItems(rest, b.rest)
  }

  /** Every member of `a` is a member of `b`, with the same value. */
  predicate SameMembers(a: Members, b: Members)
    decreases a
  {
    a.NoMore? || (Has(b, a.key) && Same(a.value, Lookup(b, a.key)) && SameMembers(a.more, b))
  }

  /** Every key of `a` is a key of `b`. */
  predicate Within(a: Members, b: Members) {
    a.NoMore? || (Has(b, a.key) && Within(a.more, b))
  }

  predicate NumberUnit(u: Unit) {
    0x30 <= u <= 0x39 || u == 0x2B || u == 0x2D || u == 0x2E || u == 0x65
  }

  /** Values a JSON parser yields: an object has each key once, a number's text is made of digits, signs, a point and an `e`. */
  predicate Valid(v: Json)
    decreases v
  {
    match v
    case Null => true
    case Bool(_) => true
    case Number(text) => text != [] && (0x30 <= text[0] <= 0x39 || text[0] == 0x2D) && forall k :: 0 <= k < |text| ==> NumberUnit(text[k])
    case Text(_) => true
    case Array(items) => ValidItems(items)
    case Object(members) => ValidMembers(members)
  }

  predicate ValidItems(items: Items)
    decreases items
  {
    items.End? || (Valid(items.first) && ValidItems(items.rest))
  }

  predicate ValidMembers(members: Members)
    decreases members
  {
    members.NoMore? || (Valid(members.value) && !Has(members.more, members.key) && ValidMembers(members.more))
  }

  // ---- equal values print alike ----

  lemma {:induction false} KeyLeIsTotal(a: Units, b: Units)
    ensures KeyLe(a, b) || KeyLe(b, a)
  {
    if a != [] && b != [] && a[0] == b[0] {
      KeyLeIsTotal(a[1..], b[1..]);
    }
  }

  lemma {:induction false} KeyLeIsTransitive(a: Units, b: Units, c: Units)
    requires KeyLe(a, b) && KeyLe(b, c)
    ensures KeyLe(a, c)
  {
    if a != [] && a[0] == b[0] == c[0] {
      KeyLeIsTransitive(a[1..], b[1..], c[1..]);
    }
  }

  lemma {:induction false} KeyLeIsAntisymmetric(a: Units, b: Units)
    requires KeyLe(a, b) && KeyLe(b, a)
    ensures a == b
  {
    if a != [] && b != [] {
      KeyLeIsAntisymmetric(a[1..], b[1..]);
      assert a == [a[0]] + a[1..] && b == [b[0]] + b[1..];
    }
  }

  lemma PairLeIsAnOrder()
    ensures IsOrder(PairLe)
  {
    hide KeyLe;
    forall p: Pair, q: Pair ensures PairLe(p, q) || PairLe(q, p) {
      KeyLeIsTotal(p.key, q.key);
    }
    forall p: Pair, q: Pair, r: Pair | PairLe(p, q) && PairLe(q, r) ensures PairLe(p, r) {
      KeyLeIsTransitive(p.key, q.key, r.key);
    }
  }

  /** Members with different keys sort one way. */
  lemma SortOfSameMembers(a: seq<Pair>, b: seq<Pair>)
    requires multiset(a) == multiset(b) && forall p, q :: p in a && q in a && p.key == q.key ==> p == q
    ensures Sort(a, PairLe) == Sort(b, PairLe)
  {
    hide KeyLe, IsOrder;
    PairLeIsAnOrder();
    forall p, q | p in a && q in a && PairLe(p, q) && PairLe(q, p) ensures p == q {
      KeyLeIsAntisymmetric(p.key, q.key);
    }
    SortOfSameBag(a, b, PairLe);
  }

  /** A printed member is a member, printed. */
  lemma {:induction false} PairsAreMembers(ms: Members)
    requires ValidMembers(ms)
    ensures forall p :: p in Pairs(ms) <==> Has(ms, p.key) && p.text == Canonical(Lookup(ms, p.key))
    ensures forall p :: p in Pairs(ms) ==> multiset(Pairs(ms))[p] == 1
    decreases ms
  {
    if ms.Member? {
      PairsAreMembers(ms.more);
      var (first, rest) := (Pair(ms.key, Canonical(ms.value)), Pairs(ms.more));
      hide Canonical;
      assert Pairs(ms) == [first] + rest;
      forall p
        ensures p in Pairs(ms) <==> Has(ms, p.key) && p.text == Canonical(Lookup(ms, p.key))
        ensures p in Pairs(ms) ==> multiset(Pairs(ms))[p] == 1
      {
        assert p in Pairs(ms) <==> p == first || p in rest;
        if p == first {
          assert p !in rest;
        }
      }
    }
  }

  lemma SameBag(a: seq<Pair>, b: seq<Pair>)
    requires forall p :: p in a <==> p in b
    requires forall p :: p in a ==> multiset(a)[p] == 1
    requires forall p :: p in b ==> multiset(b)[p] == 1
    ensures multiset(a) == multiset(b)
  {
    forall p: Pair ensures multiset(a)[p] == multiset(b)[p] {
      if p in a {
      } else {
        assert p !in multiset(a) && p !in multiset(b);
      }
    }
  }

  lemma {:induction false} LookupIsValid(ms: Members, key: Units)
    requires ValidMembers(ms) && Has(ms, key)
    ensures Valid(Lookup(ms, key))
  {
    if ms.key != key {
      LookupIsValid(ms.more, key);
    }
  }

  lemma {:induction false} WithinMeansHas(a: Members, b: Members, key: Units)
    requires Within(a, b) && Has(a, key)
    ensures Has(b, key)
  {
    if a.key != key {
      WithinMeansHas(a.more, b, key);
    }
  }

  /** Every member of `a` prints as the member of `b` with its key. */
  lemma {:induction false} SameMembersPrintAlike(a: Members, b: Members, key: Units)
    requires ValidMembers(a) && ValidMembers(b) && SameMembers(a, b) && Has(a, key)
    ensures Has(b, key) && Canonical(Lookup(a, key)) == Canonical(Lookup(b, key))
    decreases a
  {
    if a.key == key {
      LookupIsValid(b, key);
      SamePrintAlike(a.value, Lookup(b, key));
    } else {
      hide Canonical;
      SameMembersPrintAlike(a.more, b, key);
    }
  }

  lemma {:induction false} SameItemsPrintAlike(a: Items, b: Items)
    requires ValidItems(a) && ValidItems(b) && SameItems(a, b)
    ensures PrintItems(a) == PrintItems(b)
    decreases a
  {
    if a.Item? {
      SamePrintAlike(a.first, b.first);
      SameItemsPrintAlike(a.rest, b.rest);
    }
  }

  /** Values equal up to key order print to the same text. */
  lemma {:induction false} SamePrintAlike(a: Json, b: Json)
    requires Valid(a) && Valid(b) && Same(a, b)
    ensures Canonical(a) == Canonical(b)
    decreases a
  {
    if a.Array? {
      SameItemsPrintAlike(a.items, b.items);
    } else if a.Object? {
      var (ms, ms') := (a.members, b.members);
      PairsAreMembers(ms);
      PairsAreMembers(ms');
      forall p ensures p in Pairs(ms) <==> p in Pairs(ms') {
        if Has(ms, p.key) {
          SameMembersPrintAlike(ms, ms', p.key);
        } else if Has(ms', p.key) {
          WithinMeansHas(ms', ms, p.key);
        }
      }
      SameBag(Pairs(ms), Pairs(ms'));
      SortOfSameMembers(Pairs(ms), Pairs(ms'));
    }
  }

  // ---- values that print alike are equal ----

  lemma HexUnitIsInjective(d: nat, e: nat)
    requires d < 16 && e < 16 && HexUnit(d) == HexUnit(e)
    ensures d == e
  {
  }

  lemma DigitsOf(u: Unit)
    ensures u == 0x1000 * (u / 0x1000) + 0x100 * (u / 0x100 % 16) + 0x10 * (u / 0x10 % 16) + u % 16
  {
    var (a, b) := (u / 16, u / 0x100);
    assert u == 16 * a + u % 16;
    assert a / 16 == b && a == 16 * b + a % 16;
    assert b / 16 == u / 0x1000 && b == 16 * (u / 0x1000) + b % 16;
  }

  lemma FourDigits(u: Unit, v: Unit)
    requires u / 0x1000 == v / 0x1000 && u / 0x100 % 16 == v / 0x100 % 16
    requires u / 0x10 % 16 == v / 0x10 % 16 && u % 16 == v % 16
    ensures u == v
  {
    DigitsOf(u);
    DigitsOf(v);
  }

  lemma EscapeIsInjective(u: Unit, v: Unit, x: Units, y: Units)
    requires Escape(u) + x == Escape(v) + y
    ensures u == v && x == y
  {
    var (s, t) := (Escape(u) + x, Escape(v) + y);
    assert s[0] == Escape(u)[0] && t[0] == Escape(v)[0];
    if |Escape(u)| >= 2 && |Escape(v)| >= 2 {
      assert s[1] == Escape(u)[1] && t[1] == Escape(v)[1];
      if |Escape(u)| == 6 && |Escape(v)| == 6 {
        LongEscapeIsInjective(u, v, x, y);
      }
    }
    assert |Escape(u)| == |Escape(v)|;
    SamePartsOf(Escape(u), x, Escape(v), y);
  }

  lemma LongEscapeIsInjective(u: Unit, v: Unit, x: Units, y: Units)
    requires |Escape(u)| == 6 && |Escape(v)| == 6 && Escape(u) + x == Escape(v) + y
    ensures u == v
  {
    var (s, t) := (Escape(u) + x, Escape(v) + y);
    assert s[2] == HexUnit(u / 0x1000) && t[2] == HexUnit(v / 0x1000);
    assert s[3] == HexUnit(u / 0x100 % 16) && t[3] == HexUnit(v / 0x100 % 16);
    assert s[4] == HexUnit(u / 0x10 % 16) && t[4] == HexUnit(v / 0x10 % 16);
    assert s[5] == HexUnit(u % 16) && t[5] == HexUnit(v % 16);
    HexUnitIsInjective(u / 0x1000, v / 0x1000);
    HexUnitIsInjective(u / 0x100 % 16, v / 0x100 % 16);
    HexUnitIsInjective(u / 0x10 % 16, v / 0x10 % 16);
    HexUnitIsInjective(u % 16, v % 16);
    FourDigits(u, v);
  }

  lemma SamePartsOf(a: Units, b: Units, c: Units, d: Units)
    requires a + b == c + d && |a| == |c|
    ensures a == c && b == d
  {
    assert a == (a + b)[..|a|] && c == (c + d)[..|c|];
    assert b == (a + b)[|a|..] && d == (c + d)[|c|..];
  }

  lemma PairIsNoEscape(s: Units, u: Unit, x: Units, y: Units)
    requires StartsWithPair(s)
    ensures s[..2] + x != Escape(u) + y
  {
    assert (s[..2] + x)[0] == s[0];
    assert (Escape(u) + y)[0] == Escape(u)[0];
  }

  lemma EmitIsInjective(s: Units, t: Units, x: Units, y: Units)
    requires s != [] && t != [] && Emit(s) + x == Emit(t) + y
    ensures Taken(s) == Taken(t) && s[..Taken(s)] == t[..Taken(t)] && x == y
  {
    hide Escape;
    if StartsWithPair(s) && StartsWithPair(t) {
      SamePartsOf(s[..2], x, t[..2], y);
    } else if StartsWithPair(s) {
      PairIsNoEscape(s, t[0], x, y);
    } else if StartsWithPair(t) {
      PairIsNoEscape(t, s[0], y, x);
    } else {
      EscapeIsInjective(s[0], t[0], x, y);
      assert s[..1] == [s[0]] && t[..1] == [t[0]];
    }
  }

  lemma {:induction false} BodyIsInjective(s: Units, t: Units, x: Units, y: Units)
    requires Body(s) + ([QUOTE] + x) == Body(t) + ([QUOTE] + y)
    ensures s == t && x == y
    decreases |s|
  {
    hide Emit, Taken;
    if s == [] || t == [] {
      BodyEnd(s, x);
      BodyEnd(t, y);
      SamePartsOf([QUOTE], x, [QUOTE], y);
    } else {
      var (s', t') := (s[Taken(s)..], t[Taken(t)..]);
      BodySteps(s, x);
      BodySteps(t, y);
      EmitIsInjective(s, t, Body(s') + ([QUOTE] + x), Body(t') + ([QUOTE] + y));
      BodyIsInjective(s', t', x, y);
      assert s == s[..Taken(s)] + s' && t == t[..Taken(t)] + t';
    }
  }

  lemma BodyEnd(s: Units, x: Units)
    ensures s == [] ==> Body(s) + ([QUOTE] + x) == [QUOTE] + x
    ensures s != [] ==> (Body(s) + ([QUOTE] + x))[0] != QUOTE
  {
    if s != [] {
      assert Body(s)[0] == Emit(s)[0];
    } else {
      assert [] + ([QUOTE] + x) == [QUOTE] + x;
    }
  }

  lemma BodySteps(s: Units, x: Units)
    requires s != []
    ensures Body(s) + ([QUOTE] + x) == Emit(s) + (Body(s[Taken(s)..]) + ([QUOTE] + x))
  {
    hide Emit, Taken;
    Regroup(Emit(s), Body(s[Taken(s)..]), [QUOTE] + x);
  }

  lemma Regroup(a: Units, b: Units, c: Units)
    ensures (a + b) + c == a + (b + c)
  {
  }

  /** A quoted string ends where it ends, whatever follows. */
  lemma QuotedIsInjective(s: Units, t: Units, x: Units, y: Units)
    requires Quoted(s) + x == Quoted(t) + y
    ensures s == t && x == y
  {
    hide Body;
    QuotedParts(s, x);
    QuotedParts(t, y);
    SamePartsOf([QUOTE], Body(s) + ([QUOTE] + x), [QUOTE], Body(t) + ([QUOTE] + y));
    BodyIsInjective(s, t, x, y);
  }

  lemma QuotedParts(s: Units, x: Units)
    ensures Quoted(s) + x == [QUOTE] + (Body(s) + ([QUOTE] + x))
  {
    hide Body;
    var b := Body(s);
    assert (([QUOTE] + b) + [QUOTE]) + x == [QUOTE] + (b + ([QUOTE] + x));
  }

  /** What may follow a value: nothing, a comma, or a closing bracket. */
  predicate Stops(x: Units) {
    x == [] || x[0] == COMMA || x[0] == CLOSE_ARRAY || x[0] == CLOSE_OBJECT
  }

  lemma NumberIsInjective(m: Units, n: Units, x: Units, y: Units)
    requires m + x == n + y && Stops(x) && Stops(y)
    requires forall k :: 0 <= k < |m| ==> NumberUnit(m[k])
    requires forall k :: 0 <= k < |n| ==> NumberUnit(n[k])
    ensures m == n && x == y
  {
    NumberIsNoLonger(m, n, x, y);
    NumberIsNoLonger(n, m, y, x);
    SamePartsOf(m, x, n, y);
  }

  lemma NumberIsNoLonger(m: Units, n: Units, x: Units, y: Units)
    requires m + x == n + y && Stops(y) && forall k :: 0 <= k < |m| ==> NumberUnit(m[k])
    ensures |m| <= |n|
  {
    assert forall k :: 0 <= k < |m| ==> (m + x)[k] == m[k];
    assert y != [] ==> (n + y)[|n|] == y[0];
    assert |m + x| == |n| + |y|;
  }

  /** A value's first unit shows its kind. */
  function KindOf(u: Unit): nat {
    if u == 0x6E then 0
    else if u == 0x74 || u == 0x66 then 1
    else if u == QUOTE then 3
    else if u == OPEN_ARRAY then 4
    else if u == OPEN_OBJECT then 5
    else if NumberUnit(u) then 2
    else 6
  }

  function Kind(v: Json): nat {
    match v
    case Null => 0
    case Bool(_) => 1
    case Number(_) => 2
    case Text(_) => 3
    case Array(_) => 4
    case Object(_) => 5
  }

  lemma FirstUnit(v: Json)
    requires Valid(v)
    ensures Canonical(v) != [] && KindOf(Canonical(v)[0]) == Kind(v) && !Stops(Canonical(v))
  {
  }

  lemma SameKind(a: Json, b: Json, x: Units, y: Units)
    requires Valid(a) && Valid(b) && Canonical(a) + x == Canonical(b) + y
    ensures Kind(a) == Kind(b)
  {
    hide Canonical, Valid;
    FirstUnit(a);
    FirstUnit(b);
    assert (Canonical(a) + x)[0] == Canonical(a)[0] && (Canonical(b) + y)[0] == Canonical(b)[0];
  }

  lemma LiteralIsInjective(p: bool, q: bool, x: Units, y: Units)
    requires Literal(p) + x == Literal(q) + y
    ensures p == q && x == y
  {
    assert (Literal(p) + x)[0] == Literal(p)[0] && (Literal(q) + y)[0] == Literal(q)[0];
    SamePartsOf(Literal(p), x, Literal(q), y);
  }

  /**
   A printed value is found again at the front of any text: values whose texts start one
   text are equal up to key order, and leave the same rest.
   */
  lemma {:induction false} PrintIsInjective(a: Json, b: Json, x: Units, y: Units)
    requires Valid(a) && Valid(b) && Stops(x) && Stops(y)
    requires Canonical(a) + x == Canonical(b) + y
    ensures Same(a, b) && x == y
    decreases a, 0
  {
    SameKind(a, b, x, y);
    match a
    case Null => SamePartsOf(NULL, x, NULL, y);
    case Bool(p) => LiteralIsInjective(p, b.value, x, y);
    case Number(m) => NumberIsInjective(m, b.text, x, y);
    case Text(s) => QuotedIsInjective(s, b.units, x, y);
    case Array(items) => ArrayIsInjective(items, b.items, x, y);
    case Object(members) => ObjectIsInjective(members, b.members, x, y);
  }

  lemma {:induction false} ArrayIsInjective(a: Items, b: Items, x: Units, y: Units)
    requires ValidItems(a) && ValidItems(b) && Stops(x) && Stops(y)
    requires Canonical(Array(a)) + x == Canonical(Array(b)) + y
    ensures SameItems(a, b) && x == y
    decreases a, 1
  {
    var (p, q) := (PrintItems(a), PrintItems(b));
    Brackets(OPEN_ARRAY, p, CLOSE_ARRAY, x);
    Brackets(OPEN_ARRAY, q, CLOSE_ARRAY, y);
    SamePartsOf([OPEN_ARRAY], p + ([CLOSE_ARRAY] + x), [OPEN_ARRAY], q + ([CLOSE_ARRAY] + y));
    ItemsAreInjective(a, b, x, y);
  }

  lemma Brackets(open: Unit, p: Units, close: Unit, x: Units)
    ensures (([open] + p) + [close]) + x == [open] + (p + ([close] + x))
  {
  }

  lemma {:induction false} ItemsAreInjective(a: Items, b: Items, x: Units, y: Units)
    requires ValidItems(a) && ValidItems(b)
    requires PrintItems(a) + ([CLOSE_ARRAY] + x) == PrintItems(b) + ([CLOSE_ARRAY] + y)
    ensures SameItems(a, b) && x == y
    decreases a, 0
  {
    ItemsParts(a, x);
    ItemsParts(b, y);
    if a.End? || b.End? {
      if a.Item? { FirstUnit(a.first); ItemsStart(a, x); }
      if b.Item? { FirstUnit(b.first); ItemsStart(b, y); }
      SamePartsOf([CLOSE_ARRAY], x, [CLOSE_ARRAY], y);
    } else {
      PrintIsInjective(a.first, b.first, AfterItem(a, x), AfterItem(b, y));
      hide PrintItems, Canonical;
      if a.rest.End? {
        assert AfterItem(b, y)[0] == CLOSE_ARRAY;
        SamePartsOf([CLOSE_ARRAY], x, [CLOSE_ARRAY], y);
      } else {
        assert AfterItem(a, x)[0] == COMMA;
        SamePartsOf([COMMA], PrintItems(a.rest) + ([CLOSE_ARRAY] + x), [COMMA], PrintItems(b.rest) + ([CLOSE_ARRAY] + y));
        ItemsAreInjective(a.rest, b.rest, x, y);
      }
    }
  }

  /** What follows the first item. */
  function AfterItem(a: Items, x: Units): (r: Units)
    requires a.Item?
    ensures Stops(r)
  {
    if a.rest.End? then [CLOSE_ARRAY] + x else [COMMA] + (PrintItems(a.rest) + ([CLOSE_ARRAY] + x))
  }

  lemma ItemsParts(a: Items, x: Units)
    ensures a.End? ==> PrintItems(a) + ([CLOSE_ARRAY] + x) == [CLOSE_ARRAY] + x
    ensures a.Item? ==> PrintItems(a) + ([CLOSE_ARRAY] + x) == Canonical(a.first) + AfterItem(a, x)
  {
    hide Canonical;
    if a.Item? {
      var (c, p) := (Canonical(a.first), PrintItems(a.rest));
      assert (c + ([COMMA] + p)) + ([CLOSE_ARRAY] + x) == c + ([COMMA] + (p + ([CLOSE_ARRAY] + x)));
    } else {
      assert [] + ([CLOSE_ARRAY] + x) == [CLOSE_ARRAY] + x;
    }
  }

  lemma ItemsStart(a: Items, x: Units)
    requires a.Item? && Canonical(a.first) != []
    ensures (PrintItems(a) + ([CLOSE_ARRAY] + x))[0] == Canonical(a.first)[0]
  {
    hide Canonical;
    ItemsParts(a, x);
  }

  // ---- objects ----

  /** The pairs are printed members of `ms`. */
  ghost predicate From(pairs: seq<Pair>, ms: Members) {
    forall p :: p in pairs ==> Has(ms, p.key) && p.text == Canonical(Lookup(ms, p.key))
  }

  lemma {:induction false} LookupIsSmaller(ms: Members, key: Units)
    requires Has(ms, key)
    ensures Lookup(ms, key) < ms
  {
    if ms.key != key {
      LookupIsSmaller(ms.more, key);
    }
  }

  function AfterPair(pairs: seq<Pair>, x: Units): (r: Units)
    requires pairs != []
    ensures Stops(r)
  {
    if |pairs| == 1 then [CLOSE_OBJECT] + x else [COMMA] + (Join(pairs[1..]) + ([CLOSE_OBJECT] + x))
  }

  lemma JoinParts(pairs: seq<Pair>, x: Units)
    ensures pairs == [] ==> Join(pairs) + ([CLOSE_OBJECT] + x) == [CLOSE_OBJECT] + x
    ensures pairs != [] ==> Join(pairs) + ([CLOSE_OBJECT] + x) == Quoted(pairs[0].key) + ([COLON] + (pairs[0].text + AfterPair(pairs, x)))
  {
    hide Quoted;
    if pairs == [] {
      assert [] + ([CLOSE_OBJECT] + x) == [CLOSE_OBJECT] + x;
    } else {
      var (q, t, j) := (Quoted(pairs[0].key), pairs[0].text, Join(pairs[1..]));
      PairRegroup(q, t, [CLOSE_OBJECT] + x);
      assert ((q + ([COLON] + t)) + ([COMMA] + j)) + ([CLOSE_OBJECT] + x) == (q + ([COLON] + t)) + ([COMMA] + (j + ([CLOSE_OBJECT] + x)));
      PairRegroup(q, t, [COMMA] + (j + ([CLOSE_OBJECT] + x)));
    }
  }

  lemma PairRegroup(q: Units, t: Units, z: Units)
    ensures (q + ([COLON] + t)) + z == q + ([COLON] + (t + z))
  {
  }

  /** Two lists of printed members that print alike have the same keys in the same order, with the same values. */
  lemma {:induction false} PairsAreInjective(ps: seq<Pair>, qs: seq<Pair>, a: Members, b: Members, x: Units, y: Units)
    requires ValidMembers(a) && ValidMembers(b) && From(ps, a) && From(qs, b)
    requires Join(ps) + ([CLOSE_OBJECT] + x) == Join(qs) + ([CLOSE_OBJECT] + y)
    ensures x == y && |ps| == |qs|
    ensures forall k :: 0 <= k < |ps| ==> ps[k].key == qs[k].key && Same(Lookup(a, ps[k].key), Lookup(b, ps[k].key))
    decreases a, |ps|
  {
    hide Canonical, Quoted, Same;
    JoinParts(ps, x);
    JoinParts(qs, y);
    hide Join;
    if ps == [] || qs == [] {
      QuoteIsNoBrace(ps, x);
      QuoteIsNoBrace(qs, y);
      SamePartsOf([CLOSE_OBJECT], x, [CLOSE_OBJECT], y);
    } else {
      var (p, q) := (ps[0], qs[0]);
      var (r, s) := (AfterPair(ps, x), AfterPair(qs, y));
      QuotedIsInjective(p.key, q.key, [COLON] + (p.text + r), [COLON] + (q.text + s));
      SamePartsOf([COLON], p.text + r, [COLON], q.text + s);
      var (v, w) := (Lookup(a, p.key), Lookup(b, p.key));
      LookupIsValid(a, p.key);
      LookupIsValid(b, p.key);
      LookupIsSmaller(a, p.key);
      PrintIsInjective(v, w, r, s);
      RestIsFrom(ps, a);
      RestIsFrom(qs, b);
      if |ps| == 1 || |qs| == 1 {
        SamePartsOf([r[0]], r[1..], [s[0]], s[1..]);
        LastPair(ps, x);
        LastPair(qs, y);
      } else {
        SamePartsOf([COMMA], Join(ps[1..]) + ([CLOSE_OBJECT] + x), [COMMA], Join(qs[1..]) + ([CLOSE_OBJECT] + y));
        PairsAreInjective(ps[1..], qs[1..], a, b, x, y);
        forall k | 0 <= k < |ps| ensures ps[k].key == qs[k].key && Same(Lookup(a, ps[k].key), Lookup(b, ps[k].key)) {
          if k > 0 {
            assert ps[1..][k - 1] == ps[k] && qs[1..][k - 1] == qs[k];
          }
        }
      }
    }
  }

  lemma QuoteIsNoBrace(ps: seq<Pair>, x: Units)
    ensures ps != [] ==> (Join(ps) + ([CLOSE_OBJECT] + x))[0] == QUOTE
  {
    if ps != [] {
      JoinParts(ps, x);
    }
  }

  lemma LastPair(ps: seq<Pair>, x: Units)
    requires ps != []
    ensures AfterPair(ps, x)[0] == if |ps| == 1 then CLOSE_OBJECT else COMMA
    ensures |ps| == 1 ==> AfterPair(ps, x)[1..] == x
  {
  }

  lemma RestIsFrom(ps: seq<Pair>, ms: Members)
    requires ps != [] && From(ps, ms)
    ensures From(ps[1..], ms) && Has(ms, ps[0].key) && ps[0].text == Canonical(Lookup(ms, ps[0].key))
  {
    hide Canonical, Lookup, Has;
    assert ps[0] in ps && forall p :: p in ps[1..] ==> p in ps;
  }

  lemma SortedIsFrom(ms: Members)
    requires ValidMembers(ms)
    ensures From(Sort(Pairs(ms), PairLe), ms)
    ensures forall key :: Has(ms, key) ==> exists k :: 0 <= k < |Sort(Pairs(ms), PairLe)| && Sort(Pairs(ms), PairLe)[k].key == key
  {
    hide Canonical, Sort, Lookup, Has;
    PairsAreMembers(ms);
    var (ps, sorted) := (Pairs(ms), Sort(Pairs(ms), PairLe));
    SortHasTheSame(ps);
    forall key | Has(ms, key) ensures exists k :: 0 <= k < |sorted| && sorted[k].key == key {
      var p := Pair(key, Canonical(Lookup(ms, key)));
      assert p in ps && p in sorted;
    }
  }

  lemma SortHasTheSame(ps: seq<Pair>)
    ensures forall p :: p in Sort(ps, PairLe) <==> p in ps
  {
    forall p ensures p in Sort(ps, PairLe) <==> p in ps {
      assert p in Sort(ps, PairLe) <==> p in multiset(Sort(ps, PairLe));
      assert p in ps <==> p in multiset(ps);
    }
  }

  lemma {:induction false} ObjectIsInjective(a: Members, b: Members, x: Units, y: Units)
    requires ValidMembers(a) && ValidMembers(b) && Stops(x) && Stops(y)
    requires Canonical(Object(a)) + x == Canonical(Object(b)) + y
    ensures SameMembers(a, b) && Within(b, a) && x == y
    decreases a, |Sort(Pairs(a), PairLe)| + 1
  {
    var (ps, qs) := (Sort(Pairs(a), PairLe), Sort(Pairs(b), PairLe));
    Brackets(OPEN_OBJECT, Join(ps), CLOSE_OBJECT, x);
    Brackets(OPEN_OBJECT, Join(qs), CLOSE_OBJECT, y);
    hide Join, Sort, Same, Quoted;
    SamePartsOf([OPEN_OBJECT], Join(ps) + ([CLOSE_OBJECT] + x), [OPEN_OBJECT], Join(qs) + ([CLOSE_OBJECT] + y));
    SortedIsFrom(a);
    SortedIsFrom(b);
    PairsAreInjective(ps, qs, a, b, x, y);
    hide Canonical;
    forall key | Has(a, key) ensures Has(b, key) && Same(Lookup(a, key), Lookup(b, key)) {
      var k :| 0 <= k < |ps| && ps[k].key == key;
      assert qs[k] in qs;
    }
    forall key | Has(b, key) ensures Has(a, key) {
      var k :| 0 <= k < |qs| && qs[k].key == key;
      assert ps[k] in ps;
    }
    AllMembersSame(a, a, b);
    AllWithin(b, a);
  }

  lemma {:induction false} AllMembersSame(part: Members, a: Members, b: Members)
    requires ValidMembers(part)
    requires forall key :: Has(part, key) ==> Has(b, key) && Same(Lookup(part, key), Lookup(b, key))
    ensures SameMembers(part, b)
    decreases part
  {
    hide Same;
    if part.Member? {
      assert Has(part, part.key) && Lookup(part, part.key) == part.value;
      forall key | Has(part.more, key) ensures Has(b, key) && Same(Lookup(part.more, key), Lookup(b, key)) {
        assert Has(part, key) && Lookup(part, key) == Lookup(part.more, key);
      }
      AllMembersSame(part.more, a, b);
    }
  }

  lemma {:induction false} AllWithin(a: Members, b: Members)
    requires forall key :: Has(a, key) ==> Has(b, key)
    ensures Within(a, b)
  {
    if a.Member? {
      assert Has(a, a.key);
      forall key | Has(a.more, key) ensures Has(b, key) {
        assert Has(a, key);
      }
      AllWithin(a.more, b);
    }
  }

  /** Two values print to the same canonical text exactly when they are equal up to the order of object keys. */
  lemma SameTextIffSameValue(a: Json, b: Json)
    requires Valid(a) && Valid(b)
    ensures Canonical(a) == Canonical(b) <==> Same(a, b)
  {
    hide Canonical, Same, Valid;
    if Same(a, b) {
      SamePrintAlike(a, b);
    }
    if Canonical(a) == Canonical(b) {
      PrintIsInjective(a, b, [], []);
    }
  }

  // ---- the evidence binding ----

  /** The binding hashes a domain, the inner binding and the digest of the record's text, and so commits to the whole record: barring a digest collision, it changes with any change but key order. */
  lemma EvidenceCommitsToTheRecord(domain: Units, inner: Units, inner': Units, digest: Units -> Units, a: Json, b: Json)
    requires Valid(a) && Valid(b) && |inner| == |inner'|
    requires digest(Canonical(a)) == digest(Canonical(b)) ==> Canonical(a) == Canonical(b)
    ensures (domain + inner) + digest(Canonical(a)) == (domain + inner') + digest(Canonical(b)) <==> inner == inner' && Same(a, b)
  {
    hide Canonical, Same, Valid;
    SameTextIffSameValue(a, b);
    if (domain + inner) + digest(Canonical(a)) == (domain + inner') + digest(Canonical(b)) {
      SamePartsOf(domain + inner, digest(Canonical(a)), domain + inner', digest(Canonical(b)));
      SamePartsOf(domain, inner, domain, inner');
    }
  }
}
