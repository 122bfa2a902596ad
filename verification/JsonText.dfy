/**
 Which text the canonical printer prints, unit by unit, against section 3.2 of RFC 8785:
 literals, separators, the one escape each code unit has, and object members in ascending
 order of their keys. `CanonicalJson` proves the text to determine the value; this proves
 what the text is.
 */
module JsonText {
  import opened Outcomes
  import opened Sorting
  import opened CanonicalJson

  /** A text of ASCII characters as code units. */
  function Ascii(s: string): (r: Units)
    requires forall k :: 0 <= k < |s| ==> s[k] as int < 0x80
    ensures |r| == |s| && forall k :: 0 <= k < |s| ==> r[k] == s[k] as int
  {
    seq(|s|, k requires 0 <= k < |s| => s[k] as int)
  }

  /** The texts one after another, with commas between them. */
  function Separated(texts: seq<Units>): Units {
    if texts == [] then []
    else if |texts| == 1 then texts[0]
    else texts[0] + (Ascii(",") + Separated(texts[1..]))
  }

  lemma LiteralsAre()
    ensures Canonical(Null) == Ascii("null")
    ensures Canonical(Bool(true)) == Ascii("true") && Canonical(Bool(false)) == Ascii("false")
  {
  }

  // ---- arrays and objects ----

  function ItemList(items: Items): seq<Json> {
    match items
    case End => []
    case Item(first, rest) => [first] + ItemList(rest)
  }

  function Texts(values: seq<Json>): (r: seq<Units>)
    ensures |r| == |values| && forall k :: 0 <= k < |r| ==> r[k] == Canonical(values[k])
  {
    seq(|values|, k requires 0 <= k < |values| => Canonical(values[k]))
  }

  lemma {:induction false} ItemsAreSeparated(items: Items)
    ensures PrintItems(items) == Separated(Texts(ItemList(items)))
    decreases items
  {
    hide Canonical;
    if items.Item? {
      ItemsAreSeparated(items.rest);
      var all := Texts(ItemList(items));
      assert all[1..] == Texts(ItemList(items.rest));
      if items.rest.End? {
        assert |all| == 1;
      } else {
        assert |ItemList(items.rest)| >= 1;
      }
    }
  }

  /** An array's text: a bracket, its items' texts in order with commas between, a bracket. */
  lemma ArrayText(items: Items)
    ensures Canonical(Array(items)) == (Ascii("[") + Separated(Texts(ItemList(items)))) + Ascii("]")
  {
    ItemsAreSeparated(items);
    hide PrintItems, Separated;
    assert Ascii("[") == [OPEN_ARRAY] && Ascii("]") == [CLOSE_ARRAY];
  }

  /** Up to some place the keys are equal; there the earlier one ends, or has the smaller code unit. */
  predicate Precedes(a: Units, b: Units) {
    exists n :: 0 <= n <= |a| && n <= |b| && a[..n] == b[..n]
                && ((n == |a| && n < |b|) || (n < |a| && n < |b| && a[n] < b[n]))
  }

  lemma {:induction false} KeyLeMeansPrecedes(a: Units, b: Units)
    requires KeyLe(a, b) && a != b
    ensures Precedes(a, b)
  {
    if a == [] {
      assert a[..0] == b[..0];
    } else if a[0] < b[0] {
      assert a[..0] == b[..0];
    } else {
      assert a == [a[0]] + a[1..] && b == [b[0]] + b[1..];
      KeyLeMeansPrecedes(a[1..], b[1..]);
      var n :| 0 <= n <= |a[1..]| && n <= |b[1..]| && a[1..][..n] == b[1..][..n]
               && ((n == |a[1..]| && n < |b[1..]|) || (n < |a[1..]| && n < |b[1..]| && a[1..][n] < b[1..][n]));
      assert a[..n + 1] == [a[0]] + a[1..][..n] && b[..n + 1] == [b[0]] + b[1..][..n];
    }
  }

  /** The keys stand in ascending order, each once. */
  ghost predicate InOrder(keys: seq<Units>) {
    forall j, k :: 0 <= j < k < |keys| ==> Precedes(keys[j], keys[k])
  }

  function KeysOf(pairs: seq<Pair>): (r: seq<Units>)
    ensures |r| == |pairs| && forall k :: 0 <= k < |r| ==> r[k] == pairs[k].key
  {
    seq(|pairs|, k requires 0 <= k < |pairs| => pairs[k].key)
  }

  /** A member's text: its key as a string, a colon, its value's text. */
  function MemberTexts(ms: Members, keys: seq<Units>): (r: seq<Units>)
    requires forall k :: 0 <= k < |keys| ==> Has(ms, keys[k])
    ensures |r| == |keys|
    ensures forall k :: 0 <= k < |r| ==> r[k] == (Canonical(Text(keys[k])) + Ascii(":")) + Canonical(Lookup(ms, keys[k]))
  {
    seq(|keys|, k requires 0 <= k < |keys| => (Canonical(Text(keys[k])) + Ascii(":")) + Canonical(Lookup(ms, keys[k])))
  }

  function PairTexts(pairs: seq<Pair>): (r: seq<Units>)
    ensures |r| == |pairs| && forall k :: 0 <= k < |r| ==> r[k] == PrintPair(pairs[k])
  {
    seq(|pairs|, k requires 0 <= k < |pairs| => PrintPair(pairs[k]))
  }

  lemma {:induction false} JoinIsSeparated(pairs: seq<Pair>)
    ensures Join(pairs) == Separated(PairTexts(pairs))
    decreases |pairs|
  {
    hide PrintPair;
    if |pairs| > 1 {
      JoinIsSeparated(pairs[1..]);
      assert PairTexts(pairs)[1..] == PairTexts(pairs[1..]);
      assert Ascii(",") == [COMMA];
    }
  }

  lemma {:induction false} AscendingPairs(pairs: seq<Pair>)
    requires Ascending(pairs, PairLe)
    ensures forall j, k :: 0 <= j < k < |pairs| ==> KeyLe(pairs[j].key, pairs[k].key)
  {
    hide KeyLe;
    if pairs != [] {
      AscendingPairs(pairs[1..]);
      forall j, k | 0 <= j < k < |pairs| ensures KeyLe(pairs[j].key, pairs[k].key) {
        if j == 0 {
          assert PairLe(pairs[0], pairs[k]);
        } else {
          assert pairs[j] == pairs[1..][j - 1] && pairs[k] == pairs[1..][k - 1];
        }
      }
    }
  }

  lemma {:induction false} ManyTimes(pairs: seq<Pair>, j: nat, k: nat)
    requires j < k < |pairs| && pairs[j] == pairs[k]
    ensures multiset(pairs)[pairs[j]] >= 2
  {
    assert pairs == (pairs[..k] + [pairs[k]]) + pairs[k + 1..];
    assert pairs[j] in pairs[..k];
    assert pairs[j] in multiset(pairs[..k]);
    assert multiset(pairs) == (multiset(pairs[..k]) + multiset{pairs[k]}) + multiset(pairs[k + 1..]);
  }

  lemma NoKeyTwice(ms: Members, ps: seq<Pair>, j: nat, k: nat)
    requires ValidMembers(ms) && From(ps, ms) && multiset(ps) == multiset(Pairs(ms)) && j < k < |ps|
    ensures ps[j].key != ps[k].key
  {
    hide Lookup, Has, Canonical;
    PairsAreMembers(ms);
    assert ps[j] in ps && ps[k] in ps;
    assert ps[j] in multiset(ps) && ps[j] in multiset(Pairs(ms));
    if ps[j] == ps[k] {
      ManyTimes(ps, j, k);
    }
  }

  /** The printed order: every member once, the keys ascending. */
  lemma PrintedOrder(ms: Members)
    requires ValidMembers(ms)
    ensures var keys := KeysOf(Sort(Pairs(ms), PairLe));
            InOrder(keys) && forall key :: key in keys <==> Has(ms, key)
  {
    var ps := Sort(Pairs(ms), PairLe);
    var keys := KeysOf(ps);
    hide KeyLe, Sort, Precedes, Lookup, Has, Ascending, IsOrder;
    PairLeIsAnOrder();
    SortIsAscending(Pairs(ms), PairLe);
    AscendingPairs(ps);
    SortedIsFrom(ms);
    PairsAreMembers(ms);
    forall j, k | 0 <= j < k < |keys| ensures Precedes(keys[j], keys[k]) {
      assert ps[j] in ps && ps[k] in ps;
      NoKeyTwice(ms, ps, j, k);
      KeyLeMeansPrecedes(keys[j], keys[k]);
    }
    forall key ensures key in keys <==> Has(ms, key) {
      if key in keys {
        var k :| 0 <= k < |keys| && keys[k] == key;
        assert ps[k] in ps;
      }
      if Has(ms, key) {
        var k :| 0 <= k < |ps| && ps[k].key == key;
        assert keys[k] in keys;
      }
    }
  }

  lemma PairTextsAreMemberTexts(ms: Members, ps: seq<Pair>)
    requires From(ps, ms)
    ensures forall k :: 0 <= k < |ps| ==> Has(ms, ps[k].key)
    ensures PairTexts(ps) == MemberTexts(ms, KeysOf(ps))
  {
    hide Has, Lookup;
    var (a, keys) := (PairTexts(ps), KeysOf(ps));
    forall k | 0 <= k < |ps|
      ensures Has(ms, keys[k]) && a[k] == (Canonical(Text(keys[k])) + Ascii(":")) + Canonical(Lookup(ms, keys[k]))
    {
      assert ps[k] in ps;
      PairText(ps[k], Canonical(Lookup(ms, keys[k])));
    }
  }

  lemma PairText(p: Pair, text: Units)
    requires p.text == text
    ensures PrintPair(p) == (Canonical(Text(p.key)) + Ascii(":")) + text
  {
    hide Quoted;
    assert Ascii(":") == [COLON];
    Regroup(Quoted(p.key), [COLON], text);
  }

  /**
   An object's text: a brace, its members' texts with commas between, a brace; every member
   once, in ascending order of the keys' code units.
   */
  lemma ObjectText(ms: Members)
    requires ValidMembers(ms)
    ensures exists keys: seq<Units> ::
              && InOrder(keys) && (forall key :: key in keys <==> Has(ms, key))
              && (forall k :: 0 <= k < |keys| ==> Has(ms, keys[k]))
              && Canonical(Object(ms)) == (Ascii("{") + Separated(MemberTexts(ms, keys))) + Ascii("}")
  {
    hide Sort, InOrder, Has, Separated, Join, From, Canonical, MemberTexts, PairTexts, Ascii;
    var ps := Sort(Pairs(ms), PairLe);
    PrintedOrder(ms);
    SortedIsFrom(ms);
    JoinIsSeparated(ps);
    PairTextsAreMemberTexts(ms, ps);
    BracedObject(ms);
    var keys := KeysOf(ps);
    assert Canonical(Object(ms)) == (Ascii("{") + Separated(MemberTexts(ms, keys))) + Ascii("}");
  }

  lemma BracedObject(ms: Members)
    ensures Canonical(Object(ms)) == (Ascii("{") + Join(Sort(Pairs(ms), PairLe))) + Ascii("}")
  {
    hide Sort, Join;
    assert Ascii("{") == [OPEN_OBJECT] && Ascii("}") == [CLOSE_OBJECT];
  }

  lemma EqualInside(a: Units, b: Units, n: nat, m: nat)
    ensures m < n <= |a| && n <= |b| && a[..n] == b[..n] ==> a[m] == b[m]
  {
    if m < n <= |a| && n <= |b| && a[..n] == b[..n] {
      assert a[m] == a[..n][m] == b[m];
    }
  }

  lemma PrecedesIsStrict(a: Units, b: Units)
    ensures !(Precedes(a, b) && Precedes(b, a)) && !Precedes(a, a)
  {
    if Precedes(a, b) && Precedes(b, a) {
      var n :| 0 <= n <= |a| && n <= |b| && a[..n] == b[..n] && ((n == |a| && n < |b|) || (n < |a| && n < |b| && a[n] < b[n]));
      var m :| 0 <= m <= |b| && m <= |a| && b[..m] == a[..m] && ((m == |b| && m < |a|) || (m < |b| && m < |a| && b[m] < a[m]));
      EqualInside(a, b, n, m);
      EqualInside(a, b, m, n);
    }
  }

  lemma FirstPrecedes(a: seq<Units>, key: Units)
    requires InOrder(a) && key in a
    ensures a != [] && (key == a[0] || Precedes(a[0], key))
  {
    hide Precedes;
    var k :| 0 <= k < |a| && a[k] == key;
  }

  lemma NotAgain(a: seq<Units>, key: Units)
    requires a != [] && InOrder(a)
    ensures key in a[1..] <==> key in a && key != a[0]
  {
    hide Precedes;
    if key in a[1..] {
      var k :| 0 <= k < |a[1..]| && a[1..][k] == key;
      assert a[k + 1] == key && Precedes(a[0], a[k + 1]);
      PrecedesIsStrict(a[0], a[0]);
    }
    if key in a && key != a[0] {
      var k :| 0 <= k < |a| && a[k] == key;
      assert a[1..][k - 1] == key;
    }
  }

  lemma FirstInBoth(a: seq<Units>, b: seq<Units>)
    requires forall key :: key in a <==> key in b
    ensures a == [] <==> b == []
    ensures a != [] ==> b[0] in a && a[0] in b
  {
    if a != [] {
      assert a[0] in a;
    }
    if b != [] {
      assert b[0] in b;
    }
  }

  /** There is one ascending order of the same keys, so the text of an object is fixed. */
  lemma {:induction false} OrderIsUnique(a: seq<Units>, b: seq<Units>)
    requires InOrder(a) && InOrder(b) && forall key :: key in a <==> key in b
    ensures a == b
    decreases |a|
  {
    hide Precedes;
    FirstInBoth(a, b);
    if a != [] {
      FirstPrecedes(a, b[0]);
      FirstPrecedes(b, a[0]);
      PrecedesIsStrict(a[0], b[0]);
      forall key ensures key in a[1..] <==> key in b[1..] {
        NotAgain(a, key);
        NotAgain(b, key);
      }
      OrderIsUnique(a[1..], b[1..]);
      assert a == [a[0]] + a[1..] && b == [b[0]] + b[1..];
    }
  }

  // ---- strings ----

  predicate LowerHexUnit(u: Unit) {
    0x30 <= u <= 0x39 || 0x61 <= u <= 0x66
  }

  /** Each code unit's one spelling: seven short escapes, `\u` and four lower-case digits, or itself. */
  lemma EscapeTable(u: Unit)
    ensures u == 0x08 ==> Escape(u) == Ascii("\\b")
    ensures u == 0x09 ==> Escape(u) == Ascii("\\t")
    ensures u == 0x0A ==> Escape(u) == Ascii("\\n")
    ensures u == 0x0C ==> Escape(u) == Ascii("\\f")
    ensures u == 0x0D ==> Escape(u) == Ascii("\\r")
    ensures u == 0x22 ==> Escape(u) == Ascii("\\\"")
    ensures u == 0x5C ==> Escape(u) == Ascii("\\\\")
    ensures (u < 0x20 && u !in {0x08, 0x09, 0x0A, 0x0C, 0x0D}) || 0xD800 <= u <= 0xDFFF ==>
              |Escape(u)| == 6 && Escape(u)[..2] == Ascii("\\u") && forall k :: 2 <= k < 6 ==> LowerHexUnit(Escape(u)[k])
    ensures 0x20 <= u && u != 0x22 && u != 0x5C && !(0xD800 <= u <= 0xDFFF) ==> Escape(u) == [u]
  {
  }

  /** A string's text between quotes: a surrogate pair stands for itself, any other unit as the table says. */
  lemma StringText(s: Units)
    ensures Canonical(Text(s)) == (Ascii("\"") + Body(s)) + Ascii("\"")
    ensures s == [] ==> Body(s) == []
    ensures |s| >= 2 && 0xD800 <= s[0] <= 0xDBFF && 0xDC00 <= s[1] <= 0xDFFF ==> Body(s) == s[..2] + Body(s[2..])
    ensures s != [] && !(|s| >= 2 && 0xD800 <= s[0] <= 0xDBFF && 0xDC00 <= s[1] <= 0xDFFF) ==> Body(s) == Escape(s[0]) + Body(s[1..])
  {
    hide Escape;
    assert Ascii("\"") == [QUOTE];
  }

  function HexOf(u: Unit): Option<nat> {
    if 0x30 <= u <= 0x39 then Some(u - 0x30)
    else if 0x61 <= u <= 0x66 then Some(u - 0x61 + 10)
    else if 0x41 <= u <= 0x46 then Some(u - 0x41 + 10)
    else None
  }

  /** The unit that a backslash and this one stand for. */
  function ShortOf(u: Unit): Option<Unit> {
    if u == 0x22 || u == 0x5C || u == 0x2F then Some(u)
    else if u == 0x62 then Some(0x08)
    else if u == 0x66 then Some(0x0C)
    else if u == 0x6E then Some(0x0A)
    else if u == 0x72 then Some(0x0D)
    else if u == 0x74 then Some(0x09)
    else None
  }

  /** The first unit of a JSON string's inside, and how many it takes up (section 7 of RFC 8259). */
  function ReadUnit(t: Units): (r: Option<(Unit, nat)>)
    requires t != []
    ensures r.Some? ==> 1 <= r.value.1 <= |t|
  {
    if t[0] != BACKSLASH then (if t[0] < 0x20 then None else Some((t[0], 1)))
    else if |t| >= 2 && ShortOf(t[1]).Some? then Some((ShortOf(t[1]).value, 2))
    else if |t| >= 6 && t[1] == 0x75 && HexOf(t[2]).Some? && HexOf(t[3]).Some? && HexOf(t[4]).Some? && HexOf(t[5]).Some? then
      var u := 0x1000 * HexOf(t[2]).value + 0x100 * HexOf(t[3]).value + 0x10 * HexOf(t[4]).value + HexOf(t[5]).value;
      if u < 0x10000 then Some((u, 6)) else None
    else None
  }

  /** The string up to the closing quote, as any JSON reader reads it, and what follows. */
  function ReadString(t: Units): Option<(Units, Units)>
    decreases |t|
  {
    if t == [] then None
    else if t[0] == QUOTE then Some(([], t[1..]))
    else
      var first := ReadUnit(t);
      if first.None? then None
      else
        var rest := ReadString(t[first.value.1..]);
        if rest.None? then None else Some(([first.value.0] + rest.value.0, rest.value.1))
  }

  lemma HexUnitReads(d: nat)
    requires d < 16
    ensures HexOf(HexUnit(d)) == Some(d)
  {
  }

  lemma EscapeReads(u: Unit, x: Units)
    ensures ReadUnit(Escape(u) + x) == Some((u, |Escape(u)|))
  {
    var t := Escape(u) + x;
    assert forall k :: 0 <= k < |Escape(u)| ==> t[k] == Escape(u)[k];
    if |Escape(u)| == 6 {
      HexUnitReads(u / 0x1000);
      HexUnitReads(u / 0x100 % 16);
      HexUnitReads(u / 0x10 % 16);
      HexUnitReads(u % 16);
      DigitsOf(u);
      hide HexOf, HexUnit;
    }
  }

  lemma ReadOneMore(e: Units, u: Unit, t: Units)
    requires e != [] && e[0] != QUOTE && ReadUnit(e + t) == Some((u, |e|)) && ReadString(t).Some?
    ensures ReadString(e + t) == Some(([u] + ReadString(t).value.0, ReadString(t).value.1))
  {
    hide ReadUnit;
    assert (e + t)[|e|..] == t && (e + t)[0] == e[0];
  }

  /** Any JSON reader recovers every string from its text, and where it ends. */
  lemma {:induction false} StringRoundTrip(s: Units, x: Units)
    ensures ReadString(Body(s) + ([QUOTE] + x)) == Some((s, x))
    decreases |s|
  {
    hide Escape, ReadUnit, ReadString;
    if s == [] {
      EndReads(x);
    } else if StartsWithPair(s) {
      var t := Body(s[2..]) + ([QUOTE] + x);
      StringRoundTrip(s[2..], x);
      UnitReads(s[1], t);
      ReadOneMore([s[1]], s[1], t);
      UnitReads(s[0], [s[1]] + t);
      ReadOneMore([s[0]], s[0], [s[1]] + t);
      assert Body(s) + ([QUOTE] + x) == [s[0]] + ([s[1]] + t);
      assert s == [s[0]] + ([s[1]] + s[2..]);
    } else {
      var t := Body(s[1..]) + ([QUOTE] + x);
      StringRoundTrip(s[1..], x);
      EscapeReads(s[0], t);
      ReadOneMore(Escape(s[0]), s[0], t);
      Regroup(Escape(s[0]), Body(s[1..]), [QUOTE] + x);
      assert s == [s[0]] + s[1..];
    }
  }

  lemma EndReads(x: Units)
    ensures ReadString(Body([]) + ([QUOTE] + x)) == Some(([], x))
  {
    assert Body([]) + ([QUOTE] + x) == [QUOTE] + x;
    assert ([QUOTE] + x)[1..] == x;
  }

  lemma UnitReads(u: Unit, t: Units)
    requires IsHigh(u) || IsLow(u)
    ensures ReadUnit([u] + t) == Some((u, 1))
  {
    assert ([u] + t)[0] == u;
  }
}
