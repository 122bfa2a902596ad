/**
 Bytes and text: a byte is the character of its code, so that a byte string and an
 ASCII string are the same thing. Big-endian integers, hex in both letter cases,
 decimal numbers, ASCII lower-casing and trimming, each with its inverse.
 */
module Text {
  import opened Outcomes

  type Bytes = string

  predicate IsBytes(s: Bytes) {
    forall k :: 0 <= k < |s| ==> s[k] as int < 256
  }

  /** Two equal concatenations whose first parts are as long have equal parts. */
  lemma SameParts(a: string, b: string, c: string, d: string)
    requires a + b == c + d
    requires |a| == |c| || |b| == |d|
    ensures a == c && b == d
  {
    assert |a| + |b| == |a + b| && |c| + |d| == |c + d|;
    assert a == (a + b)[..|a|] && c == (c + d)[..|c|];
    assert b == (a + b)[|a|..] && d == (c + d)[|c|..];
  }

  lemma BreakIsNotLater(a: string, sep: string, d: string, a': string, d': string)
    requires |sep| == 1 && (a + sep) + d == (a' + sep) + d' && sep[0] !in d
    ensures |a'| <= |a|
  {
    assert ((a' + sep) + d')[|a'|] == sep[0];
    assert forall k :: |a| < k < |(a + sep) + d| ==> ((a + sep) + d)[k] == d[k - |a| - 1];
  }

  /** A last part without the separator is found again, whatever comes before it. */
  lemma LastPart(a: string, sep: string, d: string, a': string, d': string)
    requires |sep| == 1 && (a + sep) + d == (a' + sep) + d'
    requires sep[0] !in d && sep[0] !in d'
    ensures a == a' && d == d'
  {
    BreakIsNotLater(a, sep, d, a', d');
    BreakIsNotLater(a', sep, d', a, d);
    SameParts(a + sep, d, a' + sep, d');
    SameParts(a, sep, a', sep);
  }

  // ---- big-endian integers ----

  function Pow256(n: nat): (r: nat)
    ensures r > 0
  {
    if n == 0 then 1 else 256 * Pow256(n - 1)
  }

  function BigEndian(x: nat, n: nat): (r: Bytes)
    ensures |r| == n && IsBytes(r)
  {
    if n == 0 then [] else BigEndian(x / 256, n - 1) + [(x % 256) as char]
  }

  function FromBigEndian(s: Bytes): nat {
    if s == [] then 0 else 256 * FromBigEndian(s[..|s| - 1]) + s[|s| - 1] as int
  }

  lemma {:induction false} BigEndianRoundTrip(x: nat, n: nat)
    requires x < Pow256(n)
    ensures FromBigEndian(BigEndian(x, n)) == x
  {
    if n > 0 {
      BigEndianRoundTrip(x / 256, n - 1);
      var s := BigEndian(x, n);
      assert s[..n - 1] == BigEndian(x / 256, n - 1);
      assert s[n - 1] as int == x % 256;
    }
  }

  lemma {:induction false} BigEndianOfBytes(s: Bytes)
    requires IsBytes(s)
    ensures FromBigEndian(s) < Pow256(|s|) && BigEndian(FromBigEndian(s), |s|) == s
  {
    if s != [] {
      var front, last := s[..|s| - 1], s[|s| - 1] as int;
      BigEndianOfBytes(front);
      assert FromBigEndian(s) / 256 == FromBigEndian(front) && FromBigEndian(s) % 256 == last;
      assert s == front + [s[|s| - 1]];
    }
  }

  /** The most significant byte first. */
  lemma {:induction false} BigEndianDigits(x: nat, n: nat, k: nat)
    requires k < n
    ensures BigEndian(x, n)[k] as int == x / Pow256(n - 1 - k) % 256
  {
    if k < n - 1 {
      BigEndianDigits(x / 256, n - 1, k);
      var p := Pow256(n - 2 - k);
      assert BigEndian(x, n)[k] == BigEndian(x / 256, n - 1)[k];
      DivideTwice(x, p);
    }
  }

  lemma DivideTwice(x: nat, p: nat)
    requires p > 0
    ensures x / 256 / p == x / (256 * p)
  {
    var (q, r) := (x / (256 * p), x % (256 * p));
    assert x == (256 * p) * q + r;
    var (s, t) := (r / 256, r % 256);
    assert x == 256 * (p * q + s) + t;
    assert x / 256 == p * q + s;
    assert 256 * s <= r < 256 * p;
    assert s < p;
    QuotientIs(x / 256, p, q, s);
  }

  lemma QuotientIs(y: nat, p: nat, q: nat, s: nat)
    requires p > 0 && s < p && y == p * q + s
    ensures y / p == q
  {
    var d := y / p;
    assert y == p * d + y % p;
    Scales(p, d + 1, q);
    Scales(p, q + 1, d);
    assert p * (d + 1) == p * d + p && p * (q + 1) == p * q + p;
  }

  lemma Scales(p: nat, a: nat, b: nat)
    ensures a <= b ==> p * a <= p * b
  {
  }

  lemma Pow256Of8()
    ensures Pow256(8) == 0x1_0000_0000_0000_0000
  {
    assert Pow256(4) == 0x1_0000_0000;
    assert Pow256(6) == 0x1_0000_0000_0000;
  }

  /** Eight big-endian bytes determine a 64-bit integer. */
  lemma BigEndianIsInjective(x: nat, y: nat)
    requires x < 0x1_0000_0000_0000_0000 && y < 0x1_0000_0000_0000_0000
    requires BigEndian(x, 8) == BigEndian(y, 8)
    ensures x == y
  {
    Pow256Of8();
    BigEndianRoundTrip(x, 8);
    BigEndianRoundTrip(y, 8);
  }

  // ---- ASCII case and blanks ----

  function LowerChar(c: char): char {
    if 'A' <= c <= 'Z' then (c as int + 32) as char else c
  }

  function Lower(s: string): (r: string)
    ensures |r| == |s| && forall k :: 0 <= k < |s| ==> r[k] == LowerChar(s[k])
  {
    seq(|s|, k requires 0 <= k < |s| => LowerChar(s[k]))
  }

  lemma LowerTwice(s: string)
    ensures Lower(Lower(s)) == Lower(s)
  {
  }

  /** The two letters differ in ASCII case only. */
  predicate CaseOf(upper: char, lower: char) {
    'A' <= upper <= 'Z' && lower as int - 'a' as int == upper as int - 'A' as int
  }

  /** Two texts lower alike exactly when they differ in the case of ASCII letters only; none is left upper. */
  lemma SameLowerIff(s: string, t: string)
    ensures Lower(s) == Lower(t) <==>
              |s| == |t| && forall k :: 0 <= k < |s| ==> s[k] == t[k] || CaseOf(s[k], t[k]) || CaseOf(t[k], s[k])
    ensures forall k :: 0 <= k < |s| ==> !('A' <= Lower(s)[k] <= 'Z')
  {
    forall k | 0 <= k < |s| && k < |t|
      ensures LowerChar(s[k]) == LowerChar(t[k]) <==> s[k] == t[k] || CaseOf(s[k], t[k]) || CaseOf(t[k], s[k])
    {
    }
    if Lower(s) == Lower(t) {
      assert |Lower(s)| == |Lower(t)|;
      assert forall k :: 0 <= k < |s| ==> Lower(s)[k] == LowerChar(s[k]) && Lower(t)[k] == LowerChar(t[k]);
    }
  }

  // ---- hex ----

  const HEX_DIGITS: string := "0123456789abcdef"

  function HexValue(c: char): (r: Option<nat>)
    ensures r.Some? ==> r.value < 16
  {
    if '0' <= c <= '9' then Some(c as int - '0' as int)
    else if 'a' <= c <= 'f' then Some(c as int - 'a' as int + 10)
    else if 'A' <= c <= 'F' then Some(c as int - 'A' as int + 10)
    else None
  }

  lemma HexDigitsRoundTrip(d: nat, c: char)
    ensures d < 16 ==> HexValue(HEX_DIGITS[d]) == Some(d)
    ensures HexValue(c).Some? ==> HexValue(c).value < 16 && HEX_DIGITS[HexValue(c).value] == LowerChar(c)
    ensures HexValue(LowerChar(c)) == HexValue(c)
  {
    hide LowerChar;
    HexDigitOf(d);
    if HexValue(c).Some? {
      HexDigitOf(HexValue(c).value);
    }
    LowerHexDigit(c);
  }

  lemma HexDigitOf(d: nat)
    ensures d < 10 ==> HEX_DIGITS[d] as int == '0' as int + d
    ensures 10 <= d < 16 ==> HEX_DIGITS[d] as int == 'a' as int + d - 10
  {
    if d < 8 {
      assert HEX_DIGITS[0] == '0' && HEX_DIGITS[1] == '1' && HEX_DIGITS[2] == '2' && HEX_DIGITS[3] == '3';
      assert HEX_DIGITS[4] == '4' && HEX_DIGITS[5] == '5' && HEX_DIGITS[6] == '6' && HEX_DIGITS[7] == '7';
    } else {
      assert HEX_DIGITS[8] == '8' && HEX_DIGITS[9] == '9' && HEX_DIGITS[10] == 'a' && HEX_DIGITS[11] == 'b';
      assert HEX_DIGITS[12] == 'c' && HEX_DIGITS[13] == 'd' && HEX_DIGITS[14] == 'e' && HEX_DIGITS[15] == 'f';
    }
  }

  lemma LowerHexDigit(c: char)
    ensures HexValue(LowerChar(c)) == HexValue(c)
    ensures HexValue(c).Some? ==>
              LowerChar(c) as int == if HexValue(c).value < 10 then '0' as int + HexValue(c).value
                                     else 'a' as int + HexValue(c).value - 10
  {
  }

  function ByteHex(b: char): (r: string)
    requires b as int < 256
    ensures |r| == 2
  {
    [HEX_DIGITS[b as int / 16], HEX_DIGITS[b as int % 16]]
  }

  function HexByte(high: char, low: char): (r: Option<char>)
    ensures r.Some? ==> r.value as int < 256
  {
    var h, l := HexValue(high), HexValue(low);
    if h.None? || l.None? then None else Some((16 * h.value + l.value) as char)
  }

  lemma ByteRoundTrip(b: char)
    requires b as int < 256
    ensures HexByte(ByteHex(b)[0], ByteHex(b)[1]) == Some(b)
  {
    hide HexValue, LowerChar;
    HexDigitsRoundTrip(b as int / 16, '0');
    HexDigitsRoundTrip(b as int % 16, '0');
  }

  lemma DecodedBytePrintsLower(high: char, low: char)
    requires HexByte(high, low).Some?
    ensures ByteHex(HexByte(high, low).value) == [LowerChar(high), LowerChar(low)]
  {
    hide HexValue, LowerChar;
    HexDigitsRoundTrip(0, high);
    HexDigitsRoundTrip(0, low);
    var h, l := HexValue(high).value, HexValue(low).value;
    var b := HexByte(high, low).value as int;
    assert b / 16 == h && b % 16 == l;
  }

  /** Lower-case hex, as every id and digest is printed. */
  function Hex(s: Bytes): (r: string)
    requires IsBytes(s)
    ensures |r| == 2 * |s|
  {
    if s == [] then "" else ByteHex(s[0]) + Hex(s[1..])
  }

  /** Hex in either letter case; an odd length or any other character is refused. */
  function HexDecode(t: string): (r: Option<Bytes>)
    ensures r.Some? ==> IsBytes(r.value) && 2 * |r.value| == |t|
    decreases |t|
  {
    if t == "" then Some([])
    else if |t| == 1 then None
    else
      var first, rest := HexByte(t[0], t[1]), HexDecode(t[2..]);
      if first.None? || rest.None? then None else Some([first.value] + rest.value)
  }

  predicate IsHexDigit(c: char) {
    '0' <= c <= '9' || 'a' <= c <= 'f' || 'A' <= c <= 'F'
  }

  /** What decodes is an even number of hex digits, and nothing else. */
  lemma {:induction false} HexDecodesIff(t: string)
    ensures HexDecode(t).Some? <==> |t| % 2 == 0 && forall k :: 0 <= k < |t| ==> IsHexDigit(t[k])
    decreases |t|
  {
    if |t| >= 2 {
      HexDecodesIff(t[2..]);
      forall k | 0 <= k < |t| ensures k >= 2 ==> t[k] == t[2..][k - 2] {}
    }
  }

  lemma {:induction false} HexRoundTrip(s: Bytes)
    requires IsBytes(s)
    ensures HexDecode(Hex(s)) == Some(s)
  {
    hide ByteHex, HexByte;
    if s != [] {
      assert Hex(s)[2..] == Hex(s[1..]);
      HexRoundTrip(s[1..]);
      ByteRoundTrip(s[0]);
      assert s == [s[0]] + s[1..];
    }
  }

  /** What decodes prints back to the same text in lower case. */
  lemma {:induction false} HexDecodedPrintsLower(t: string)
    requires HexDecode(t).Some?
    ensures Hex(HexDecode(t).value) == Lower(t)
    decreases |t|
  {
    hide ByteHex, HexByte, LowerChar;
    if t != "" {
      HexDecodedPrintsLower(t[2..]);
      DecodedBytePrintsLower(t[0], t[1]);
      var bytes := HexDecode(t).value;
      assert bytes[0] == HexByte(t[0], t[1]).value;
      assert bytes[1..] == HexDecode(t[2..]).value;
      assert Lower(t)[2..] == Lower(t[2..]);
      assert Lower(t) == [LowerChar(t[0]), LowerChar(t[1])] + Lower(t)[2..];
    }
  }

  lemma {:induction false} HexDecodeIgnoresCase(t: string)
    ensures HexDecode(Lower(t)) == HexDecode(t)
    decreases |t|
  {
    if |t| >= 2 {
      HexDecodeIgnoresCase(t[2..]);
      LowerHexDigit(t[0]);
      LowerHexDigit(t[1]);
      assert Lower(t)[2..] == Lower(t[2..]);
    }
  }

  /** Two texts name the same bytes exactly when they differ in letter case only. */
  lemma SameBytesIffSameLowerCase(t: string, u: string)
    requires HexDecode(t).Some? && HexDecode(u).Some?
    ensures HexDecode(t) == HexDecode(u) <==> Lower(t) == Lower(u)
  {
    HexDecodedPrintsLower(t);
    HexDecodedPrintsLower(u);
    HexDecodeIgnoresCase(t);
    HexDecodeIgnoresCase(u);
  }

  // ---- decimal ----

  function DigitChar(d: nat): char
    requires d < 10
  {
    ('0' as int + d) as char
  }

  function Decimal(n: nat): (r: string)
    ensures |r| > 0 && forall k :: 0 <= k < |r| ==> '0' <= r[k] <= '9'
  {
    if n < 10 then [DigitChar(n)] else Decimal(n / 10) + [DigitChar(n % 10)]
  }

  /** The number a row of decimal digits stands for. */
  function FromDecimal(s: string): nat
    requires forall k :: 0 <= k < |s| ==> '0' <= s[k] <= '9'
  {
    if s == "" then 0 else 10 * FromDecimal(s[..|s| - 1]) + (s[|s| - 1] as int - '0' as int)
  }

  /** Decimal digits stand for the number, with no leading zero. */
  lemma {:induction false} DecimalRoundTrip(n: nat)
    ensures FromDecimal(Decimal(n)) == n && (n > 0 ==> Decimal(n)[0] != '0') && Decimal(0) == "0"
  {
    if n >= 10 {
      DecimalRoundTrip(n / 10);
      assert Decimal(n)[..|Decimal(n)| - 1] == Decimal(n / 10);
    } else {
      assert [DigitChar(n)][..0] == "";
    }
  }

  lemma {:induction false} DecimalIsInjective(x: nat, y: nat)
    requires Decimal(x) == Decimal(y)
    ensures x == y
  {
    var s, t := Decimal(x), Decimal(y);
    assert s[|s| - 1] == DigitChar(x % 10) && t[|t| - 1] == DigitChar(y % 10);
    if x >= 10 && y >= 10 {
      assert Decimal(x / 10) == s[..|s| - 1] && Decimal(y / 10) == t[..|t| - 1];
      DecimalIsInjective(x / 10, y / 10);
    }
  }

  // ---- trimming ----

  /** Unicode white space, as text is trimmed. */
  predicate IsSpace(c: char) {
    var n := c as int;
    || 0x9 <= n <= 0xD || n == 0x20 || n == 0x85 || n == 0xA0 || n == 0x1680
    || 0x2000 <= n <= 0x200A || n == 0x2028 || n == 0x2029 || n == 0x202F || n == 0x205F || n == 0x3000
  }

  function TrimStart(s: string, drop: char -> bool): (r: string)
    ensures |r| <= |s| && r == s[|s| - |r|..]
    ensures r == "" || !drop(r[0])
    ensures s != "" && !drop(s[0]) ==> r == s
    decreases |s|
  {
    if s != "" && drop(s[0]) then TrimStart(s[1..], drop) else s
  }

  function TrimEnd(s: string, drop: char -> bool): (r: string)
    ensures |r| <= |s| && r == s[..|r|]
    ensures r == "" || !drop(r[|r| - 1])
    ensures s != "" && !drop(s[|s| - 1]) ==> r == s
    decreases |s|
  {
    if s != "" && drop(s[|s| - 1]) then TrimEnd(s[..|s| - 1], drop) else s
  }

  function TrimBoth(s: string, drop: char -> bool): string {
    TrimEnd(TrimStart(s, drop), drop)
  }

  function Trim(s: string): string {
    TrimBoth(s, IsSpace)
  }

  /** Trimming drops nothing but what is to be dropped, at the start and at the end. */
  lemma {:induction false} StartIsDropped(s: string, drop: char -> bool)
    ensures forall k :: 0 <= k < |s| - |TrimStart(s, drop)| ==> drop(s[k])
    decreases |s|
  {
    if s != "" && drop(s[0]) {
      StartIsDropped(s[1..], drop);
      forall k | 0 <= k < |s| - |TrimStart(s, drop)| ensures drop(s[k]) {
        assert k > 0 ==> s[k] == s[1..][k - 1];
      }
    }
  }

  lemma {:induction false} EndIsDropped(s: string, drop: char -> bool)
    ensures forall k :: |TrimEnd(s, drop)| <= k < |s| ==> drop(s[k])
    decreases |s|
  {
    if s != "" && drop(s[|s| - 1]) {
      EndIsDropped(s[..|s| - 1], drop);
    }
  }

  /** The 25 characters of Unicode's White_Space property. */
  lemma SpacesAre(c: char)
    ensures IsSpace(c) <==>
              c as int in {9, 10, 11, 12, 13, 32, 133, 160, 5760,
                           8192, 8193, 8194, 8195, 8196, 8197, 8198, 8199, 8200, 8201, 8202, 8232, 8233, 8239, 8287, 12288}
  {
  }

  /** What is trimmed starts and ends with a kept character, and trimming it again does nothing. */
  lemma TrimmedIsTrimmed(s: string, drop: char -> bool)
    ensures var r := TrimBoth(s, drop);
            && (r == "" || (!drop(r[0]) && !drop(r[|r| - 1])))
            && TrimBoth(r, drop) == r
  {
    var started := TrimStart(s, drop);
    var r := TrimEnd(started, drop);
    if r != "" {
      assert r[0] == started[0];
    }
  }
}
