/**
 Reading binary records as the attestation scripts do: little-endian integers at an
 offset, which fail past the end of the data, and slices, which are cut off there.
 */
module Binary {
  import opened Outcomes
  import opened Text

  function LittleEndian(x: nat, n: nat): (r: Bytes)
    ensures |r| == n && IsBytes(r)
  {
    if n == 0 then [] else [(x % 256) as char] + LittleEndian(x / 256, n - 1)
  }

  function FromLittleEndian(s: Bytes): nat {
    if s == [] then 0 else s[0] as int + 256 * FromLittleEndian(s[1..])
  }

  lemma {:induction false} LittleEndianRoundTrip(x: nat, n: nat)
    requires x < Pow256(n)
    ensures FromLittleEndian(LittleEndian(x, n)) == x
  {
    if n > 0 {
      LittleEndianRoundTrip(x / 256, n - 1);
      assert LittleEndian(x, n)[1..] == LittleEndian(x / 256, n - 1);
    }
  }

  lemma Pow256Small()
    ensures Pow256(2) == 0x1_0000 && Pow256(4) == 0x1_0000_0000
  {
    assert Pow256(1) == 256;
  }

  /** The `n`-byte integer at an offset, or nothing when it reaches past the end. */
  function ReadInt(raw: Bytes, offset: nat, n: nat): Option<nat> {
    if offset + n <= |raw| then Some(FromLittleEndian(raw[offset..offset + n])) else None
  }

  function Smaller(a: nat, b: nat): nat {
    if a <= b then a else b
  }

  /** `raw[from : to]`, cut off at the end. */
  function Slice(raw: Bytes, from: nat, to: nat): (r: Bytes)
    ensures from <= to <= |raw| ==> r == raw[from..to]
    ensures from >= to || from >= |raw| ==> r == []
  {
    var end := Smaller(to, |raw|);
    if from < end then raw[from..end] else []
  }

  /** An integer is read whole or not at all; a slice is cut off at the end. */
  lemma EndOfData(raw: Bytes, from: nat, to: nat, n: nat)
    ensures ReadInt(raw, from, n).None? <==> from + n > |raw|
    ensures from <= |raw| <= to ==> Slice(raw, from, to) == raw[from..]
  {
  }

  /** Reading inside the second of two parts reads that part. */
  lemma ReadPast(a: Bytes, b: Bytes, offset: nat, n: nat)
    ensures ReadInt(a + b, |a| + offset, n) == ReadInt(b, offset, n)
  {
    if offset + n <= |b| {
      assert (a + b)[|a| + offset..|a| + offset + n] == b[offset..offset + n];
    }
  }

  /** An integer printed at the start of the second part is read back. */
  lemma ReadPrinted(a: Bytes, x: nat, n: nat, b: Bytes)
    requires x < Pow256(n)
    ensures ReadInt((a + LittleEndian(x, n)) + b, |a|, n) == Some(x)
  {
    var s := (a + LittleEndian(x, n)) + b;
    assert s[|a|..|a| + n] == LittleEndian(x, n);
    LittleEndianRoundTrip(x, n);
  }

  lemma SlicePrinted(a: Bytes, x: Bytes, b: Bytes)
    ensures Slice((a + x) + b, |a|, |a| + |x|) == x
  {
    var s := (a + x) + b;
    assert s[|a|..|a| + |x|] == x;
  }
}
