/**
 Which bytes of a PE image its Authenticode hash covers (`authenticode_sha384` in
 scripts/attestation/shared/uki_probe_evidence.py; "Calculating the PE Image Hash" of
 the Windows Authenticode Portable Executable Signature Format). A digest is fed the
 concatenation of its updates, so the hash is determined by the bytes built here.
 */
module Authenticode {
  import opened Outcomes
  import opened Text
  import opened Binary
  import opened Sorting

  datatype PeError = ShortFile | NotPe | UnknownMagic(magic: nat)

  /** A section's raw data in the file. */
  datatype Section = Section(pointer: nat, size: nat)

  datatype Layout = Layout(
    checksum: nat, certificateEntry: nat, headersSize: nat,
    certificateOffset: nat, certificateSize: nat,
    table: nat, count: nat)

  function ReadLayout(pe: Bytes): Result<Layout, PeError> {
    var peOffset := ReadInt(pe, 0x3C, 4);
    if peOffset.None? then Err(ShortFile)
    else if Slice(pe, peOffset.value, peOffset.value + 4) != "PE\0\0" then Err(NotPe)
    else
      var coff := peOffset.value + 4;
      var count, optionalSize, magic := ReadInt(pe, coff + 2, 2), ReadInt(pe, coff + 16, 2), ReadInt(pe, coff + 20, 2);
      if count.None? || optionalSize.None? || magic.None? then Err(ShortFile)
      else if magic.value != 0x10B && magic.value != 0x20B then Err(UnknownMagic(magic.value))
      else
        var optional := coff + 20;
        var entry := optional + (if magic.value == 0x10B then 96 else 112) + 8 * 4;
        var headersSize, offset, size := ReadInt(pe, optional + 60, 4), ReadInt(pe, entry, 4), ReadInt(pe, entry + 4, 4);
        if headersSize.None? || offset.None? || size.None? then Err(ShortFile)
        else Ok(Layout(optional + 64, entry, headersSize.value, offset.value, size.value, optional + optionalSize.value, count.value))
  }

  /** The sections with raw data among the first `n` of the table, in its order. */
  function ReadSections(pe: Bytes, table: nat, n: nat): Result<seq<Section>, PeError> {
    if n == 0 then Ok([])
    else
      match ReadSections(pe, table, n - 1)
      case Err(e) => Err(e)
      case Ok(before) =>
        var size, pointer := ReadInt(pe, table + 40 * (n - 1) + 16, 4), ReadInt(pe, table + 40 * (n - 1) + 20, 4);
        if size.None? || pointer.None? then Err(ShortFile)
        else if size.value == 0 then Ok(before)
        else Ok(before + [Section(pointer.value, size.value)])
  }

  // ---- order ----

  predicate Before(a: Section, b: Section) {
    a.pointer < b.pointer || (a.pointer == b.pointer && a.size <= b.size)
  }

  lemma BeforeIsAnOrder()
    ensures IsOrder(Before)
    ensures forall s: seq<Section> :: Strict(s, Before)
  {
  }

  // ---- what is hashed ----

  function Raw(pe: Bytes, sections: seq<Section>): Bytes {
    if sections == [] then []
    else Raw(pe, sections[..|sections| - 1]) + Slice(pe, sections[|sections| - 1].pointer, sections[|sections| - 1].pointer + sections[|sections| - 1].size)
  }

  function Total(sections: seq<Section>): nat {
    if sections == [] then 0 else Total(sections[..|sections| - 1]) + sections[|sections| - 1].size
  }

  function Certificate(l: Layout): nat {
    if l.certificateOffset != 0 then l.certificateSize else 0
  }

  /** The headers but for the checksum and the certificate entry. */
  function Headers(pe: Bytes, l: Layout): Bytes {
    (Slice(pe, 0, l.checksum) + Slice(pe, l.checksum + 4, l.certificateEntry)) + Slice(pe, l.certificateEntry + 8, l.headersSize)
  }

  /** Whatever follows the bytes hashed so far, short of the certificate table. */
  function Trailing(pe: Bytes, hashed: nat, certificate: nat): Bytes {
    if |pe| - hashed - certificate > 0 then Slice(pe, hashed, |pe| - certificate) else []
  }

  function Hashed(pe: Bytes): Result<Bytes, PeError> {
    match ReadLayout(pe)
    case Err(e) => Err(e)
    case Ok(l) =>
      match ReadSections(pe, l.table, l.count)
      case Err(e) => Err(e)
      case Ok(sections) =>
        var sorted := Sort(sections, Before);
        Ok((Headers(pe, l) + Raw(pe, sorted)) + Trailing(pe, l.headersSize + Total(sorted), Certificate(l)))
  }

  /** The script's walk: headers, the section table, the sections by their place in the file, the rest. */
  method Authenticode(pe: Bytes) returns (r: Result<Bytes, PeError>)
    ensures r == Hashed(pe)
  {
    hide ReadLayout, ReadSections, Slice, Raw, Total, Sort;
    var layout := ReadLayout(pe);
    if layout.Err? {
      return Err(layout.error);
    }
    var l := layout.value;
    var digest := Slice(pe, 0, l.checksum);
    digest := digest + Slice(pe, l.checksum + 4, l.certificateEntry);
    digest := digest + Slice(pe, l.certificateEntry + 8, l.headersSize);
    var raw := SectionTable(pe, l.table, l.count);
    if raw.Err? {
      return Err(raw.error);
    }
    var sections, size := FeedSections(pe, Sort(raw.value, Before));
    digest := digest + sections;
    var hashed := l.headersSize + size;
    var certificate := if l.certificateOffset != 0 then l.certificateSize else 0;
    var trailing := |pe| - hashed - certificate;
    if trailing > 0 {
      digest := digest + Slice(pe, hashed, hashed + trailing);
    } else {
      assert digest + [] == digest;
    }
    r := Ok(digest);
  }

  method FeedSections(pe: Bytes, sorted: seq<Section>) returns (fed: Bytes, hashed: nat)
    ensures fed == Raw(pe, sorted) && hashed == Total(sorted)
  {
    hide Slice;
    fed, hashed := [], 0;
    for i := 0 to |sorted|
      invariant fed == Raw(pe, sorted[..i]) && hashed == Total(sorted[..i])
    {
      assert sorted[..i + 1][..i] == sorted[..i];
      fed := fed + Slice(pe, sorted[i].pointer, sorted[i].pointer + sorted[i].size);
      hashed := hashed + sorted[i].size;
    }
    assert sorted[..|sorted|] == sorted;
  }

  method SectionTable(pe: Bytes, table: nat, count: nat) returns (r: Result<seq<Section>, PeError>)
    ensures r == ReadSections(pe, table, count)
  {
    hide ReadInt;
    var raw: seq<Section> := [];
    for i := 0 to count
      invariant ReadSections(pe, table, i) == Ok(raw)
    {
      var size, pointer := ReadInt(pe, table + 40 * i + 16, 4), ReadInt(pe, table + 40 * i + 20, 4);
      if size.None? || pointer.None? {
        SectionFails(pe, table, i, count);
        return Err(ShortFile);
      }
      if size.value != 0 {
        raw := raw + [Section(pointer.value, size.value)];
      }
    }
    r := Ok(raw);
  }

  lemma {:induction false} SectionFails(pe: Bytes, table: nat, i: nat, count: nat)
    requires i < count && ReadSections(pe, table, i + 1) == Err(ShortFile)
    ensures ReadSections(pe, table, count) == Err(ShortFile)
  {
    hide ReadInt;
    if i + 1 < count {
      SectionFails(pe, table, i, count - 1);
    }
  }

  // ---- what that covers ----

  /** Each section starts where the one before it ends. */
  predicate Tiles(s: seq<Section>, from: nat, to: nat) {
    if s == [] then from == to
    else
      var last := s[|s| - 1];
      last.size > 0 && to == last.pointer + last.size && Tiles(s[..|s| - 1], from, last.pointer)
  }

  lemma {:induction false} TilesAddUp(s: seq<Section>, from: nat, to: nat)
    requires Tiles(s, from, to)
    ensures from <= to && to == from + Total(s)
    ensures forall x :: x in s ==> from <= x.pointer < to
  {
    if s != [] {
      var (front, last) := (s[..|s| - 1], s[|s| - 1]);
      TilesAddUp(front, from, last.pointer);
      assert s == front + [last];
    }
  }

  lemma {:induction false} TilesAscend(s: seq<Section>, from: nat, to: nat)
    requires Tiles(s, from, to)
    ensures Ascending(s, Before)
  {
    if s != [] {
      var (front, last) := (s[..|s| - 1], s[|s| - 1]);
      TilesAddUp(front, from, last.pointer);
      TilesAscend(front, from, last.pointer);
      assert s == front + [last];
      AppendLarger(front, last);
    }
  }

  lemma {:induction false} AppendLarger(s: seq<Section>, last: Section)
    requires Ascending(s, Before) && forall x :: x in s ==> x.pointer < last.pointer
    ensures Ascending(s + [last], Before)
  {
    if s != [] {
      assert (s + [last])[1..] == s[1..] + [last];
      assert forall x :: x in s[1..] ==> x in s;
      AppendLarger(s[1..], last);
    } else {
      assert (s + [last])[1..] == [];
    }
  }

  lemma JoinSlices(pe: Bytes, a: nat, b: nat, c: nat)
    requires a <= b <= c <= |pe|
    ensures pe[a..b] + Slice(pe, b, c) == pe[a..c]
  {
  }

  lemma {:induction false} TilesCover(pe: Bytes, s: seq<Section>, from: nat, to: nat)
    requires Tiles(s, from, to) && to <= |pe|
    ensures from <= to && Raw(pe, s) == pe[from..to]
  {
    hide Slice;
    TilesAddUp(s, from, to);
    if s != [] {
      var (front, last) := (s[..|s| - 1], s[|s| - 1]);
      TilesAddUp(front, from, last.pointer);
      TilesCover(pe, front, from, last.pointer);
      JoinSlices(pe, from, last.pointer, to);
    }
  }

  /** However the table lists them, sections that tile are hashed in their order in the file. */
  lemma TableOrderDoesNotMatter(sections: seq<Section>, order: seq<Section>, from: nat, to: nat)
    requires multiset(order) == multiset(sections) && Tiles(order, from, to)
    ensures Sort(sections, Before) == order
  {
    hide Tiles, Ascending, IsOrder, Strict;
    BeforeIsAnOrder();
    SortIsAscending(sections, Before);
    TilesAscend(order, from, to);
    AscendingIsUnique(Sort(sections, Before), order, Before);
  }

  /**
   A well laid out image: its sections, in some order, tile the file from the end of the
   headers, and a certificate table, if any, is the tail of the file behind them.
   */
  ghost predicate WellLaid(pe: Bytes, l: Layout, sections: seq<Section>, order: seq<Section>, end: nat) {
    && ReadLayout(pe) == Ok(l) && ReadSections(pe, l.table, l.count) == Ok(sections)
    && l.certificateEntry + 8 <= l.headersSize
    && multiset(order) == multiset(sections) && Tiles(order, l.headersSize, end)
    && end + Certificate(l) <= |pe|
    && (l.certificateOffset != 0 ==> l.certificateOffset + l.certificateSize == |pe|)
  }

  /** The file but for the checksum, the certificate entry and the certificate table. */
  function WithoutThree(pe: Bytes, l: Layout): Bytes
    requires l.checksum + 4 <= l.certificateEntry && l.certificateEntry + 8 + Certificate(l) <= |pe|
  {
    (pe[..l.checksum] + pe[l.checksum + 4..l.certificateEntry]) + pe[l.certificateEntry + 8..|pe| - Certificate(l)]
  }

  lemma LayoutOrder(pe: Bytes)
    ensures ReadLayout(pe).Ok? ==> ReadLayout(pe).value.checksum + 4 <= ReadLayout(pe).value.certificateEntry
  {
    hide ReadInt, Slice;
  }

  /**
   The hashed bytes of every well laid out image, whatever the order of its section
   table, are exactly the file without its 4-byte checksum, its 8-byte certificate entry
   and its certificate table.
   */
  lemma HashCoversTheRest(pe: Bytes, l: Layout, sections: seq<Section>, order: seq<Section>, end: nat)
    requires WellLaid(pe, l, sections, order, end)
    ensures l.checksum + 4 <= l.certificateEntry && l.certificateEntry + 8 + Certificate(l) <= |pe|
    ensures Hashed(pe) == Ok(WithoutThree(pe, l))
  {
    hide ReadLayout, ReadSections, Tiles, Raw, Total, Sort;
    LayoutOrder(pe);
    TilesAddUp(order, l.headersSize, end);
    TableOrderDoesNotMatter(sections, order, l.headersSize, end);
    TilesCover(pe, order, l.headersSize, end);
    var certificate := Certificate(l);
    assert Trailing(pe, end, certificate) == pe[end..|pe| - certificate];
    PartsJoin(pe, l, end);
  }

  lemma PartsJoin(pe: Bytes, l: Layout, end: nat)
    requires l.checksum + 4 <= l.certificateEntry && l.certificateEntry + 8 <= l.headersSize <= end && end + Certificate(l) <= |pe|
    ensures (Headers(pe, l) + pe[l.headersSize..end]) + pe[end..|pe| - Certificate(l)] == WithoutThree(pe, l)
  {
    var (e, h, n) := (l.certificateEntry + 8, l.headersSize, |pe| - Certificate(l));
    assert pe[e..n] == (pe[e..h] + pe[h..end]) + pe[end..n];
    assert Headers(pe, l) == (pe[..l.checksum] + pe[l.checksum + 4..l.certificateEntry]) + pe[e..h];
    hide Headers;
  }
}
