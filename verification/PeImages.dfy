/**
 PE images, written field by field, and what `Authenticode` hashes of them. The walk finds
 its offsets by reading the image; here the image is printed from named parts ("Optional
 Header" and "Section Table" of the Microsoft PE format), so that what is left out of the
 hash is named by its part and not by an offset.
 */
module PeImages {
  import opened Outcomes
  import opened Text
  import opened Binary
  import opened Sorting
  import opened Authenticode

  /** A section header: name and virtual placement, raw data, and the fields behind. */
  datatype Header = Header(name: Bytes, size: nat, pointer: nat, rest: Bytes)

  /**
   An image. `plus` is PE32+; `standard` are the optional header's fields from behind the
   magic up to the size of the headers, `directories` those from behind the checksum up to
   the certificate entry, `more` those behind it. `body` is all that follows the section
   table, up to the certificate table at the end.
   */
  datatype Image = Image(
    dos: Bytes, stub: Bytes,
    machine: Bytes, symbols: Bytes, characteristics: Bytes,
    plus: bool, standard: Bytes, headersSize: nat, checksum: Bytes, directories: Bytes,
    certificateOffset: nat, certificateSize: nat, more: Bytes,
    sections: seq<Header>, body: Bytes, certificates: Bytes)

  ghost predicate WellFormedHeader(h: Header) {
    |h.name| == 16 && h.size < 0x1_0000_0000 && h.pointer < 0x1_0000_0000 && |h.rest| == 16
  }

  /** Each part has its size, and each integer fits its field. */
  ghost predicate WellFormed(i: Image) {
    && |i.dos| == 60 && |i.stub| < 0x1_0000
    && |i.machine| == 2 && |i.symbols| == 12 && |i.characteristics| == 2
    && |i.standard| == 58 && i.headersSize < 0x1_0000_0000 && |i.checksum| == 4
    && |i.directories| == (if i.plus then 76 else 60)
    && i.certificateOffset < 0x1_0000_0000 && i.certificateSize < 0x1_0000_0000
    && |i.sections| < 0x1_0000 && OptionalSize(i) < 0x1_0000
    && forall k :: 0 <= k < |i.sections| ==> WellFormedHeader(i.sections[k])
  }

  function OptionalSize(i: Image): nat {
    76 + |i.directories| + |i.more|
  }

  // ---- printing ----

  /** The DOS header and stub, and the signature. */
  function PrintStart(i: Image): Bytes {
    ((i.dos + LittleEndian(64 + |i.stub|, 4)) + i.stub) + "PE\0\0"
  }

  /** The COFF header: machine, number of sections, symbol fields, size of the optional header, characteristics. */
  function PrintCoff(i: Image): Bytes {
    (((i.machine + LittleEndian(|i.sections|, 2)) + i.symbols) + LittleEndian(OptionalSize(i), 2)) + i.characteristics
  }

  /** The optional header up to the checksum. */
  function PrintOptional(i: Image): Bytes {
    (LittleEndian(if i.plus then 0x20B else 0x10B, 2) + i.standard) + LittleEndian(i.headersSize, 4)
  }

  function PrintEntry(i: Image): Bytes {
    LittleEndian(i.certificateOffset, 4) + LittleEndian(i.certificateSize, 4)
  }

  function PrintHeader(h: Header): Bytes {
    ((h.name + LittleEndian(h.size, 4)) + LittleEndian(h.pointer, 4)) + h.rest
  }

  function PrintTable(sections: seq<Header>): Bytes {
    if sections == [] then [] else PrintTable(sections[..|sections| - 1]) + PrintHeader(sections[|sections| - 1])
  }

  /** What comes before the checksum. */
  function PrintFront(i: Image): Bytes {
    (PrintStart(i) + PrintCoff(i)) + PrintOptional(i)
  }

  /** What comes between the certificate entry and the certificate table. */
  function PrintBack(i: Image): Bytes {
    (i.more + PrintTable(i.sections)) + i.body
  }

  function Print(i: Image): Bytes {
    ((((PrintFront(i) + i.checksum) + i.directories) + PrintEntry(i)) + PrintBack(i)) + i.certificates
  }

  /** The image without its checksum, its certificate entry and its certificate table. */
  function PrintHashed(i: Image): Bytes {
    (PrintFront(i) + i.directories) + PrintBack(i)
  }

  // ---- reading what was printed ----

  /** Reading inside the first of two parts reads that part. */
  lemma ReadBefore(a: Bytes, b: Bytes, offset: nat, n: nat)
    requires offset + n <= |a|
    ensures ReadInt(a + b, offset, n) == ReadInt(a, offset, n)
  {
    assert (a + b)[offset..offset + n] == a[offset..offset + n];
  }

  lemma Sizes(i: Image)
    requires WellFormed(i)
    ensures |PrintStart(i)| == 68 + |i.stub| && |PrintCoff(i)| == 20 && |PrintOptional(i)| == 64 && |PrintEntry(i)| == 8
    ensures |PrintFront(i)| == 152 + |i.stub|
  {
    hide LittleEndian;
  }

  /** The field at the end of a first part, in any image that starts with both. */
  lemma ReadField(a: Bytes, x: nat, n: nat, b: Bytes, rest: Bytes, pe: Bytes)
    requires x < Pow256(n) && pe == ((a + LittleEndian(x, n)) + b) + rest
    ensures ReadInt(pe, |a|, n) == Some(x)
  {
    hide LittleEndian, ReadInt;
    assert pe == (a + LittleEndian(x, n)) + (b + rest);
    ReadPrinted(a, x, n, b + rest);
  }

  lemma StartReads(i: Image, rest: Bytes)
    requires WellFormed(i)
    ensures var pe := PrintStart(i) + rest;
            ReadInt(pe, 0x3C, 4) == Some(64 + |i.stub|) && Slice(pe, 64 + |i.stub|, 68 + |i.stub|) == "PE\0\0"
  {
    hide LittleEndian, ReadInt, Slice;
    Pow256Small();
    var pe := PrintStart(i) + rest;
    var n := LittleEndian(64 + |i.stub|, 4);
    assert pe == ((i.dos + n) + (i.stub + "PE\0\0")) + rest;
    ReadField(i.dos, 64 + |i.stub|, 4, i.stub + "PE\0\0", rest, pe);
    SlicePrinted((i.dos + n) + i.stub, "PE\0\0", rest);
  }

  lemma CoffReads(i: Image, before: Bytes, rest: Bytes)
    requires WellFormed(i)
    ensures var (pe, coff) := ((before + PrintCoff(i)) + rest, |before|);
            ReadInt(pe, coff + 2, 2) == Some(|i.sections|) && ReadInt(pe, coff + 16, 2) == Some(OptionalSize(i))
  {
    hide LittleEndian, ReadInt, OptionalSize;
    Pow256Small();
    var pe := (before + PrintCoff(i)) + rest;
    var (n, z) := (LittleEndian(|i.sections|, 2), LittleEndian(OptionalSize(i), 2));
    assert pe == (((before + i.machine) + n) + ((i.symbols + z) + i.characteristics)) + rest;
    ReadField(before + i.machine, |i.sections|, 2, (i.symbols + z) + i.characteristics, rest, pe);
    assert pe == (((((before + i.machine) + n) + i.symbols) + z) + i.characteristics) + rest;
    ReadField(((before + i.machine) + n) + i.symbols, OptionalSize(i), 2, i.characteristics, rest, pe);
  }

  lemma OptionalReads(i: Image, before: Bytes, rest: Bytes)
    requires WellFormed(i)
    ensures var (pe, optional) := ((before + PrintOptional(i)) + rest, |before|);
            && ReadInt(pe, optional, 2) == Some(if i.plus then 0x20B else 0x10B)
            && ReadInt(pe, optional + 60, 4) == Some(i.headersSize)
  {
    hide LittleEndian, ReadInt;
    Pow256Small();
    var pe := (before + PrintOptional(i)) + rest;
    var magic := if i.plus then 0x20B else 0x10B;
    var (m, h) := (LittleEndian(magic, 2), LittleEndian(i.headersSize, 4));
    assert pe == ((before + m) + (i.standard + h)) + rest;
    ReadField(before, magic, 2, i.standard + h, rest, pe);
    assert pe == ((((before + m) + i.standard) + h) + []) + rest;
    ReadField((before + m) + i.standard, i.headersSize, 4, [], rest, pe);
  }

  lemma EntryReads(i: Image, before: Bytes, rest: Bytes)
    requires WellFormed(i)
    ensures var (pe, entry) := ((before + PrintEntry(i)) + rest, |before|);
            ReadInt(pe, entry, 4) == Some(i.certificateOffset) && ReadInt(pe, entry + 4, 4) == Some(i.certificateSize)
  {
    hide LittleEndian, ReadInt;
    Pow256Small();
    var pe := (before + PrintEntry(i)) + rest;
    var (o, z) := (LittleEndian(i.certificateOffset, 4), LittleEndian(i.certificateSize, 4));
    assert pe == ((before + o) + z) + rest;
    ReadField(before, i.certificateOffset, 4, z, rest, pe);
    assert pe == (((before + o) + z) + []) + rest;
    ReadField(before + o, i.certificateSize, 4, [], rest, pe);
  }

  lemma HeaderReads(h: Header, before: Bytes, rest: Bytes)
    requires WellFormedHeader(h)
    ensures var (pe, at) := ((before + PrintHeader(h)) + rest, |before|);
            ReadInt(pe, at + 16, 4) == Some(h.size) && ReadInt(pe, at + 20, 4) == Some(h.pointer)
  {
    hide LittleEndian, ReadInt;
    Pow256Small();
    var pe := (before + PrintHeader(h)) + rest;
    var (z, p) := (LittleEndian(h.size, 4), LittleEndian(h.pointer, 4));
    assert pe == (((before + h.name) + z) + (p + h.rest)) + rest;
    ReadField(before + h.name, h.size, 4, p + h.rest, rest, pe);
    assert pe == ((((before + h.name) + z) + p) + h.rest) + rest;
    ReadField((before + h.name) + z, h.pointer, 4, h.rest, rest, pe);
  }

  /** The headers with raw data, as the walk keeps them. */
  function RawSections(sections: seq<Header>): seq<Section> {
    if sections == [] then []
    else
      var (before, last) := (RawSections(sections[..|sections| - 1]), sections[|sections| - 1]);
      if last.size == 0 then before else before + [Section(last.pointer, last.size)]
  }

  lemma TableSize(sections: seq<Header>)
    requires forall k :: 0 <= k < |sections| ==> WellFormedHeader(sections[k])
    ensures |PrintTable(sections)| == 40 * |sections|
  {
    hide LittleEndian;
  }

  /** The table gives back every section with raw data, with its size and its pointer. */
  lemma {:induction false} TableReads(sections: seq<Header>, before: Bytes, rest: Bytes)
    requires forall k :: 0 <= k < |sections| ==> WellFormedHeader(sections[k])
    ensures ReadSections((before + PrintTable(sections)) + rest, |before|, |sections|) == Ok(RawSections(sections))
    decreases |sections|
  {
    hide ReadInt, WellFormedHeader, PrintHeader;
    if sections != [] {
      var (front, last) := (sections[..|sections| - 1], sections[|sections| - 1]);
      var pe := (before + PrintTable(sections)) + rest;
      assert pe == (before + PrintTable(front)) + (PrintHeader(last) + rest);
      TableReads(front, before, PrintHeader(last) + rest);
      assert pe == ((before + PrintTable(front)) + PrintHeader(last)) + rest;
      TableSize(front);
      HeaderReads(last, before + PrintTable(front), rest);
    }
  }

  /** Every field the walk needs is read back from where it was printed, for both kinds of optional header. */
  lemma LayoutRoundTrip(i: Image)
    requires WellFormed(i)
    ensures ReadLayout(Print(i)) == Ok(LayoutOf(i))
  {
    var pe := Print(i);
    var (start, coff, optional, entry) := (PrintStart(i), PrintCoff(i), PrintOptional(i), PrintEntry(i));
    var behind := PrintBack(i) + i.certificates;
    var rest := ((i.checksum + i.directories) + entry) + behind;
    Sizes(i);
    ImageParts(i);
    StartReads(i, (coff + optional) + rest);
    CoffReads(i, start, optional + rest);
    OptionalReads(i, start + coff, rest);
    EntryReads(i, (PrintFront(i) + i.checksum) + i.directories, behind);
    hide Print, PrintStart, PrintCoff, PrintOptional, PrintEntry, PrintFront, PrintBack, ReadInt, Slice, WellFormed;
    LayoutSizes(i);
  }

  lemma LayoutSizes(i: Image)
    requires WellFormed(i)
    ensures |i.directories| == (if i.plus then 76 else 60) && |i.checksum| == 4 && OptionalSize(i) == 76 + |i.directories| + |i.more|
  {
  }

  lemma ImageParts(i: Image)
    ensures var (start, coff, optional, entry) := (PrintStart(i), PrintCoff(i), PrintOptional(i), PrintEntry(i));
            var behind := PrintBack(i) + i.certificates;
            var rest := ((i.checksum + i.directories) + entry) + behind;
            && Print(i) == start + ((coff + optional) + rest)
            && Print(i) == (start + coff) + (optional + rest)
            && Print(i) == ((start + coff) + optional) + rest
            && Print(i) == (((PrintFront(i) + i.checksum) + i.directories) + entry) + behind
  {
    hide PrintStart, PrintCoff, PrintOptional, PrintEntry, PrintBack;
  }

  lemma TableParts(h: Bytes, m: Bytes, t: Bytes, b: Bytes, c: Bytes)
    ensures (h + ((m + t) + b)) + c == ((h + m) + t) + (b + c)
  {
  }

  lemma SectionsRoundTrip(i: Image)
    requires WellFormed(i)
    ensures ReadSections(Print(i), |PrintFront(i)| + 12 + |i.directories| + |i.more|, |i.sections|) == Ok(RawSections(i.sections))
  {
    Sizes(i);
    hide PrintFront, PrintEntry, PrintTable, ReadSections, RawSections;
    var head := ((PrintFront(i) + i.checksum) + i.directories) + PrintEntry(i);
    var before := head + i.more;
    TableParts(head, i.more, PrintTable(i.sections), i.body, i.certificates);
    TableReads(i.sections, before, i.body + i.certificates);
  }

  // ---- what is hashed of an image ----

  /**
   A well laid out image: the headers' size reaches past the certificate entry; its sections,
   in some order, tile the file from there; its certificate table, if it has one, is the
   tail of the file its entry says, and otherwise there is none.
   */
  ghost predicate WellLaidOut(i: Image, order: seq<Section>, end: nat) {
    && WellFormed(i)
    && |PrintFront(i)| + 12 + |i.directories| <= i.headersSize
    && multiset(order) == multiset(RawSections(i.sections)) && Tiles(order, i.headersSize, end)
    && end + |i.certificates| <= |Print(i)|
    && (i.certificateOffset == 0 ==> i.certificates == [])
    && (i.certificateOffset != 0 ==>
          |i.certificates| == i.certificateSize && i.certificateOffset + i.certificateSize == |Print(i)|)
  }

  /**
   The hash of every such image covers exactly the image without its checksum, its
   certificate entry and its certificate table: all its other parts, in order.
   */
  lemma HashLeavesOutThreeParts(i: Image, order: seq<Section>, end: nat)
    requires WellLaidOut(i, order, end)
    ensures Hashed(Print(i)) == Ok(PrintHashed(i))
  {
    PrintedIsWellLaid(i, order, end);
    WithoutThreeIs(i, order, end);
    hide WellLaid, WellLaidOut, Hashed, WithoutThree, LayoutOf, Print, PrintHashed;
    HashCoversTheRest(Print(i), LayoutOf(i), RawSections(i.sections), order, end);
  }

  /** Where the parts stand. */
  function LayoutOf(i: Image): Layout {
    var front := |PrintFront(i)|;
    Layout(front, front + 4 + |i.directories|, i.headersSize, i.certificateOffset, i.certificateSize,
           front + 12 + |i.directories| + |i.more|, |i.sections|)
  }

  lemma PrintedIsWellLaid(i: Image, order: seq<Section>, end: nat)
    requires WellLaidOut(i, order, end)
    ensures WellLaid(Print(i), LayoutOf(i), RawSections(i.sections), order, end)
  {
    hide ReadLayout, ReadSections, PrintFront, Print, Tiles, RawSections, WellFormed;
    LayoutRoundTrip(i);
    SectionsOf(i);
    WellLaidFacts(Print(i), LayoutOf(i), RawSections(i.sections), order, end, |i.certificates|);
  }

  lemma SectionsOf(i: Image)
    requires WellFormed(i)
    ensures ReadSections(Print(i), LayoutOf(i).table, LayoutOf(i).count) == Ok(RawSections(i.sections))
  {
    SectionsRoundTrip(i);
    hide ReadSections, PrintFront, Print, RawSections;
  }

  lemma WellLaidFacts(pe: Bytes, l: Layout, sections: seq<Section>, order: seq<Section>, end: nat, tail: nat)
    requires ReadLayout(pe) == Ok(l) && ReadSections(pe, l.table, l.count) == Ok(sections)
    requires l.certificateEntry + 8 <= l.headersSize && multiset(order) == multiset(sections) && Tiles(order, l.headersSize, end)
    requires end + tail <= |pe| && tail == (if l.certificateOffset != 0 then l.certificateSize else 0)
    requires l.certificateOffset != 0 ==> l.certificateOffset + l.certificateSize == |pe|
    ensures WellLaid(pe, l, sections, order, end)
  {
    hide ReadLayout, ReadSections, Tiles;
  }

  lemma WithoutThreeIs(i: Image, order: seq<Section>, end: nat)
    requires WellLaidOut(i, order, end)
    ensures var l := LayoutOf(i);
            && l.checksum + 4 <= l.certificateEntry && l.certificateEntry + 8 + Certificate(l) <= |Print(i)|
            && WithoutThree(Print(i), l) == PrintHashed(i)
  {
    Sizes(i);
    hide PrintFront, PrintBack, PrintEntry, Tiles, RawSections;
    LayoutSizes(i);
    hide WellFormed;
    ThreePartsOut(PrintFront(i), i.checksum, i.directories, PrintEntry(i), PrintBack(i), i.certificates);
  }

  lemma ThreePartsOut(f: Bytes, c: Bytes, d: Bytes, e: Bytes, b: Bytes, t: Bytes)
    requires |c| == 4 && |e| == 8
    ensures var pe := ((((f + c) + d) + e) + b) + t;
            && pe[..|f|] == f && pe[|f| + 4..|f| + 4 + |d|] == d && pe[|f| + 12 + |d|..|pe| - |t|] == b
  {
  }
}
