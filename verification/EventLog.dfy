/**
 The CCEL event log (scripts/attestation/shared/tdx_event_log.py): a spec header and
 then TCG_PCR_EVENT2 records ("Crypto Agile Log Entry Format" of the TCG PC Client
 Platform Firmware Profile), parsed with the script's own errors, replayed into the
 registers, and compared.
 */
module EventLog {
  import opened Outcomes
  import opened Text
  import opened Binary

  const SHA384_ALG: nat := 0x000C
  const NO_ACTION: nat := 0x00000003

  type Sizes = map<nat, nat>

  /** One event as parsed: its SHA-384 digest, or nothing if it has none. */
  datatype Event = Event(index: nat, mr: nat, kind: nat, digest: Bytes, data: Bytes)

  /** Too few bytes for a field, or a digest of an algorithm the header does not size. */
  datatype ParseError = ShortLog | UnknownAlgorithm(alg: nat)

  predicate IsPadding(kind: nat) {
    kind == 0x00000000 || kind == 0xFFFFFFFF
  }

  // ---- what parsing means ----

  /** The digest sizes listed from entry `i` on; the last entry for an algorithm stands. */
  function ReadSizes(header: Bytes, i: nat, count: nat, sizes: Sizes): Result<Sizes, ParseError>
    requires i <= count
    decreases count - i
  {
    if i == count then Ok(sizes)
    else
      var alg, size := ReadInt(header, 28 + 4 * i, 2), ReadInt(header, 28 + 4 * i + 2, 2);
      if alg.None? || size.None? then Err(ShortLog)
      else ReadSizes(header, i + 1, count, sizes[alg.value := size.value])
  }

  /** The digest sizes, and where the events start. */
  function ReadHeader(raw: Bytes): Result<(Sizes, nat), ParseError> {
    var size := ReadInt(raw, 28, 4);
    if |raw| < 8 || size.None? then Err(ShortLog)
    else
      var header := Slice(raw, 32, 32 + size.value);
      var algorithms := ReadInt(header, 24, 4);
      if algorithms.None? then Err(ShortLog)
      else
        match ReadSizes(header, 0, algorithms.value, map[])
        case Ok(sizes) => Ok((sizes, 32 + size.value))
        case Err(e) => Err(e)
  }

  /** `count` digests from an offset: each algorithm's last digest, and where they end. */
  function ReadDigests(raw: Bytes, offset: nat, count: nat, sizes: Sizes, digests: map<nat, Bytes>): Result<(map<nat, Bytes>, nat), ParseError>
    decreases count
  {
    if count == 0 then Ok((digests, offset))
    else
      var alg := ReadInt(raw, offset, 2);
      if alg.None? then Err(ShortLog)
      else if alg.value !in sizes then Err(UnknownAlgorithm(alg.value))
      else
        var end := offset + 2 + sizes[alg.value];
        ReadDigests(raw, end, count - 1, sizes, digests[alg.value := Slice(raw, offset + 2, end)])
  }

  lemma {:induction false} DigestsMoveOn(raw: Bytes, offset: nat, count: nat, sizes: Sizes, digests: map<nat, Bytes>)
    requires ReadDigests(raw, offset, count, sizes, digests).Ok?
    ensures ReadDigests(raw, offset, count, sizes, digests).value.1 >= offset
    decreases count
  {
    if count > 0 {
      var alg := ReadInt(raw, offset, 2).value;
      var end := offset + 2 + sizes[alg];
      DigestsMoveOn(raw, end, count - 1, sizes, digests[alg := Slice(raw, offset + 2, end)]);
    }
  }

  /** One event at an offset, and where it ends; its data is cut off at the end of the log. */
  function ReadEvent(raw: Bytes, offset: nat, sizes: Sizes, index: nat): (r: Result<(Event, nat), ParseError>)
    requires offset + 12 <= |raw|
    ensures r.Ok? ==> r.value.1 >= offset + 16
  {
    var mr, kind, count := ReadInt(raw, offset, 4).value, ReadInt(raw, offset + 4, 4).value, ReadInt(raw, offset + 8, 4).value;
    var digests := ReadDigests(raw, offset + 12, count, sizes, map[]);
    if digests.Err? then Err(digests.error)
    else
      DigestsMoveOn(raw, offset + 12, count, sizes, map[]);
      var (found, at) := digests.value;
      var size := ReadInt(raw, at, 4);
      if size.None? then Err(ShortLog)
      else
        Ok((Event(index, mr, kind, if SHA384_ALG in found then found[SHA384_ALG] else [], Slice(raw, at + 4, at + 4 + size.value)),
            at + 4 + size.value))
  }

  /** The events from an offset, up to the padding or the end. */
  function ReadEvents(raw: Bytes, offset: nat, sizes: Sizes, index: nat): Result<seq<Event>, ParseError>
    decreases |raw| - offset
  {
    if offset + 12 > |raw| || IsPadding(ReadInt(raw, offset + 4, 4).value) then Ok([])
    else
      match ReadEvent(raw, offset, sizes, index)
      case Err(e) => Err(e)
      case Ok((event, end)) =>
        match ReadEvents(raw, end, sizes, index + 1)
        case Err(e) => Err(e)
        case Ok(rest) => Ok([event] + rest)
  }

  function Parsed(raw: Bytes): Result<seq<Event>, ParseError> {
    match ReadHeader(raw)
    case Err(e) => Err(e)
    case Ok((sizes, offset)) => ReadEvents(raw, offset, sizes, 0)
  }

  // ---- the parser, with the script's loops ----

  lemma ReadEventsOnce(raw: Bytes, offset: nat, sizes: Sizes, index: nat, done: seq<Event>)
    requires offset + 12 <= |raw| && !IsPadding(ReadInt(raw, offset + 4, 4).value)
    requires ReadEvent(raw, offset, sizes, index).Ok?
    ensures var (event, end) := ReadEvent(raw, offset, sizes, index).value;
            After(done, ReadEvents(raw, offset, sizes, index)) == After(done + [event], ReadEvents(raw, end, sizes, index + 1))
  {
    hide ReadEvent, ReadInt;
    var (event, end) := ReadEvent(raw, offset, sizes, index).value;
    if ReadEvents(raw, end, sizes, index + 1).Ok? {
      var rest := ReadEvents(raw, end, sizes, index + 1).value;
      assert done + ([event] + rest) == (done + [event]) + rest;
    }
  }

  function After(done: seq<Event>, rest: Result<seq<Event>, ParseError>): Result<seq<Event>, ParseError> {
    if rest.Ok? then Ok(done + rest.value) else rest
  }

  /** The sizes in the header, one entry at a time. */
  method ParseSizes(header: Bytes, count: nat) returns (r: Result<Sizes, ParseError>)
    ensures r == ReadSizes(header, 0, count, map[])
  {
    var sizes: Sizes := map[];
    for i := 0 to count
      invariant ReadSizes(header, i, count, sizes) == ReadSizes(header, 0, count, map[])
    {
      var alg, size := ReadInt(header, 28 + 4 * i, 2), ReadInt(header, 28 + 4 * i + 2, 2);
      if alg.None? || size.None? {
        return Err(ShortLog);
      }
      sizes := sizes[alg.value := size.value];
    }
    r := Ok(sizes);
  }

  /** One event's digests, advancing the offset past each. */
  method ParseDigests(raw: Bytes, start: nat, count: nat, sizes: Sizes) returns (r: Result<(map<nat, Bytes>, nat), ParseError>)
    ensures r == ReadDigests(raw, start, count, sizes, map[])
  {
    var offset: nat := start;
    var digests: map<nat, Bytes> := map[];
    for i := 0 to count
      invariant ReadDigests(raw, offset, count - i, sizes, digests) == ReadDigests(raw, start, count, sizes, map[])
    {
      var alg := ReadInt(raw, offset, 2);
      if alg.None? {
        return Err(ShortLog);
      }
      if alg.value !in sizes {
        return Err(UnknownAlgorithm(alg.value));
      }
      var size := sizes[alg.value];
      digests := digests[alg.value := Slice(raw, offset + 2, offset + 2 + size)];
      offset := offset + 2 + size;
    }
    r := Ok((digests, offset));
  }

  /** The log's events, or the first error met. Always ends: every event moves on by 16 bytes or more. */
  method Parse(raw: Bytes) returns (r: Result<seq<Event>, ParseError>)
    ensures r == Parsed(raw)
  {
    hide ReadInt, Slice, ReadDigests;
    var headerSize := ReadInt(raw, 28, 4);
    if |raw| < 8 || headerSize.None? {
      return Err(ShortLog);
    }
    var header := Slice(raw, 32, 32 + headerSize.value);
    var offset := 32 + headerSize.value;
    var algorithms := ReadInt(header, 24, 4);
    if algorithms.None? {
      return Err(ShortLog);
    }
    var sizes := ParseSizes(header, algorithms.value);
    if sizes.Err? {
      return Err(sizes.error);
    }
    r := ParseEvents(raw, offset, sizes.value);
  }

  lemma EventsEnd(raw: Bytes, offset: nat, sizes: Sizes, index: nat, events: seq<Event>)
    requires offset + 12 > |raw| || IsPadding(ReadInt(raw, offset + 4, 4).value)
    ensures After(events, ReadEvents(raw, offset, sizes, index)) == Ok(events)
  {
    assert events + [] == events;
  }

  lemma EventFails(raw: Bytes, offset: nat, sizes: Sizes, index: nat, events: seq<Event>)
    requires offset + 12 <= |raw| && !IsPadding(ReadInt(raw, offset + 4, 4).value)
    requires ReadEvent(raw, offset, sizes, index).Err?
    ensures After(events, ReadEvents(raw, offset, sizes, index)) == Err(ReadEvent(raw, offset, sizes, index).error)
  {
    hide ReadEvent, ReadInt;
  }

  /** One event: its fields in turn, each moving the offset on. */
  method ParseEvent(raw: Bytes, start: nat, sizes: Sizes, index: nat) returns (r: Result<(Event, nat), ParseError>)
    requires start + 12 <= |raw|
    ensures r == ReadEvent(raw, start, sizes, index)
  {
    hide ReadInt, Slice, ReadDigests;
    var offset: nat := start;
    ReadFits(raw, offset);
    var mr, kind, count := ReadInt(raw, offset, 4).value, ReadInt(raw, offset + 4, 4).value, ReadInt(raw, offset + 8, 4).value;
    offset := offset + 12;
    var digests := ParseDigests(raw, offset, count, sizes);
    if digests.Err? {
      return Err(digests.error);
    }
    offset := digests.value.1;
    var size := ReadInt(raw, offset, 4);
    if size.None? {
      return Err(ShortLog);
    }
    offset := offset + 4;
    var data := Slice(raw, offset, offset + size.value);
    offset := offset + size.value;
    var found := digests.value.0;
    r := Ok((Event(index, mr, kind, if SHA384_ALG in found then found[SHA384_ALG] else [], data), offset));
  }

  lemma ReadFits(raw: Bytes, offset: nat)
    requires offset + 12 <= |raw|
    ensures ReadInt(raw, offset, 4).Some? && ReadInt(raw, offset + 4, 4).Some? && ReadInt(raw, offset + 8, 4).Some?
  {
  }

  method ParseEvents(raw: Bytes, start: nat, sizes: Sizes) returns (r: Result<seq<Event>, ParseError>)
    ensures r == ReadEvents(raw, start, sizes, 0)
  {
    hide ReadInt, ReadEvents, ReadEvent;
    var offset, index, events := start, 0, [];
    NothingYet(ReadEvents(raw, start, sizes, 0));
    while offset + 12 <= |raw|
      invariant After(events, ReadEvents(raw, offset, sizes, index)) == ReadEvents(raw, start, sizes, 0)
      decreases |raw| - offset
    {
      ReadFits(raw, offset);
      if IsPadding(ReadInt(raw, offset + 4, 4).value) {
        break;
      }
      var event := ParseEvent(raw, offset, sizes, index);
      if event.Err? {
        EventFails(raw, offset, sizes, index, events);
        return Err(event.error);
      }
      ReadEventsOnce(raw, offset, sizes, index, events);
      events, offset, index := events + [event.value.0], event.value.1, index + 1;
    }
    EventsEnd(raw, offset, sizes, index, events);
    r := Ok(events);
  }

  lemma NothingYet(rest: Result<seq<Event>, ParseError>)
    ensures After([], rest) == rest
  {
    if rest.Ok? {
      assert [] + rest.value == rest.value;
    }
  }

  // ---- printing a log ----

  datatype Digest = Digest(alg: nat, bytes: Bytes)
  datatype Record = Record(mr: nat, kind: nat, digests: seq<Digest>, data: Bytes)
  datatype Size = Size(alg: nat, size: nat)

  /** A log: the SHA-1-format first record's start, its spec fields, the sizes, vendor data, the records. */
  datatype Log = Log(start: Bytes, spec: Bytes, sizes: seq<Size>, vendor: Bytes, records: seq<Record>)

  function SizesOf(sizes: seq<Size>): Sizes {
    if sizes == [] then map[]
    else SizesOf(sizes[..|sizes| - 1])[sizes[|sizes| - 1].alg := sizes[|sizes| - 1].size]
  }

  function PrintSizes(sizes: seq<Size>): (r: Bytes)
    ensures |r| == 4 * |sizes|
  {
    if sizes == [] then []
    else (PrintSizes(sizes[..|sizes| - 1]) + LittleEndian(sizes[|sizes| - 1].alg, 2)) + LittleEndian(sizes[|sizes| - 1].size, 2)
  }

  function PrintDigests(digests: seq<Digest>): Bytes {
    if digests == [] then [] else LittleEndian(digests[0].alg, 2) + (digests[0].bytes + PrintDigests(digests[1..]))
  }

  function PrintRecord(r: Record): Bytes {
    LittleEndian(r.mr, 4) + (LittleEndian(r.kind, 4) + (LittleEndian(|r.digests|, 4)
      + (PrintDigests(r.digests) + (LittleEndian(|r.data|, 4) + r.data))))
  }

  function PrintRecords(records: seq<Record>): Bytes {
    if records == [] then [] else PrintRecord(records[0]) + PrintRecords(records[1..])
  }

  function PrintHeader(log: Log): Bytes {
    (log.spec + LittleEndian(|log.sizes|, 4)) + (PrintSizes(log.sizes) + log.vendor)
  }

  function Print(log: Log): Bytes {
    ((log.start + LittleEndian(|PrintHeader(log)|, 4)) + PrintHeader(log)) + PrintRecords(log.records)
  }

  ghost predicate WellFormedRecord(r: Record, sizes: Sizes) {
    && r.mr < 0x1_0000_0000 && r.kind < 0x1_0000_0000 && r.kind != 0x00000000 && r.kind != 0xFFFFFFFF
    && |r.digests| < 0x1_0000_0000 && |r.data| < 0x1_0000_0000
    && forall k :: 0 <= k < |r.digests| ==>
       r.digests[k].alg < 0x1_0000 && r.digests[k].alg in sizes && |r.digests[k].bytes| == sizes[r.digests[k].alg]
  }

  ghost predicate WellFormed(log: Log) {
    && |log.start| == 28 && |log.spec| == 24
    && |PrintHeader(log)| < 0x1_0000_0000 && |log.sizes| < 0x1_0000_0000
    && (forall k :: 0 <= k < |log.sizes| ==> log.sizes[k].alg < 0x1_0000 && log.sizes[k].size < 0x1_0000)
    && forall k :: 0 <= k < |log.records| ==> WellFormedRecord(log.records[k], SizesOf(log.sizes))
  }

  /** What may follow the last event: too short for another, or a record that starts as padding. */
  ghost predicate Padding(tail: Bytes) {
    |tail| < 12 || ReadInt(tail, 4, 4).value in {0x00000000, 0xFFFFFFFF}
  }

  function DigestMap(digests: seq<Digest>, found: map<nat, Bytes>): map<nat, Bytes> {
    if digests == [] then found else DigestMap(digests[1..], found[digests[0].alg := digests[0].bytes])
  }

  /** The event a record is parsed as. */
  function EventOf(r: Record, index: nat): Event {
    var found := DigestMap(r.digests, map[]);
    Event(index, r.mr, r.kind, if 0x000C in found then found[0x000C] else [], r.data)
  }

  lemma {:induction false} NoSha384Digest(digests: seq<Digest>, found: map<nat, Bytes>)
    requires forall k :: 0 <= k < |digests| ==> digests[k].alg != 0x000C
    ensures var after := DigestMap(digests, found);
            (0x000C in after <==> 0x000C in found) && (0x000C in after ==> after[0x000C] == found[0x000C])
    decreases |digests|
  {
    if digests != [] {
      NoSha384Digest(digests[1..], found[digests[0].alg := digests[0].bytes]);
    }
  }

  predicate LastSha384(digests: seq<Digest>, k: nat)
    requires k < |digests|
  {
    digests[k].alg == 0x000C && forall j :: k < j < |digests| ==> digests[j].alg != 0x000C
  }

  lemma {:induction false} Sha384DigestStands(digests: seq<Digest>, found: map<nat, Bytes>, k: nat)
    requires k < |digests| && LastSha384(digests, k)
    ensures 0x000C in DigestMap(digests, found) && DigestMap(digests, found)[0x000C] == digests[k].bytes
    decreases |digests|
  {
    var (rest, after) := (digests[1..], found[digests[0].alg := digests[0].bytes]);
    if k == 0 {
      NoSha384Digest(rest, after);
    } else {
      Sha384DigestStands(rest, after, k - 1);
    }
  }

  /** An event's digest is the last one its record lists for SHA-384 (algorithm 0x000C), or none; its other fields are the record's. */
  lemma EventIsTheRecord(r: Record, index: nat)
    ensures var e := EventOf(r, index);
            && e.index == index && e.mr == r.mr && e.kind == r.kind && e.data == r.data
            && ((forall k :: 0 <= k < |r.digests| ==> r.digests[k].alg != 0x000C) ==> e.digest == [])
            && forall k :: 0 <= k < |r.digests| && LastSha384(r.digests, k) ==> e.digest == r.digests[k].bytes
  {
    hide DigestMap;
    if forall k :: 0 <= k < |r.digests| ==> r.digests[k].alg != 0x000C {
      NoSha384Digest(r.digests, map[]);
    }
    forall k | 0 <= k < |r.digests| && LastSha384(r.digests, k)
      ensures EventOf(r, index).digest == r.digests[k].bytes
    {
      Sha384DigestStands(r.digests, map[], k);
    }
  }

  function EventsOf(records: seq<Record>, index: nat): seq<Event> {
    if records == [] then [] else [EventOf(records[0], index)] + EventsOf(records[1..], index + 1)
  }

  // ---- the round trip ----

  lemma {:induction false} DigestsRoundTrip(before: Bytes, digests: seq<Digest>, tail: Bytes, sizes: Sizes, found: map<nat, Bytes>)
    requires forall k :: 0 <= k < |digests| ==>
               digests[k].alg < 0x1_0000 && digests[k].alg in sizes && |digests[k].bytes| == sizes[digests[k].alg]
    ensures ReadDigests(before + (PrintDigests(digests) + tail), |before|, |digests|, sizes, found)
            == Ok((DigestMap(digests, found), |before| + |PrintDigests(digests)|))
    decreases |digests|
  {
    hide ReadInt, Slice, LittleEndian;
    if digests != [] {
      var (d, rest) := (digests[0], digests[1..]);
      var (a, p) := (LittleEndian(d.alg, 2), PrintDigests(rest));
      DigestParts(before, a, d.bytes, p, tail);
      Pow256Small();
      ReadPrinted(before, d.alg, 2, d.bytes + (p + tail));
      SlicePrinted(before + a, d.bytes, p + tail);
      DigestsRoundTrip((before + a) + d.bytes, rest, tail, sizes, found[d.alg := d.bytes]);
    }
  }

  lemma DigestParts(b: Bytes, a: Bytes, d: Bytes, p: Bytes, t: Bytes)
    ensures b + ((a + (d + p)) + t) == (b + a) + (d + (p + t))
    ensures (b + a) + (d + (p + t)) == ((b + a) + d) + (p + t)
  {
  }

  lemma RecordParts(before: Bytes, r: Record, tail: Bytes)
    ensures var raw := before + (PrintRecord(r) + tail);
            var (m, k, c, n) := (LittleEndian(r.mr, 4), LittleEndian(r.kind, 4), LittleEndian(|r.digests|, 4), LittleEndian(|r.data|, 4));
            var d := PrintDigests(r.digests);
            && raw == (before + m) + (k + (c + (d + (n + (r.data + tail)))))
            && raw == ((before + m) + k) + (c + (d + (n + (r.data + tail))))
            && raw == (((before + m) + k) + c) + (d + (n + (r.data + tail)))
            && raw == (((((before + m) + k) + c) + d) + n) + (r.data + tail)
            && raw == ((((((before + m) + k) + c) + d) + n) + r.data) + tail
  {
    hide LittleEndian, PrintDigests;
    var (m, k, c, n) := (LittleEndian(r.mr, 4), LittleEndian(r.kind, 4), LittleEndian(|r.digests|, 4), LittleEndian(|r.data|, 4));
    Concatenate(before, m, k, c, PrintDigests(r.digests), n, r.data, tail);
  }

  lemma Concatenate(b: Bytes, m: Bytes, k: Bytes, c: Bytes, d: Bytes, n: Bytes, x: Bytes, t: Bytes)
    ensures b + ((m + (k + (c + (d + (n + x))))) + t) == (b + m) + (k + (c + (d + (n + (x + t)))))
    ensures (b + m) + (k + (c + (d + (n + (x + t))))) == ((b + m) + k) + (c + (d + (n + (x + t))))
    ensures ((b + m) + k) + (c + (d + (n + (x + t)))) == (((b + m) + k) + c) + (d + (n + (x + t)))
    ensures (((b + m) + k) + c) + (d + (n + (x + t))) == (((((b + m) + k) + c) + d) + n) + (x + t)
    ensures (((((b + m) + k) + c) + d) + n) + (x + t) == ((((((b + m) + k) + c) + d) + n) + x) + t
  {
  }

  lemma RecordRoundTrip(before: Bytes, r: Record, tail: Bytes, sizes: Sizes, index: nat)
    requires WellFormedRecord(r, sizes)
    ensures var raw := before + (PrintRecord(r) + tail);
            && |before| + 12 <= |raw|
            && ReadInt(raw, |before| + 4, 4) == Some(r.kind)
            && ReadEvent(raw, |before|, sizes, index) == Ok((EventOf(r, index), |before| + |PrintRecord(r)|))
  {
    hide ReadInt, Slice, LittleEndian, PrintDigests, ReadDigests, DigestMap;
    var raw := before + (PrintRecord(r) + tail);
    var (m, k, c, n) := (LittleEndian(r.mr, 4), LittleEndian(r.kind, 4), LittleEndian(|r.digests|, 4), LittleEndian(|r.data|, 4));
    var d := PrintDigests(r.digests);
    RecordParts(before, r, tail);
    hide PrintRecord;
    Pow256Small();
    ReadPrinted(before, r.mr, 4, k + (c + (d + (n + (r.data + tail)))));
    ReadPrinted(before + m, r.kind, 4, c + (d + (n + (r.data + tail))));
    ReadPrinted((before + m) + k, |r.digests|, 4, d + (n + (r.data + tail)));
    DigestsRoundTrip(((before + m) + k) + c, r.digests, n + (r.data + tail), sizes, map[]);
    ReadPrinted((((before + m) + k) + c) + d, |r.data|, 4, r.data + tail);
    SlicePrinted(((((before + m) + k) + c) + d) + n, r.data, tail);
    RecordLength(r);
  }

  lemma RecordLength(r: Record)
    ensures |PrintRecord(r)| == 16 + |PrintDigests(r.digests)| + |r.data|
  {
  }

  lemma {:induction false} RecordsRoundTrip(before: Bytes, records: seq<Record>, tail: Bytes, sizes: Sizes, index: nat)
    requires Padding(tail) && forall k :: 0 <= k < |records| ==> WellFormedRecord(records[k], sizes)
    ensures ReadEvents(before + (PrintRecords(records) + tail), |before|, sizes, index) == Ok(EventsOf(records, index))
    decreases |records|
  {
    hide ReadInt, ReadEvent, PrintRecord, WellFormedRecord;
    if records == [] {
      assert before + (PrintRecords(records) + tail) == before + tail;
      ReadPast(before, tail, 4, 4);
    } else {
      var (r, rest) := (records[0], records[1..]);
      var more := PrintRecords(rest) + tail;
      var raw := before + (PrintRecords(records) + tail);
      assert raw == before + (PrintRecord(r) + more);
      assert raw == (before + PrintRecord(r)) + more;
      RecordRoundTrip(before, r, more, sizes, index);
      KindIsNoPadding(r, sizes);
      RecordsRoundTrip(before + PrintRecord(r), rest, tail, sizes, index + 1);
    }
  }

  lemma KindIsNoPadding(r: Record, sizes: Sizes)
    requires WellFormedRecord(r, sizes)
    ensures !IsPadding(r.kind)
  {
  }

  lemma {:induction false} SizesRoundTrip(before: Bytes, sizes: seq<Size>, i: nat, tail: Bytes)
    requires |before| == 28 && i <= |sizes|
    requires forall k :: 0 <= k < |sizes| ==> sizes[k].alg < 0x1_0000 && sizes[k].size < 0x1_0000
    ensures ReadSizes(before + (PrintSizes(sizes) + tail), i, |sizes|, SizesOf(sizes[..i])) == Ok(SizesOf(sizes))
    decreases |sizes| - i
  {
    if i == |sizes| {
      assert sizes[..i] == sizes;
    } else {
      SizesRoundTrip(before, sizes, i + 1, tail);
      ReadSize(before, sizes, i, tail);
      assert sizes[..i + 1][..i] == sizes[..i];
    }
  }

  lemma {:induction false} PrintedSizesSplit(sizes: seq<Size>, i: nat)
    requires i < |sizes|
    ensures exists rest: Bytes :: PrintSizes(sizes)
                                  == ((PrintSizes(sizes[..i]) + LittleEndian(sizes[i].alg, 2)) + LittleEndian(sizes[i].size, 2)) + rest
    decreases |sizes|
  {
    hide LittleEndian;
    var front := sizes[..|sizes| - 1];
    var head := (PrintSizes(sizes[..i]) + LittleEndian(sizes[i].alg, 2)) + LittleEndian(sizes[i].size, 2);
    if i == |sizes| - 1 {
      assert PrintSizes(sizes) == head + [];
    } else {
      PrintedSizesSplit(front, i);
      assert front[..i] == sizes[..i];
      var rest: Bytes :| PrintSizes(front) == head + rest;
      var last := sizes[|sizes| - 1];
      assert PrintSizes(sizes) == head + ((rest + LittleEndian(last.alg, 2)) + LittleEndian(last.size, 2));
    }
  }

  lemma ReadSize(before: Bytes, sizes: seq<Size>, i: nat, tail: Bytes)
    requires |before| == 28 && i < |sizes| && sizes[i].alg < 0x1_0000 && sizes[i].size < 0x1_0000
    ensures ReadInt(before + (PrintSizes(sizes) + tail), 28 + 4 * i, 2) == Some(sizes[i].alg)
    ensures ReadInt(before + (PrintSizes(sizes) + tail), 28 + 4 * i + 2, 2) == Some(sizes[i].size)
  {
    hide ReadInt, LittleEndian, PrintSizes;
    PrintedSizesSplit(sizes, i);
    var (p, a, z) := (PrintSizes(sizes[..i]), LittleEndian(sizes[i].alg, 2), LittleEndian(sizes[i].size, 2));
    var rest: Bytes :| PrintSizes(sizes) == ((p + a) + z) + rest;
    var raw := before + (PrintSizes(sizes) + tail);
    assert raw == ((before + p) + a) + (z + (rest + tail));
    assert raw == (((before + p) + a) + z) + (rest + tail);
    Pow256Small();
    ReadPrinted(before + p, sizes[i].alg, 2, z + (rest + tail));
    ReadPrinted((before + p) + a, sizes[i].size, 2, rest + tail);
  }

  lemma HeaderRoundTrip(log: Log, tail: Bytes)
    requires WellFormed(log)
    ensures var raw := ((log.start + LittleEndian(|PrintHeader(log)|, 4)) + PrintHeader(log)) + tail;
            ReadHeader(raw) == Ok((SizesOf(log.sizes), 32 + |PrintHeader(log)|))
  {
    hide ReadInt, Slice, LittleEndian, PrintSizes, ReadSizes, SizesOf, WellFormedRecord;
    var header := PrintHeader(log);
    var n := LittleEndian(|header|, 4);
    var raw := ((log.start + n) + header) + tail;
    Pow256Small();
    assert raw == (log.start + n) + (header + tail);
    ReadPrinted(log.start, |header|, 4, header + tail);
    SlicePrinted(log.start + n, header, tail);
    ReadPrinted(log.spec, |log.sizes|, 4, PrintSizes(log.sizes) + log.vendor);
    SizesRoundTrip(log.spec + LittleEndian(|log.sizes|, 4), log.sizes, 0, log.vendor);
    NoSizes(log.sizes);
  }

  lemma NoSizes(sizes: seq<Size>)
    ensures SizesOf(sizes[..0]) == map[]
  {
  }

  /** Parsing recovers every event of any well-formed log, whatever padding follows. */
  lemma ParseRecoversEveryEvent(log: Log, padding: Bytes)
    requires WellFormed(log) && Padding(padding)
    ensures Parsed(Print(log) + padding) == Ok(EventsOf(log.records, 0))
  {
    hide ReadHeader, ReadEvents, PrintRecords, PrintHeader, SizesOf, Padding, LittleEndian;
    var front := (log.start + LittleEndian(|PrintHeader(log)|, 4)) + PrintHeader(log);
    var raw := Print(log) + padding;
    assert raw == front + (PrintRecords(log.records) + padding);
    HeaderRoundTrip(log, PrintRecords(log.records) + padding);
    RecordsRoundTrip(front, log.records, padding, SizesOf(log.sizes), 0);
  }

  /** A log padded with any number of zero or of 0xFF bytes is padded. */
  lemma ZerosAndOnesArePadding(n: nat)
    ensures Padding(seq(n, _ => '\0')) && Padding(seq(n, _ => 0xFF as char))
  {
    if n >= 12 {
      var (zeros, ones) := (seq(n, _ => '\0'), seq(n, _ => 0xFF as char));
      assert zeros[4..8] == ['\0', '\0', '\0', '\0'] && ones[4..8] == [0xFF as char, 0xFF as char, 0xFF as char, 0xFF as char];
      FourBytes('\0');
      FourBytes(0xFF as char);
    }
  }

  lemma FourBytes(c: char)
    ensures FromLittleEndian([c, c, c, c]) == c as int * 0x01010101
  {
    assert [c, c, c, c][1..] == [c, c, c] && [c, c, c][1..] == [c, c] && [c, c][1..] == [c] && [c][1..] == [];
    assert FromLittleEndian([c]) == c as int;
    assert FromLittleEndian([c, c]) == c as int * 0x0101;
    assert FromLittleEndian([c, c, c]) == c as int * 0x010101;
  }
}
