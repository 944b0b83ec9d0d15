/** The JSON-lines writer of the pipeline, the strict reader of its artifacts, and
    the integrity check between them. */
module Jsonl {
  import opened Bytes
  import opened ArtifactLimits

  const MAX_RECORDS := 4096
  const MAX_RECORD_BYTES := 262144
  const MAX_TOTAL_BYTES := 16 * 1024 * 1024

  /** JSON text is abstract: `encode` is the canonical encoder (None when the value is
      not strict JSON), `parse` is decoding one raw line, terminator included. */
  datatype Codec = Codec(encode: Json -> Option<bytes>, parse: bytes -> Option<Json>)

  predicate IsSpace(b: byte)
  {
    9 <= b <= 13 || 28 <= b <= 32
  }

  predicate Blank(line: bytes)
  {
    forall i | 0 <= i < |line| :: IsSpace(line[i])
  }

  /** What the codec owes: parsing inverts encoding, control characters are escaped
      (section 7 of RFC 8259), and no encoding is blank. */
  ghost predicate Lawful(codec: Codec)
  {
    forall v {:trigger codec.encode(v)} | codec.encode(v).Some? ::
      var line := codec.encode(v).value;
      && codec.parse(line + [LF]) == Some(v)
      && LF !in line && CR !in line
      && !Blank(line)
  }

  datatype Outcome<+T> = Ok(value: T) | Err(line: nat)

  // ---- Writer -------------------------------------------------------------------

  ghost predicate Writable(codec: Codec, record: Json)
  {
    record.Object? && codec.encode(record).Some? && |codec.encode(record).value| <= MAX_RECORD_BYTES
  }

  ghost predicate AllWritable(codec: Codec, records: seq<Json>)
  {
    forall i | 0 <= i < |records| :: Writable(codec, records[i])
  }

  /** The raw lines of the records, each with its terminator. */
  ghost function Lines(codec: Codec, records: seq<Json>): (lines: seq<bytes>)
    requires AllWritable(codec, records)
    ensures |lines| == |records|
    ensures forall i | 0 <= i < |lines| :: lines[i] == codec.encode(records[i]).value + [LF]
  {
    seq(|records|, i requires 0 <= i < |records| => codec.encode(records[i]).value + [LF])
  }

  ghost predicate WriterAccepts(codec: Codec, records: seq<Json>)
  {
    && |records| <= MAX_RECORDS
    && AllWritable(codec, records)
    && |Flatten(Lines(codec, records))| <= MAX_TOTAL_BYTES
  }

  method EncodeRecords(codec: Codec, records: seq<Json>) returns (r: Outcome<(bytes, nat)>)
    ensures r.Ok? <==> WriterAccepts(codec, records)
    ensures r.Ok? ==> r.value == (Flatten(Lines(codec, records)), |records|)
  {
    if |records| > MAX_RECORDS { return Err(0); }
    var encoded: seq<bytes> := [];
    for i := 0 to |records|
      invariant AllWritable(codec, records[..i])
      invariant encoded == Lines(codec, records[..i])
    {
      var record := records[i];
      assert records[..i + 1][i] == record;
      assert AllWritable(codec, records) ==> Writable(codec, records[i]);
      if !record.Object? { return Err(i + 1); }
      var line := codec.encode(record);
      if line.None? { return Err(i + 1); }
      if |line.value| > MAX_RECORD_BYTES { return Err(i + 1); }
      encoded := encoded + [line.value + [LF]];
    }
    assert records[..|records|] == records;
    var data, count := Flatten(encoded), |encoded|;
    if |data| > MAX_TOTAL_BYTES || count > MAX_RECORDS { return Err(0); }
    return Ok((data, count));
  }

  // ---- Reader -------------------------------------------------------------------

  /** Length of the first line of `data`, terminator included: LF, CR or CR LF. */
  function LineEnd(data: bytes): (n: nat)
    requires data != []
    ensures 0 < n <= |data|
  {
    if data[0] == LF then 1
    else if data[0] == CR then (if |data| > 1 && data[1] == LF then 2 else 1)
    else if |data| == 1 then 1
    else 1 + LineEnd(data[1..])
  }

  /** `bytes.splitlines(keepends=True)`. */
  function SplitLines(data: bytes): seq<bytes>
    decreases |data|
  {
    if data == [] then [] else [data[..LineEnd(data)]] + SplitLines(data[LineEnd(data)..])
  }

  predicate LineYields(codec: Codec, raw: bytes, record: Json)
  {
    && |raw| <= MAX_RECORD_BYTES
    && !Blank(raw)
    && codec.parse(raw) == Some(record)
    && WithinLimits(record)
    && record.Object?
  }

  /** `records` is what the reader must return for `payload`. */
  predicate ReaderYields(codec: Codec, payload: bytes, records: seq<Json>)
  {
    var lines := SplitLines(payload);
    && |payload| <= MAX_TOTAL_BYTES
    && |lines| <= MAX_RECORDS
    && |lines| == |records|
    && forall i | 0 <= i < |lines| :: LineYields(codec, lines[i], records[i])
  }

  method ReadJsonlBytesStrict(codec: Codec, payload: bytes) returns (r: Outcome<seq<Json>>)
    ensures r.Ok? ==> ReaderYields(codec, payload, r.value)
    ensures r.Err? ==> forall records :: !ReaderYields(codec, payload, records)
  {
    if |payload| > MAX_TOTAL_BYTES { return Err(0); }
    var records: seq<Json> := [];
    var lines := SplitLines(payload);
    if |lines| > MAX_RECORDS { return Err(0); }
    for i := 0 to |lines|
      invariant |records| == i
      invariant forall j | 0 <= j < i :: LineYields(codec, lines[j], records[j])
    {
      var rawLine := lines[i];
      assert forall rs | ReaderYields(codec, payload, rs) :: LineYields(codec, lines[i], rs[i]);
      if |rawLine| > MAX_RECORD_BYTES { return Err(i + 1); }
      if Blank(rawLine) { return Err(i + 1); }
      var parsed := codec.parse(rawLine);
      if parsed.None? { return Err(i + 1); }
      var fits := CheckArtifactValue(parsed.value);
      if !fits { return Err(i + 1); }
      if !parsed.value.Object? { return Err(i + 1); }
      records := records + [parsed.value];
    }
    return Ok(records);
  }

  /** What a line may end with; the last one may also end without. */
  predicate Terminated(raw: bytes)
  {
    raw != [] && (raw[|raw| - 1] == LF || raw[|raw| - 1] == CR)
  }

  /** The line without its terminator. */
  function Content(raw: bytes): bytes
  {
    if !Terminated(raw) then raw
    else if |raw| > 1 && raw[|raw| - 2] == CR && raw[|raw| - 1] == LF then raw[..|raw| - 2] else raw[..|raw| - 1]
  }

  lemma {:induction false} LineEndMeans(data: bytes)
    requires data != []
    ensures var n := LineEnd(data);
            && LF !in Content(data[..n]) && CR !in Content(data[..n]) && (n < |data| ==> Terminated(data[..n]))
            && (n < |data| && data[n - 1] == CR ==> data[n] != LF)
  {
    if data[0] != LF && data[0] != CR && |data| > 1 {
      LineEndMeans(data[1..]);
      var n := LineEnd(data[1..]);
      assert data[..n + 1] == [data[0]] + data[1..][..n];
      ContentCons(data[0], data[1..][..n]);
    }
  }

  lemma ContentCons(b: byte, raw: bytes)
    requires b != LF && b != CR && raw != []
    ensures Content([b] + raw) == [b] + Content(raw) && (Terminated([b] + raw) <==> Terminated(raw))
  {
  }

  /** Lines as cut after every LF, CR LF and other CR and nowhere else. */
  ghost predicate CutLines(lines: seq<bytes>)
  {
    && (forall i | 0 <= i < |lines| :: lines[i] != [] && LF !in Content(lines[i]) && CR !in Content(lines[i]))
    && (forall i | 0 <= i < |lines| - 1 :: Terminated(lines[i]))
    && (forall i | 0 <= i < |lines| - 1 && lines[i][|lines[i]| - 1] == CR :: lines[i + 1][0] != LF)
  }

  lemma CutCons(first: bytes, rest: seq<bytes>)
    requires first != [] && LF !in Content(first) && CR !in Content(first) && CutLines(rest)
    requires rest != [] ==> Terminated(first) && (first[|first| - 1] == CR ==> rest[0][0] != LF)
    ensures CutLines([first] + rest)
  {
    var lines := [first] + rest;
    assert forall i | 1 <= i < |lines| :: lines[i] == rest[i - 1];
  }

  lemma FirstLine(data: bytes)
    requires data != []
    ensures SplitLines(data) != [] && SplitLines(data)[0] != [] && SplitLines(data)[0][0] == data[0]
  {
    assert SplitLines(data)[0] == data[..LineEnd(data)];
  }

  /** The reader's lines are the payload, cut like that. */
  lemma {:induction false} SplitLinesMean(data: bytes)
    ensures Flatten(SplitLines(data)) == data && CutLines(SplitLines(data))
    decreases |data|
  {
    if data != [] {
      var n := LineEnd(data);
      var first, rest := data[..n], data[n..];
      LineEndMeans(data);
      SplitLinesMean(rest);
      if rest != [] { FirstLine(rest); }
      CutCons(first, SplitLines(rest));
      FlattenCons(first, SplitLines(rest));
      assert data == first + rest;
    }
  }

  lemma YieldsLine(codec: Codec, payload: bytes, records: seq<Json>, i: nat)
    requires ReaderYields(codec, payload, records) && i < |SplitLines(payload)|
    ensures i < |records| && LineYields(codec, SplitLines(payload)[i], records[i])
    ensures |payload| <= 16777216 && |SplitLines(payload)| <= 4096
  {
  }

  /** What the reader never accepts: too many bytes or lines, a line that is too long, blank, or
      not the text of an object within limits. */
  lemma ReaderRefuses(codec: Codec, payload: bytes, records: seq<Json>, i: nat)
    requires i < |SplitLines(payload)|
    requires var raw := SplitLines(payload)[i];
             || |payload| > 16777216 || |SplitLines(payload)| > 4096 || |raw| > 262144
             || (forall k | 0 <= k < |raw| :: 9 <= raw[k] <= 13 || 28 <= raw[k] <= 32) || codec.parse(raw).None?
             || !codec.parse(raw).value.Object? || !WithinLimits(codec.parse(raw).value)
    ensures !ReaderYields(codec, payload, records)
  {
    if ReaderYields(codec, payload, records) {
      YieldsLine(codec, payload, records, i);
    }
  }

  // ---- Round trip ---------------------------------------------------------------

  lemma {:induction false} LineEndOfLine(line: bytes, rest: bytes)
    requires LF !in line && CR !in line
    ensures LineEnd(line + [LF] + rest) == |line| + 1
  {
    var data := line + [LF] + rest;
    if line != [] {
      assert data[0] == line[0] && data[1..] == line[1..] + [LF] + rest;
      LineEndOfLine(line[1..], rest);
    }
  }

  ghost predicate IsTerminatedLine(raw: bytes)
  {
    raw != [] && raw[|raw| - 1] == LF && LF !in raw[..|raw| - 1] && CR !in raw[..|raw| - 1]
  }

  lemma {:induction false} FlattenCons(first: bytes, rest: seq<bytes>)
    ensures Flatten([first] + rest) == first + Flatten(rest)
  {
    var all := [first] + rest;
    if rest == [] {
      assert all[..0] == [] && Flatten(all) == Flatten(all[..0]) + all[0];
    } else {
      FlattenCons(first, rest[..|rest| - 1]);
      assert all[..|all| - 1] == [first] + rest[..|rest| - 1];
    }
  }

  /** Splitting undoes joining, for any sequence of LF-terminated lines. */
  lemma {:induction false} SplitFlatten(lines: seq<bytes>)
    requires forall i | 0 <= i < |lines| :: IsTerminatedLine(lines[i])
    ensures SplitLines(Flatten(lines)) == lines
  {
    if lines != [] {
      var raw, rest := lines[0], lines[1..];
      assert lines == [raw] + rest;
      FlattenCons(raw, rest);
      var line := raw[..|raw| - 1];
      var data := Flatten(lines);
      assert data == line + [LF] + Flatten(rest);
      LineEndOfLine(line, Flatten(rest));
      assert data[..|raw|] == raw && data[|raw|..] == Flatten(rest);
      SplitFlatten(rest);
    }
  }

  lemma LinesTerminated(codec: Codec, records: seq<Json>)
    requires Lawful(codec) && AllWritable(codec, records)
    ensures forall i | 0 <= i < |records| :: IsTerminatedLine(Lines(codec, records)[i])
  {
    forall i | 0 <= i < |records| ensures IsTerminatedLine(Lines(codec, records)[i]) {
      var line := codec.encode(records[i]).value;
      assert Writable(codec, records[i]);
      assert (line + [LF])[..|line|] == line;
    }
  }

  /** A record the reader takes back: the reader counts the terminator, so the encoding
      must be one byte under the bound the writer checks. */
  ghost predicate Readable(codec: Codec, record: Json)
    requires codec.encode(record).Some?
  {
    |codec.encode(record).value| < MAX_RECORD_BYTES && WithinLimits(record)
  }

  /** What was written is read back unchanged exactly when every record is readable;
      otherwise the reader refuses the file. */
  lemma RoundTrip(codec: Codec, records: seq<Json>)
    requires Lawful(codec) && WriterAccepts(codec, records)
    ensures var data := Flatten(Lines(codec, records));
            var readable := forall i | 0 <= i < |records| :: Writable(codec, records[i]) && Readable(codec, records[i]);
            && (readable ==> ReaderYields(codec, data, records))
            && ((exists rs :: ReaderYields(codec, data, rs)) ==> readable)
            && (forall rs | ReaderYields(codec, data, rs) :: rs == records)
  {
    var lines := Lines(codec, records);
    var data := Flatten(lines);
    LinesTerminated(codec, records);
    SplitFlatten(lines);
    forall i | 0 <= i < |records|
      ensures codec.parse(lines[i]) == Some(records[i]) && !Blank(lines[i])
      ensures Writable(codec, records[i])
      ensures |lines[i]| <= MAX_RECORD_BYTES <==> |codec.encode(records[i]).value| < MAX_RECORD_BYTES
    {
      assert Writable(codec, records[i]);
      var line := codec.encode(records[i]).value;
      var k :| 0 <= k < |line| && !IsSpace(line[k]);
      assert lines[i][k] == line[k];
    }
    forall rs | ReaderYields(codec, data, rs) ensures rs == records {
      forall i | 0 <= i < |records| ensures rs[i] == records[i] {
        assert LineYields(codec, lines[i], rs[i]);
      }
    }
  }

  /** The gap is real: with encodings of `size` bytes, a one-record file is written for
      size 262144 and then refused. */
  lemma LongestRecordIsRefused(codec: Codec, record: Json)
    requires Lawful(codec) && record.Object?
    requires codec.encode(record).Some? && |codec.encode(record).value| == MAX_RECORD_BYTES
    ensures WriterAccepts(codec, [record])
    ensures forall rs :: !ReaderYields(codec, Flatten(Lines(codec, [record])), rs)
  {
    assert Writable(codec, record);
    var lines := Lines(codec, [record]);
    assert lines[..0] == [] && Flatten(lines) == Flatten(lines[..0]) + lines[0];
    RoundTrip(codec, [record]);
    assert [record][0] == record;
  }

  lemma {:induction false} NewlinesOfLine(raw: bytes)
    requires IsTerminatedLine(raw)
    ensures Newlines(raw) == 1
  {
    if |raw| == 1 {
      assert raw[1..] == [];
    } else {
      assert raw[1..][..|raw| - 2] == raw[..|raw| - 1][1..];
      NewlinesOfLine(raw[1..]);
    }
  }

  /** The count stored in a manifest is the one any later chunked recount finds. */
  lemma {:induction false} RecordCountOfLines(lines: seq<bytes>)
    requires forall i | 0 <= i < |lines| :: IsTerminatedLine(lines[i])
    ensures RecordCount(Flatten(lines)) == |lines|
  {
    if lines != [] {
      var before, last := lines[..|lines| - 1], lines[|lines| - 1];
      RecordCountOfLines(before);
      NewlinesConcat(Flatten(before), last);
      NewlinesOfLine(last);
      if before != [] {
        var b := before[|before| - 1];
        assert Flatten(before) == Flatten(before[..|before| - 1]) + b;
        assert Flatten(before)[|Flatten(before)| - 1] == b[|b| - 1];
      }
    }
  }

  /** Bytes that end with their only line feed. */
  ghost predicate EndsOnce(raw: bytes)
  {
    raw != [] && raw[|raw| - 1] == LF && LF !in raw[..|raw| - 1]
  }

  lemma {:induction false} NewlinesNone(data: bytes)
    requires LF !in data
    ensures Newlines(data) == 0
  {
    if data != [] { NewlinesNone(data[1..]); }
  }

  lemma {:induction false} FirstFeed(data: bytes) returns (k: nat)
    requires LF in data
    ensures k < |data| && data[k] == LF && LF !in data[..k]
  {
    if data[0] == LF {
      k := 0;
    } else {
      var j := FirstFeed(data[1..]);
      k := j + 1;
      assert data[..k] == [data[0]] + data[1..][..j];
    }
  }

  lemma NewlinesOnce(content: bytes, rest: bytes)
    requires LF !in content
    ensures Newlines((content + [LF]) + rest) == 1 + Newlines(rest)
  {
    NewlinesConcat(content + [LF], rest);
    NewlinesConcat(content, [LF]);
    NewlinesNone(content);
  }

  lemma CutFeed(data: bytes) returns (content: bytes, rest: bytes)
    requires LF in data
    ensures data == (content + [LF]) + rest && LF !in content && EndsOnce(content + [LF]) && |rest| < |data|
  {
    var k := FirstFeed(data);
    content, rest := data[..k], data[k + 1..];
    assert (content + [LF])[..k] == content;
  }

  lemma CountTail(data: bytes, content: bytes, rest: bytes)
    requires data == (content + [LF]) + rest && LF !in content
    ensures RecordCount(data) == 1 + RecordCount(rest)
  {
    NewlinesOnce(content, rest);
  }

  /** The record count of any bytes is the number of their lines: those that end with a line
      feed, and one more if something follows the last of them. */
  lemma {:induction false} RecordCountIsLines(data: bytes) returns (lines: seq<bytes>, tail: bytes)
    ensures data == Flatten(lines) + tail && LF !in tail && forall i | 0 <= i < |lines| :: EndsOnce(lines[i])
    ensures RecordCount(data) == |lines| + if tail == [] then 0 else 1
    decreases |data|
  {
    if LF !in data {
      lines, tail := [], data;
      NewlinesNone(data);
    } else {
      var content, after := CutFeed(data);
      var rest;
      rest, tail := RecordCountIsLines(after);
      lines := [content + [LF]] + rest;
      FlattenCons(content + [LF], rest);
      CountTail(data, content, after);
    }
  }

  // ---- Verified upstream snapshot --------------------------------------------------

  /** What a manifest records about one artifact's bytes. */
  datatype Metadata = Metadata(sha: Digest, records: nat, bytesTotal: nat)

  function Describe(data: bytes): Metadata
  {
    Metadata(Sha256(data), RecordCount(data), |data|)
  }

  /** Reads a file chunk by chunk and releases its bytes only if they are exactly the
      ones the metadata was computed from. */
  method VerifyUpstreamFile(chunks: seq<bytes>, expected: Metadata) returns (r: Option<bytes>)
    requires IsReading(chunks)
    ensures r == if Describe(Flatten(chunks)) == expected then Some(Flatten(chunks)) else None
  {
    if |Flatten(chunks)| != expected.bytesTotal { return None; }
    var payload: bytes, records: nat, last: bytes, total: nat := [], 0, [], 0;
    for i := 0 to |chunks|
      invariant payload == Flatten(chunks[..i]) && total == |payload|
      invariant records == Newlines(payload)
      invariant last == if payload == [] then [] else [payload[|payload| - 1]]
    {
      var chunk := chunks[i];
      assert chunks[..i + 1][..i] == chunks[..i];
      NewlinesConcat(payload, chunk);
      total := total + |chunk|;
      payload := payload + chunk;
      records := records + Newlines(chunk);
      last := [chunk[|chunk| - 1]];
    }
    assert chunks[..|chunks|] == chunks;
    if last != [] && last != [LF] { records := records + 1; }
    if total != expected.bytesTotal || records != expected.records || Sha256(payload) != expected.sha {
      return None;
    }
    return Some(payload);
  }

  /** End to end: stored bytes that verify against the metadata of a written artifact,
      in whatever chunks they are read, are that artifact, and parse back to its records
      exactly when every record is readable. */
  lemma VerifiedArtifactReadsBack(codec: Codec, records: seq<Json>, chunks: seq<bytes>)
    requires Lawful(codec) && WriterAccepts(codec, records) && IsReading(chunks)
    requires Describe(Flatten(chunks)) == Metadata(Sha256(Flatten(Lines(codec, records))), |records|,
        |Flatten(Lines(codec, records))|)
    ensures Flatten(chunks) == Flatten(Lines(codec, records))
    ensures (forall i | 0 <= i < |records| :: Writable(codec, records[i]) && Readable(codec, records[i])) <==>
            ReaderYields(codec, Flatten(chunks), records)
  {
    RoundTrip(codec, records);
  }

  /** ... and the untouched artifact always verifies. */
  lemma WrittenArtifactVerifies(codec: Codec, records: seq<Json>)
    requires Lawful(codec) && WriterAccepts(codec, records)
    ensures Describe(Flatten(Lines(codec, records))) ==
            Metadata(Sha256(Flatten(Lines(codec, records))), |records|, |Flatten(Lines(codec, records))|)
  {
    LinesTerminated(codec, records);
    RecordCountOfLines(Lines(codec, records));
  }
}
