/**
 Polyjuice user logs: the byte layout, the Rust parser (`helper.rs`, which reads bytes) and the
 TypeScript parser (`filter-web3-tx.ts`, which cuts hex text).
 */
module UserLog {
  import opened Wrappers
  import opened Binary
  import opened Hex
  import opened Molecule
  import opened Uint
  import Seqs

  const USER_LOG_DATA_MAX_SIZE: nat := 64 * 1024

  datatype Log = Log(address: Bytes, data: Bytes, topics: seq<Bytes>)

  predicate ValidLog(log: Log) {
    && |log.address| == 20
    && |log.data| < UINT32_LIMIT
    && |log.topics| < UINT32_LIMIT
    && AllOfLength(log.topics, 32)
  }

  /** Address, data size, data, topic count, topics. */
  function EncodeLog(log: Log): Bytes {
    log.address + (LE(|log.data|, U32) + (log.data + (LE(|log.topics|, U32) + Flatten(log.topics))))
  }

  // ----- the layout read by position -----

  function Topics(b: Bytes): (t: seq<Bytes>)
    ensures |b| % 32 == 0 ==> |t| == |b| / 32
  {
    if |b| < 32 then [] else [b[..32]] + Topics(b[32..])
  }

  lemma {:induction false} TopicAt(b: Bytes, i: nat)
    requires 32 * i + 32 <= |b|
    ensures i < |Topics(b)| && Topics(b)[i] == b[32 * i..32 * i + 32]
    decreases i
  {
    if i != 0 {
      TopicAt(b[32..], i - 1);
      Seqs.SliceOfDrop(b, 32, 32 * (i - 1), 32 * (i - 1) + 32);
    }
  }

  lemma {:induction false} TopicsOfFlatten(topics: seq<Bytes>)
    requires AllOfLength(topics, 32)
    ensures Topics(Flatten(topics)) == topics
  {
    if topics != [] {
      TopicsOfFlatten(topics[1..]);
      Seqs.Parts(topics[0], Flatten(topics[1..]));
      Seqs.HeadTail(topics);
    }
  }

  lemma {:induction false} FlattenOfTopics(b: Bytes)
    requires |b| % 32 == 0
    ensures AllOfLength(Topics(b), 32) && Flatten(Topics(b)) == b
  {
    if b != [] {
      FlattenOfTopics(b[32..]);
      Seqs.TailOfCons(b[..32], Topics(b[32..]));
      Seqs.Split(b, 32);
    }
  }

  /** The log that `b` spells, found by position. */
  function LogOf(b: Bytes): Option<Log> {
    if |b| < 24 then None else LogWithData(b, 24 + FromLE(b[20..24]))
  }

  /** The log whose data ends at `dataEnd`. */
  function LogWithData(b: Bytes, dataEnd: nat): Option<Log>
    requires 24 <= |b| && 24 <= dataEnd
  {
    if |b| < dataEnd + 4 then None
    else if |b| != dataEnd + 4 + 32 * FromLE(b[dataEnd..dataEnd + 4]) then None
    else Some(Log(b[..20], b[24..dataEnd], Topics(b[dataEnd + 4..])))
  }

  lemma {:induction false} Fields(a: Bytes, size: Bytes, d: Bytes, count: Bytes, rest: Bytes)
    requires |a| == 20 && |size| == 4 && |count| == 4
    ensures var b := a + (size + (d + (count + rest)));
            && |b| == 28 + |d| + |rest|
            && b[..20] == a && b[20..24] == size && b[24..24 + |d|] == d
            && b[24 + |d|..28 + |d|] == count && b[28 + |d|..] == rest
  {
    var b := a + (size + (d + (count + rest)));
    assert b == (a + size) + d + (count + rest);
    assert b == (a + size + d) + count + rest;
  }

  lemma {:induction false} LogOfEncodeLog(log: Log)
    requires ValidLog(log)
    ensures LogOf(EncodeLog(log)) == Some(log)
  {
    var size, count, rest := LE(|log.data|, U32), LE(|log.topics|, U32), Flatten(log.topics);
    Fields(log.address, size, log.data, count, rest);
    WordLimits();
    FromLEOfLE(|log.data|, U32);
    FromLEOfLE(|log.topics|, U32);
    FlattenFixedLength(log.topics, 32);
    TopicsOfFlatten(log.topics);
  }

  lemma {:induction false} CutInFive(b: Bytes, dataEnd: nat)
    requires 24 <= dataEnd && dataEnd + 4 <= |b|
    ensures b == b[..20] + (b[20..24] + (b[24..dataEnd] + (b[dataEnd..dataEnd + 4] + b[dataEnd + 4..])))
  {
    var n := |b|;
    Seqs.Join(b, 0, 20, n);
    Seqs.Join(b, 20, 24, n);
    Seqs.Join(b, 24, dataEnd, n);
    Seqs.Join(b, dataEnd, dataEnd + 4, n);
    assert b[0..n] == b;
  }

  lemma {:induction false} WordOf(w: Bytes, n: nat)
    requires |w| == 4 && n == FromLE(w)
    ensures n < UINT32_LIMIT && LE(n, U32) == w
  {
    WordLimits();
    FromLEBound(w);
    LEOfFromLE(w);
  }

  lemma {:induction false} LogWithDataFits(b: Bytes, dataEnd: nat)
    requires 24 <= |b| && dataEnd == 24 + FromLE(b[20..24])
    requires LogWithData(b, dataEnd).Some?
    ensures var log := LogWithData(b, dataEnd).value;
            && ValidLog(log)
            && LE(|log.data|, U32) == b[20..24] && LE(|log.topics|, U32) == b[dataEnd..dataEnd + 4]
            && Flatten(log.topics) == b[dataEnd + 4..]
  {
    WordOf(b[20..24], dataEnd - 24);
    FlattenOfTopics(b[dataEnd + 4..]);
    WordOf(b[dataEnd..dataEnd + 4], |Topics(b[dataEnd + 4..])|);
  }

  lemma {:induction false} EncodeLogOfLogOf(b: Bytes)
    requires LogOf(b).Some?
    ensures ValidLog(LogOf(b).value) && EncodeLog(LogOf(b).value) == b
  {
    var dataEnd := 24 + FromLE(b[20..24]);
    LogWithDataFits(b, dataEnd);
    CutInFive(b, dataEnd);
  }

  /** Reading by position finds exactly the logs whose encoding is `b`: no byte is dropped or invented. */
  lemma {:induction false} LogOfInvertsEncode(b: Bytes, log: Log)
    ensures LogOf(b) == Some(log) <==> ValidLog(log) && b == EncodeLog(log)
  {
    if LogOf(b) == Some(log) {
      EncodeLogOfLogOf(b);
    }
    if ValidLog(log) {
      LogOfEncodeLog(log);
    }
  }

  // ----- the Rust parser -----

  /** The user branch of `parse_log`; the slice panic on a missing topic count is an `Err`. */
  method ParseUserLog(data: Bytes) returns (r: Result<Log>)
    ensures r.Ok? <==> LogOf(data).Some? && |LogOf(data).value.data| <= 65536
    ensures r.Ok? ==> LogOf(data) == Some(r.value)
  {
    if |data| < 24 {
      return Err("invalid user log data length");
    }
    var offset := 0;
    var address := data[offset..offset + 20];
    offset := offset + 20;
    var dataSize := FromLE(data[offset..offset + 4]);
    offset := offset + 4;
    if dataSize > USER_LOG_DATA_MAX_SIZE {
      return Err("Polyjuice user log data size too large");
    }
    if |data| < offset + dataSize {
      return Err("invalid user log data size");
    }
    var logData := data[offset..offset + dataSize];
    offset := offset + dataSize;
    if |data| < offset + 4 {
      return Err("panic: range end index out of range");
    }
    var topicsCount := FromLE(data[offset..offset + 4]);
    offset := offset + 4;
    ghost var start := offset;
    var topics: seq<Bytes> := [];
    var i := 0;
    while i < topicsCount
      invariant 0 <= i <= topicsCount
      invariant offset == start + 32 * i <= |data|
      invariant |topics| == i
      invariant i <= |Topics(data[start..])| && topics == Topics(data[start..])[..i]
    {
      if |data| < offset + 32 {
        return Err("invalid user log data");
      }
      TopicAt(data[start..], i);
      Seqs.SliceOfDrop(data, start, 32 * i, 32 * i + 32);
      topics := topics + [data[offset..offset + 32]];
      offset := offset + 32;
      i := i + 1;
    }
    if offset != |data| {
      return Err("Too many bytes for polyjuice user log data");
    }
    assert topics == Topics(data[start..]);
    return Ok(Log(address, logData, topics));
  }

  // ----- system logs -----

  datatype SystemLog = SystemLog(gasUsed: nat, cumulativeGasUsed: nat, createdAddress: Bytes, statusCode: nat)

  datatype SystemLogText = SystemLogText(gasUsed: string, cumulativeGasUsed: string, createdAddress: string,
        statusCode: string)

  function EncodeSystemLog(log: SystemLog): Bytes {
    LE(log.gasUsed, U64) + LE(log.cumulativeGasUsed, U64) + log.createdAddress + LE(log.statusCode, U32)
  }

  /** The system branch of `parse_log`. */
  function ParseSystemLog(data: Bytes): Result<SystemLog> {
    if |data| != 40 then Err("invalid system log raw data length")
    else Ok(SystemLog(FromLE(data[0..8]), FromLE(data[8..16]), data[16..36], FromLE(data[36..40])))
  }

  /** `parsePolyjuiceSystemLog`. */
  function ParsePolyjuiceSystemLog(data: string): Result<SystemLogText> {
    if |data| != 82 then Err("invalid system log raw data length") else
    var text := data[2..];
    var gasUsed :- Uint64FromLittleEndian("0x" + text[0..16]);
    var cumulativeGasUsed :- Uint64FromLittleEndian("0x" + text[16..32]);
    var statusCode :- Uint32FromLittleEndian("0x" + text[72..80]);
    Ok(SystemLogText(ToHexNumber(gasUsed), ToHexNumber(cumulativeGasUsed), "0x" + text[32..72],
          ToHexNumber(statusCode)))
  }

  lemma {:induction false} EncodeInFour(a: Bytes, b: Bytes, c: Bytes, d: Bytes)
    requires |a| == |b| == 8 && |c| == 20 && |d| == 4
    ensures var text := Encode(a + b + c + d);
            && text[0..16] == Encode(a) && text[16..32] == Encode(b)
            && text[32..72] == Encode(c) && text[72..80] == Encode(d)
  {
    EncodeConcat(a + b + c, d);
    EncodeConcat(a + b, c);
    EncodeConcat(a, b);
    var ea, eb, ec, ed := Encode(a), Encode(b), Encode(c), Encode(d);
    FourTexts(ea, eb, ec, ed);
  }

  lemma {:induction false} FourTexts(a: string, b: string, c: string, d: string)
    requires |a| == |b| == 16 && |c| == 40 && |d| == 8
    ensures var text := a + b + c + d;
            text[0..16] == a && text[16..32] == b && text[32..72] == c && text[72..80] == d
  {
  }

  lemma {:induction false} CutInFourParts(data: Bytes)
    requires |data| == 40
    ensures data == data[0..8] + data[8..16] + data[16..36] + data[36..40]
  {
    Seqs.Join(data, 0, 8, 16);
    Seqs.Join(data, 0, 16, 36);
    Seqs.Join(data, 0, 36, 40);
    assert data[0..40] == data;
  }

  /** The Rust parser inverts the encoding. */
  lemma {:induction false} SystemLogRoundTrip(data: Bytes)
    ensures ParseSystemLog(data).Ok? <==> |data| == 40
    ensures ParseSystemLog(data).Ok? ==> EncodeSystemLog(ParseSystemLog(data).value) == data
  {
    hide LE, FromLE;
    if |data| == 40 {
      LEOfFromLE(data[0..8]);
      LEOfFromLE(data[8..16]);
      LEOfFromLE(data[36..40]);
      CutInFourParts(data);
    }
  }

  lemma {:induction false} SystemLogTexts(a: Bytes, b: Bytes, c: Bytes, d: Bytes)
    requires |a| == |b| == 8 && |c| == 20 && |d| == 4
    ensures ParsePolyjuiceSystemLog(ToHex(a + b + c + d))
         == Ok(SystemLogText(ToHexNumber(FromLE(a)), ToHexNumber(FromLE(b)), ToHex(c), ToHexNumber(FromLE(d))))
  {
    hide Uint64FromLittleEndian, Uint32FromLittleEndian, FromLE, ToHexNumber, Encode;
    assert ToHex(a + b + c + d)[2..] == Encode(a + b + c + d);
    EncodeInFour(a, b, c, d);
    ReadsBytes8(a);
    ReadsBytes8(b);
    ReadsBytes4(d);
  }

  /** Both parsers accept exactly 40 bytes, and read the same fields. */
  lemma {:induction false} SystemLogsAgree(data: Bytes)
    ensures ParsePolyjuiceSystemLog(ToHex(data)).Ok? <==> ParseSystemLog(data).Ok?
    ensures ParseSystemLog(data).Ok? ==>
              var log := ParseSystemLog(data).value;
              ParsePolyjuiceSystemLog(ToHex(data))
              == Ok(SystemLogText(ToHexNumber(log.gasUsed), ToHexNumber(log.cumulativeGasUsed),
                                  ToHex(log.createdAddress), ToHexNumber(log.statusCode)))
  {
    hide Uint64FromLittleEndian, Uint32FromLittleEndian, FromLE, ToHexNumber, Encode;
    if |data| == 40 {
      CutInFourParts(data);
      SystemLogTexts(data[0..8], data[8..16], data[16..36], data[36..40]);
    }
  }

  // ----- the TypeScript parser -----

  datatype LogText = LogText(address: string, data: string, topics: seq<string>)

  /** `text.slice(i, j)` for `i <= j`. */
  function Cut(text: string, i: nat, j: nat): string
    requires i <= j
  {
    text[Min(i, |text|)..Min(j, |text|)]
  }

  function TopicTexts(text: string, offset: nat, count: nat): (t: seq<string>)
    ensures |t| == count
  {
    seq(count, i requires 0 <= i < count => "0x" + Cut(text, offset + 64 * i, offset + 64 * i + 64))
  }

  /** `parsePolyjuiceUserLog` on any text. */
  function ParseText(data: string): Result<LogText> {
    ParseStripped(data[Min(2, |data|)..])
  }

  function ParseStripped(text: string): Result<LogText> {
    var dataSize :- Uint32FromLittleEndian("0x" + Cut(text, 40, 48));
    ParseAfterSize(text, 48 + dataSize * 2)
  }

  function ParseAfterSize(text: string, dataEnd: nat): Result<LogText>
    requires 48 <= dataEnd
  {
    var topicsCount :- Uint32FromLittleEndian("0x" + Cut(text, dataEnd, dataEnd + 8));
    ParseTopics(text, dataEnd, topicsCount)
  }

  function ParseTopics(text: string, dataEnd: nat, topicsCount: nat): Result<LogText>
    requires 48 <= dataEnd
  {
    var topicsAt := dataEnd + 8;
    if topicsAt + 64 * topicsCount != |text| then Err("Too many bytes for polyjuice user log data")
    else Ok(LogText("0x" + Cut(text, 0, 40), "0x" + Cut(text, 48, dataEnd), TopicTexts(text, topicsAt, topicsCount)))
  }

  method ParsePolyjuiceUserLog(data: string) returns (r: Result<LogText>)
    ensures r == ParseText(data)
  {
    hide Uint32FromLittleEndian;
    var text := data[Min(2, |data|)..];
    var offset := 0;
    var address := "0x" + Cut(text, offset, offset + 40);
    offset := offset + 40;
    var dataSize := Uint32FromLittleEndian("0x" + Cut(text, offset, offset + 8));
    if dataSize.Err? {
      return Err(dataSize.reason);
    }
    AfterReading(text, dataSize.value);
    offset := offset + 8;
    var logData := "0x" + Cut(text, offset, offset + dataSize.value * 2);
    offset := offset + dataSize.value * 2;
    var topicsCount := Uint32FromLittleEndian("0x" + Cut(text, offset, offset + 8));
    if topicsCount.Err? {
      return Err(topicsCount.reason);
    }
    offset := offset + 8;
    ghost var start := offset;
    var topics: seq<string> := [];
    var i := 0;
    while i < topicsCount.value
      invariant 0 <= i <= topicsCount.value
      invariant offset == start + 64 * i
      invariant topics == TopicTexts(text, start, i)
    {
      topics := topics + ["0x" + Cut(text, offset, offset + 64)];
      offset := offset + 64;
      i := i + 1;
    }
    if offset != |text| {
      return Err("Too many bytes for polyjuice user log data");
    }
    return Ok(LogText(address, logData, topics));
  }

  // ----- the two parsers -----

  function TextOf(log: Log): LogText {
    LogText(ToHex(log.address), ToHex(log.data), HexTexts(log.topics))
  }

  /** Cutting the text at even places cuts the bytes. */
  lemma {:induction false} CutOfEncode(b: Bytes, i: nat, j: nat)
    requires i <= j
    ensures Cut(Encode(b), 2 * i, 2 * j) == Encode(b[Min(i, |b|)..Min(j, |b|)])
  {
    var lo, hi := Min(i, |b|), Min(j, |b|);
    Seqs.SplitThree(b, lo, hi);
    EncodeConcat(b[..lo], b[lo..hi]);
    EncodeConcat(b[..lo] + b[lo..hi], b[hi..]);
    Seqs.Middle(Encode(b[..lo]), Encode(b[lo..hi]), Encode(b[hi..]));
  }

  lemma {:induction false} CutText(b: Bytes, lo: nat, hi: nat, i: nat, j: nat)
    requires lo <= hi <= |b| && i == 2 * lo && j == 2 * hi
    ensures Cut(Encode(b), i, j) == Encode(b[lo..hi])
  {
    CutOfEncode(b, lo, hi);
  }

  /** The 32-bit word at `at`, when there is one. */
  lemma {:induction false} WordText(b: Bytes, at: nat, i: nat, j: nat)
    requires at + 4 <= |b| && i == 2 * at && j == 2 * at + 8
    ensures Uint32FromLittleEndian("0x" + Cut(Encode(b), i, j)) == Ok(FromLE(b[at..at + 4]))
  {
    CutText(b, at, at + 4, i, j);
    ReadsBytes4(b[at..at + 4]);
  }

  /** With fewer than four bytes left, the TypeScript reader throws. */
  lemma {:induction false} NoWordText(b: Bytes, i: nat, j: nat)
    requires 2 * |b| < j == i + 8
    ensures Uint32FromLittleEndian("0x" + Cut(Encode(b), i, j)).Err?
  {
  }

  lemma {:induction false} TopicTextAt(b: Bytes, at: nat, i: nat)
    requires at + 32 * i + 32 <= |b|
    ensures "0x" + Cut(Encode(b), 2 * at + 64 * i, 2 * at + 64 * i + 64) == ToHex(b[at + 32 * i..at + 32 * i + 32])
  {
    CutText(b, at + 32 * i, at + 32 * i + 32, 2 * at + 64 * i, 2 * at + 64 * i + 64);
  }

  lemma {:induction false} TopicByPlace(b: Bytes, at: nat, i: nat)
    requires at + 32 * i + 32 <= |b|
    ensures i < |Topics(b[at..])|
    ensures Topics(b[at..])[i] == b[at + 32 * i..at + 32 * i + 32]
  {
    TopicAt(b[at..], i);
    Seqs.SliceOfDrop(b, at, 32 * i, 32 * i + 32);
  }

  lemma {:induction false} TopicTextsAgree(b: Bytes, at: nat, count: nat, i: nat)
    requires at + 32 * count == |b| && i == 2 * at
    ensures TopicTexts(Encode(b), i, count) == HexTexts(Topics(b[at..]))
  {
    assert |Topics(b[at..])| == count;
    forall k | 0 <= k < count ensures TopicTexts(Encode(b), i, count)[k] == HexTexts(Topics(b[at..]))[k] {
      TopicTextAt(b, at, k);
      TopicByPlace(b, at, k);
    }
  }

  lemma {:induction false} TextOfPieces(b: Bytes, dataEnd: nat, count: nat, i: nat)
    requires 24 <= dataEnd && dataEnd + 4 + 32 * count == |b| && i == 2 * dataEnd
    ensures LogText("0x" + Cut(Encode(b), 0, 40), "0x" + Cut(Encode(b), 48, i), TopicTexts(Encode(b), i + 8, count))
         == TextOf(Log(b[..20], b[24..dataEnd], Topics(b[dataEnd + 4..])))
  {
    CutText(b, 0, 20, 0, 40);
    assert b[0..20] == b[..20];
    CutText(b, 24, dataEnd, 48, i);
    TopicTextsAgree(b, dataEnd + 4, count, i + 8);
  }

  lemma {:induction false} AfterSizeAccepts(b: Bytes, dataEnd: nat, count: nat, i: nat)
    requires 24 <= dataEnd && i == 2 * dataEnd
    requires dataEnd + 4 + 32 * count == |b| && FromLE(b[dataEnd..dataEnd + 4]) == count
    ensures ParseAfterSize(Encode(b), i) == Ok(TextOf(Log(b[..20], b[24..dataEnd], Topics(b[dataEnd + 4..]))))
  {
    TextOfPieces(b, dataEnd, count, i);
    WordText(b, dataEnd, i, i + 8);
    assert ParseAfterSize(Encode(b), i) == ParseTopics(Encode(b), i, count);
  }

  lemma {:induction false} AfterSizeRefuses(b: Bytes, dataEnd: nat, i: nat)
    requires 24 <= dataEnd && i == 2 * dataEnd
    requires |b| < dataEnd + 4 || dataEnd + 4 + 32 * FromLE(b[dataEnd..dataEnd + 4]) != |b|
    ensures ParseAfterSize(Encode(b), i).Err?
  {
    hide Uint32FromLittleEndian, Encode, Cut;
    if |b| < dataEnd + 4 {
      NoWordText(b, i, i + 8);
    } else {
      WordText(b, dataEnd, i, i + 8);
      assert ParseTopics(Encode(b), i, FromLE(b[dataEnd..dataEnd + 4])).Err?;
    }
  }

  lemma {:induction false} AfterSize(b: Bytes, dataEnd: nat, i: nat)
    requires 24 <= |b| && 24 <= dataEnd && i == 2 * dataEnd
    ensures ParseAfterSize(Encode(b), i).Ok? <==> LogWithData(b, dataEnd).Some?
    ensures LogWithData(b, dataEnd).Some? ==> ParseAfterSize(Encode(b), i) == Ok(TextOf(LogWithData(b, dataEnd).value))
  {
    if LogWithData(b, dataEnd).Some? {
      AfterSizeAccepts(b, dataEnd, FromLE(b[dataEnd..dataEnd + 4]), i);
    } else {
      AfterSizeRefuses(b, dataEnd, i);
    }
  }

  lemma {:induction false} StrippedFindsLog(b: Bytes)
    ensures ParseStripped(Encode(b)).Ok? <==> LogOf(b).Some?
    ensures LogOf(b).Some? ==> ParseStripped(Encode(b)) == Ok(TextOf(LogOf(b).value))
  {
    hide Uint32FromLittleEndian, BufferFrom, Encode, ParseAfterSize, LogWithData, TextOf;
    if |b| < 24 {
      NoWordText(b, 40, 48);
    } else {
      var dataSize := FromLE(b[20..24]);
      SizeIsRead(b, dataSize);
      DataEndIs(b, 24 + dataSize);
      AfterSize(b, 24 + dataSize, 48 + dataSize * 2);
    }
  }

  lemma {:induction false} SizeIsRead(b: Bytes, dataSize: nat)
    requires |b| >= 24 && dataSize == FromLE(b[20..24])
    ensures ParseStripped(Encode(b)) == ParseAfterSize(Encode(b), 48 + dataSize * 2)
  {
    WordText(b, 20, 40, 48);
    AfterReading(Encode(b), dataSize);
  }

  lemma {:induction false} AfterReading(text: string, dataSize: nat)
    requires Uint32FromLittleEndian("0x" + Cut(text, 40, 48)) == Ok(dataSize)
    ensures ParseStripped(text) == ParseAfterSize(text, 48 + dataSize * 2)
  {
  }

  lemma {:induction false} DataEndIs(b: Bytes, dataEnd: nat)
    requires |b| >= 24 && dataEnd == 24 + FromLE(b[20..24])
    ensures LogOf(b) == LogWithData(b, dataEnd)
  {
  }

  /** On the text of any byte string, the TypeScript parser finds the log that the bytes spell, if any. */
  lemma {:induction false} ParseTextFindsLog(b: Bytes)
    ensures ParseText(ToHex(b)).Ok? <==> LogOf(b).Some?
    ensures LogOf(b).Some? ==> ParseText(ToHex(b)) == Ok(TextOf(LogOf(b).value))
  {
    assert ToHex(b)[2..] == Encode(b);
    StrippedFindsLog(b);
  }

  /**
   Both parsers on the same bytes. The TypeScript one accepts exactly the encodings of logs; the Rust
   one accepts those with at most 64 KB of data, and then both find the same log.
   */
  method ParseBoth(data: Bytes) returns (rust: Result<Log>, ts: Result<LogText>)
    ensures rust.Ok? ==> ts == Ok(TextOf(rust.value)) && ValidLog(rust.value) && EncodeLog(rust.value) == data
    ensures ts.Ok? <==> exists log :: ValidLog(log) && EncodeLog(log) == data
    ensures rust.Ok? <==> exists log :: ValidLog(log) && EncodeLog(log) == data && |log.data| <= 65536
  {
    rust := ParseUserLog(data);
    ts := ParsePolyjuiceUserLog(ToHex(data));
    ParseTextFindsLog(data);
    if LogOf(data).Some? {
      EncodeLogOfLogOf(data);
    }
    forall log | ValidLog(log) && EncodeLog(log) == data ensures LogOf(data) == Some(log) {
      LogOfEncodeLog(log);
    }
  }
}
