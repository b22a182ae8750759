/**
 The two implementations of topic matching (`db/helpers.ts`): the loop that filters logs in memory for
 websocket subscribers, and the conditions that the database evaluates for `getLogsByFilter`.
 */
module Topics {
  import opened Wrappers
  import opened Binary
  import opened Hex
  import Seqs

  datatype FilterTopic = Any | One(topic: string) | OneOf(topics: seq<string>)

  /** A database row, and the same log as `formatLog` hands it on. */
  datatype DbLog = DbLog(id: nat, topics: seq<Bytes>)

  datatype Log = Log(id: nat, topics: seq<string>)

  function FormatLog(log: DbLog): Log {
    Log(log.id, HexTexts(log.topics))
  }

  /** A formatted log keeps its id and has its topics in hex text, one by one. */
  lemma {:induction false} FormatKeeps(log: DbLog)
    ensures FormatLog(log).id == log.id && |FormatLog(log).topics| == |log.topics|
    ensures forall k :: 0 <= k < |log.topics| ==> FormatLog(log).topics[k] == ToHex(log.topics[k])
  {
  }

  function FormatLogs(logs: seq<DbLog>): (r: seq<Log>)
    ensures |r| == |logs|
  {
    seq(|logs|, i requires 0 <= i < |logs| => FormatLog(logs[i]))
  }

  /** `hexToBuffer`. */
  function HexToBuffer(hex: string): Bytes {
    BufferFrom(hex[Min(2, |hex|)..])
  }

  // ----- in memory -----

  predicate MatchesAt(topic: string, filter: FilterTopic) {
    match filter
    case Any => true
    case One(t) => t == "" || topic == t
    case OneOf(ts) => topic in ts
  }

  predicate Matches(log: Log, filter: seq<FilterTopic>) {
    |log.topics| >= |filter| && forall i :: 0 <= i < |filter| ==> MatchesAt(log.topics[i], filter[i])
  }

  function Select(logs: seq<Log>, filter: seq<FilterTopic>): seq<Log> {
    if logs == [] then []
    else Select(logs[..|logs| - 1], filter)
         + if Matches(logs[|logs| - 1], filter) then [logs[|logs| - 1]] else []
  }

  /** `filterLogsByTopics`, with its two early exits and its `match` flag. */
  method FilterLogsByTopics(logs: seq<Log>, filterTopics: seq<FilterTopic>) returns (result: seq<Log>)
    ensures result == Select(logs, filterTopics)
  {
    if |filterTopics| == 0 {
      SelectAll(logs, filterTopics);
      return logs;
    }
    result := [];
    if forall i :: 0 <= i < |filterTopics| ==> filterTopics[i].Any? {
      for n := 0 to |logs|
        invariant result == Select(logs[..n], filterTopics)
      {
        if |logs[n].topics| >= |filterTopics| {
          result := result + [logs[n]];
        }
        assert logs[..n + 1][..n] == logs[..n];
      }
      assert logs[..|logs|] == logs;
      return;
    }
    for n := 0 to |logs|
      invariant result == Select(logs[..n], filterTopics)
    {
      var isMatch := MatchLog(logs[n], filterTopics);
      if isMatch {
        result := result + [logs[n]];
      }
      assert logs[..n + 1][..n] == logs[..n];
    }
    assert logs[..|logs|] == logs;
  }

  /** The inner loop: it runs over the log's topics, which may be fewer or more than the filter's. */
  method MatchLog(log: Log, filterTopics: seq<FilterTopic>) returns (isMatch: bool)
    ensures isMatch <==> Matches(log, filterTopics)
  {
    var topics := log.topics;
    isMatch := |topics| >= |filterTopics|;
    var i := 0;
    while i < |topics|
      invariant 0 <= i <= |topics|
      invariant isMatch == (|topics| >= |filterTopics|)
      invariant forall k :: 0 <= k < i && k < |filterTopics| ==> MatchesAt(topics[k], filterTopics[k])
    {
      if i < |filterTopics| {
        match filterTopics[i] {
          case Any =>
          case One(t) =>
            if t != "" && topics[i] != t {
              isMatch := false;
              break;
            }
          case OneOf(ts) =>
            if topics[i] !in ts {
              isMatch := false;
              break;
            }
        }
      }
      i := i + 1;
    }
  }

  lemma {:induction false} SelectAll(logs: seq<Log>, filter: seq<FilterTopic>)
    requires filter == []
    ensures Select(logs, filter) == logs
  {
    if logs != [] {
      SelectAll(logs[..|logs| - 1], filter);
    }
  }

  // ----- in SQL -----

  /** One condition of the query; an index past the end of an array is NULL and selects nothing. */
  predicate SqlMatchesAt(topics: seq<Bytes>, i: nat, filter: FilterTopic) {
    match filter
    case Any => true
    case One(t) => i < |topics| && topics[i] == HexToBuffer(t)
    case OneOf(ts) => i < |topics| && exists t :: t in ts && topics[i] == HexToBuffer(t)
  }

  /** `buildQueryLogTopics`. */
  predicate SqlMatches(log: DbLog, filter: seq<FilterTopic>) {
    && (|filter| != 0 ==> |log.topics| >= |filter|)
    && forall i :: 0 <= i < |filter| ==> SqlMatchesAt(log.topics, i, filter[i])
  }

  function SqlSelect(logs: seq<DbLog>, filter: seq<FilterTopic>): seq<DbLog> {
    if logs == [] then []
    else SqlSelect(logs[..|logs| - 1], filter)
         + if SqlMatches(logs[|logs| - 1], filter) then [logs[|logs| - 1]] else []
  }

  // ----- when the two agree -----

  /** `verifyFilterTopicString`. */
  predicate ValidTopic(t: string) {
    FromHex(t).Ok? && |t| == 66
  }

  /** `verifyFilterTopic`, for lists without null entries. */
  predicate ValidFilter(filter: seq<FilterTopic>) {
    forall i :: 0 <= i < |filter| ==>
      match filter[i]
      case Any => true
      case One(t) => ValidTopic(t)
      case OneOf(ts) => forall k :: 0 <= k < |ts| ==> ValidTopic(ts[k])
  }

  predicate ValidLogs(logs: seq<DbLog>) {
    forall i, k :: 0 <= i < |logs| && 0 <= k < |logs[i].topics| ==> |logs[i].topics[k]| == 32
  }

  /** The lower-case spelling of a topic. */
  function Lower(t: string): string {
    ToHex(HexToBuffer(t))
  }

  predicate CaseSafeAt(f: FilterTopic) {
    match f
    case Any => true
    case One(t) => Lower(t) == t
    case OneOf(ts) => forall k :: 0 <= k < |ts| ==> Lower(ts[k]) in ts
  }

  /** Some list is empty (nothing can match), or every topic is listed in lower case. */
  predicate CaseSafe(filter: seq<FilterTopic>) {
    || (exists i :: 0 <= i < |filter| && filter[i] == OneOf([]))
    || (forall i :: 0 <= i < |filter| ==> CaseSafeAt(filter[i]))
  }

  lemma {:induction false} BufferFromIsDecode(s: string)
    requires AllHex(s) && |s| % 2 == 0
    ensures BufferFrom(s) == Decode(s)
  {
    if s != "" {
      BufferFromIsDecode(s[2..]);
    }
  }

  lemma {:induction false} BufferOfTopic(t: string)
    requires ValidTopic(t)
    ensures |HexToBuffer(t)| == 32
    ensures Lower(t) == t <==> CanonicalHex(t)
  {
    BufferFromIsDecode(t[2..]);
    ToHexOfFromHex(t);
  }

  /** The bytes the query compares with are those that the topic's text spells. */
  lemma {:induction false} BytesOfTopic(t: string)
    requires ValidTopic(t)
    ensures FromHex(t) == Ok(HexToBuffer(t))
  {
    BufferFromIsDecode(t[2..]);
  }

  lemma {:induction false} SameText(b: Bytes, t: string)
    requires ValidTopic(t)
    ensures ToHex(b) == t ==> b == HexToBuffer(t)
  {
    BufferFromOfToHex(b);
  }

  lemma {:induction false} SamePosition(b: Bytes, topics: seq<Bytes>, i: nat, f: FilterTopic)
    requires i < |topics| && b == topics[i]
    requires ValidFilter([f])
    ensures MatchesAt(ToHex(b), f) ==> SqlMatchesAt(topics, i, f)
    ensures CaseSafeAt(f) && SqlMatchesAt(topics, i, f) ==> MatchesAt(ToHex(b), f)
  {
    hide ToHex, HexToBuffer, FromHex;
    assert [f][0] == f;
    match f
    case Any =>
    case One(t) =>
      SameText(b, t);
    case OneOf(ts) =>
      if ToHex(b) in ts {
        SameText(b, ToHex(b));
      }
      if CaseSafeAt(f) && SqlMatchesAt(topics, i, f) {
        var t :| t in ts && b == HexToBuffer(t);
        var k :| 0 <= k < |ts| && ts[k] == t;
        assert Lower(ts[k]) in ts;
      }
  }

  /** In-memory matching never selects more than the query does; with a case-safe filter, the same. */
  lemma {:induction false} SameMatch(log: DbLog, filter: seq<FilterTopic>)
    requires ValidFilter(filter)
    ensures Matches(FormatLog(log), filter) ==> SqlMatches(log, filter)
    ensures CaseSafe(filter) ==> (Matches(FormatLog(log), filter) <==> SqlMatches(log, filter))
  {
    if |log.topics| >= |filter| {
      forall i | 0 <= i < |filter|
        ensures MatchesAt(FormatLog(log).topics[i], filter[i]) ==> SqlMatchesAt(log.topics, i, filter[i])
        ensures CaseSafeAt(filter[i]) && SqlMatchesAt(log.topics, i, filter[i])
                ==> MatchesAt(FormatLog(log).topics[i], filter[i])
      {
        assert ValidFilter([filter[i]]);
        SamePosition(log.topics[i], log.topics, i, filter[i]);
      }
      if i :| 0 <= i < |filter| && filter[i] == OneOf([]) {
        assert !SqlMatchesAt(log.topics, i, filter[i]);
      }
    }
  }

  lemma {:induction false} SameSelection(logs: seq<DbLog>, filter: seq<FilterTopic>)
    requires ValidFilter(filter) && CaseSafe(filter)
    ensures Select(FormatLogs(logs), filter) == FormatLogs(SqlSelect(logs, filter))
  {
    if logs != [] {
      var init, last := logs[..|logs| - 1], logs[|logs| - 1];
      SameSelection(init, filter);
      SameMatch(last, filter);
      assert FormatLogs(logs)[..|logs| - 1] == FormatLogs(init);
    }
  }

  /** A stored topic that the query condition accepts; at position `i` it is `b`. */
  function Bait(filter: seq<FilterTopic>, i: nat, b: Bytes): (topics: seq<Bytes>)
    requires forall k :: 0 <= k < |filter| ==> filter[k] != OneOf([])
    ensures |topics| == |filter|
  {
    seq(|filter|, k requires 0 <= k < |filter| =>
      if k == i then b else
      match filter[k]
      case Any => PadLeft([], 32)
      case One(t) => HexToBuffer(t)
      case OneOf(ts) => HexToBuffer(ts[0]))
  }

  lemma {:induction false} BaitIsTaken(filter: seq<FilterTopic>, i: nat, b: Bytes)
    requires ValidFilter(filter) && i < |filter|
    requires forall k :: 0 <= k < |filter| ==> filter[k] != OneOf([])
    requires SqlMatchesAt(Bait(filter, i, b), i, filter[i]) && |b| == 32
    ensures SqlMatches(DbLog(0, Bait(filter, i, b)), filter)
    ensures ValidLogs([DbLog(0, Bait(filter, i, b))])
  {
    var topics := Bait(filter, i, b);
    forall k | 0 <= k < |filter| ensures SqlMatchesAt(topics, k, filter[k]) && |topics[k]| == 32 {
      if k != i {
        match filter[k]
        case Any =>
        case One(t) => BufferOfTopic(t);
        case OneOf(ts) =>
          assert ts != [];
          assert ts[0] in ts;
          BufferOfTopic(ts[0]);
      }
    }
  }

  /** A topic list that is not closed under lower-casing selects a log by query that memory refuses. */
  lemma {:induction false} Differing(filter: seq<FilterTopic>) returns (logs: seq<DbLog>)
    requires ValidFilter(filter) && !CaseSafe(filter)
    ensures ValidLogs(logs)
    ensures Select(FormatLogs(logs), filter) != FormatLogs(SqlSelect(logs, filter))
  {
    var i :| 0 <= i < |filter| && !CaseSafeAt(filter[i]);
    var t;
    match filter[i] {
      case One(u) => t := u;
      case OneOf(ts) =>
        var k :| 0 <= k < |ts| && Lower(ts[k]) !in ts;
        t := ts[k];
    }
    var b := HexToBuffer(t);
    BufferOfTopic(t);
    var log := DbLog(0, Bait(filter, i, b));
    BaitIsTaken(filter, i, b);
    assert !MatchesAt(ToHex(b), filter[i]);
    assert FormatLog(log).topics[i] == ToHex(b);
    logs := [log];
    OnlyOne(log, filter);
  }

  lemma {:induction false} OnlyOne(log: DbLog, filter: seq<FilterTopic>)
    ensures SqlSelect([log], filter) == if SqlMatches(log, filter) then [log] else []
    ensures Select(FormatLogs([log]), filter) == if Matches(FormatLog(log), filter) then [FormatLog(log)] else []
  {
    Seqs.Single(log);
    var one := FormatLogs([log]);
    assert one[0] == FormatLog(log) && one[..0] == [];
  }

  /**
   The two filters select the same logs, in the same order, from every list of logs exactly when the
   filter is case safe: memory compares text, the database compares bytes.
   */
  lemma {:induction false} FiltersAgree(filter: seq<FilterTopic>)
    requires ValidFilter(filter)
    ensures (forall logs: seq<DbLog> :: ValidLogs(logs) ==>
               Select(FormatLogs(logs), filter) == FormatLogs(SqlSelect(logs, filter)))
            <==> CaseSafe(filter)
  {
    if CaseSafe(filter) {
      forall logs: seq<DbLog> ensures Select(FormatLogs(logs), filter) == FormatLogs(SqlSelect(logs, filter)) {
        SameSelection(logs, filter);
      }
    } else {
      var logs := Differing(filter);
    }
  }
}
