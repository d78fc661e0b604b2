/**
 The offset journal: commits are appended to a partition log as records and
 replayed into the map of committed positions.
 */
module OffsetStore {

  import opened Wrappers
  import opened Bytes
  import R = Record
  import opened Segments
  import opened Recovery
  import opened PartitionLog

  datatype OffsetKey = OffsetKey(group: seq<byte>, topic: seq<byte>, partition: i32)

  datatype Committed = Committed(offset: i64, metadata: seq<byte>, commitTime: i64)

  type Offsets = map<OffsetKey, Committed>

  // -------------------------------------------------------------- the encoding

  // The length is cut to sixteen bits; the bytes are not.
  function PutString(s: seq<byte>): seq<byte> {
    StoreLe(|s| % 0x1_0000, 2) + s
  }

  function GetString(bs: seq<byte>): Option<(seq<byte>, seq<byte>)> {
    if |bs| < 2 then None
    else
      var n := LoadLe(bs[..2]);
      if |bs| - 2 < n then None else Some((bs[2..2 + n], bs[2 + n..]))
  }

  function EncodeKey(k: OffsetKey): seq<byte> {
    PutString(k.group) + (PutString(k.topic) + StoreI32(k.partition))
  }

  function DecodeKey(bs: seq<byte>): Option<OffsetKey> {
    match GetString(bs)
    case None => None
    case Some((group, rest)) =>
      match GetString(rest)
      case None => None
      case Some((topic, last)) =>
        if |last| != 4 || LoadI32(last) < 0 then None else Some(OffsetKey(group, topic, LoadI32(last)))
  }

  function EncodeValue(v: Committed): seq<byte> {
    StoreI64(v.offset) + (StoreI64(v.commitTime) + PutString(v.metadata))
  }

  function DecodeValue(bs: seq<byte>): Option<Committed> {
    if |bs| < 16 then None
    else match GetString(bs[16..])
      case None => None
      case Some((metadata, rest)) =>
        if rest != [] then None else Some(Committed(LoadI64(bs[..8]), metadata, LoadI64(bs[8..16])))
  }

  predicate EncodableKey(k: OffsetKey) {
    |k.group| < 0x1_0000 && |k.topic| < 0x1_0000 && k.partition >= 0
  }

  predicate EncodableValue(v: Committed) {
    |v.metadata| < 0x1_0000
  }

  lemma StringReads(s: seq<byte>, rest: seq<byte>)
    ensures var n := |s| % 0x1_0000; GetString(PutString(s) + rest) == Some((s[..n], s[n..] + rest))
  {
    hide LoadLe, StoreLe, Pow256;
    var n := |s| % 0x1_0000;
    var bs := PutString(s) + rest;
    Widths();
    LoadStore(n, 2);
    assert bs[..2] == StoreLe(n, 2);
    assert bs[2..2 + n] == s[..n] && bs[2 + n..] == s[n..] + rest;
  }

  lemma StringRoundTrip(s: seq<byte>, rest: seq<byte>)
    requires |s| < 0x1_0000
    ensures GetString(PutString(s) + rest) == Some((s, rest))
  {
    hide GetString, PutString;
    StringReads(s, rest);
    assert s[..|s|] == s && s[|s|..] + rest == rest;
  }

  /** Encodable keys read back. */
  lemma KeyRoundTrip(k: OffsetKey)
    requires EncodableKey(k)
    ensures DecodeKey(EncodeKey(k)) == Some(k)
  {
    hide GetString, PutString, StoreI32, LoadI32;
    StringRoundTrip(k.group, PutString(k.topic) + StoreI32(k.partition));
    StringRoundTrip(k.topic, StoreI32(k.partition));
    LoadStoreI32(k.partition);
  }

  /** A value reads back exactly when its metadata fits the length field; otherwise it does not read at all. */
  lemma ValueReads(v: Committed)
    ensures DecodeValue(EncodeValue(v)) == if EncodableValue(v) then Some(v) else None
  {
    hide GetString, PutString, StoreI64, LoadI64;
    var bs := EncodeValue(v);
    assert bs[..8] == StoreI64(v.offset) && bs[8..16] == StoreI64(v.commitTime) && bs[16..] == PutString(v.metadata) + [];
    LoadStoreI64(v.offset);
    LoadStoreI64(v.commitTime);
    StringReads(v.metadata, []);
    if EncodableValue(v) {
      StringRoundTrip(v.metadata, []);
    }
  }

  lemma GetStringShort(bs: seq<byte>)
    ensures GetString(bs).Some? ==> |GetString(bs).value.0| < 0x1_0000
  {
    Widths();
  }

  /** Whatever is decoded is encodable. */
  lemma DecodesEncodable(key: seq<byte>, value: seq<byte>)
    ensures DecodeKey(key).Some? ==> EncodableKey(DecodeKey(key).value)
    ensures DecodeValue(value).Some? ==> EncodableValue(DecodeValue(value).value)
  {
    hide GetString, LoadI32, LoadI64;
    GetStringShort(key);
    if GetString(key).Some? {
      GetStringShort(GetString(key).value.1);
    }
    if |value| >= 16 {
      GetStringShort(value[16..]);
    }
  }

  /** The bytes of a small key and a small value. */
  lemma JournalLayout()
    ensures EncodeKey(OffsetKey([7], [8, 9], 3)) == [1, 0, 7, 2, 0, 8, 9, 3, 0, 0, 0]
    ensures EncodeValue(Committed(5, [6], 4)) == [5, 0, 0, 0, 0, 0, 0, 0, 4, 0, 0, 0, 0, 0, 0, 0, 1, 0, 6]
  {
    hide StoreLe;
    SmallNumbers();
  }

  lemma SmallNumbers()
    ensures StoreLe(1, 2) == [1, 0] && StoreLe(2, 2) == [2, 0] && StoreLe(3, 4) == [3, 0, 0, 0]
    ensures StoreLe(5, 8) == [5, 0, 0, 0, 0, 0, 0, 0] && StoreLe(4, 8) == [4, 0, 0, 0, 0, 0, 0, 0]
  {
  }

  // -------------------------------------------------------------------- replay

  const TOMBSTONE := 4

  /** One record's effect on the map. */
  function Apply(offsets: Offsets, r: R.Record): Offsets {
    match DecodeKey(R.KeyBytes(r.key))
    case None => offsets
    case Some(k) =>
      if (r.attributes / TOMBSTONE) % 2 == 1 then offsets - {k}
      else match DecodeValue(r.value)
        case None => offsets
        case Some(v) => offsets[k := v]
  }

  /** Bit 2 of the attributes is the tombstone: it removes the key, whatever the value; records with other keys are not touched. */
  lemma Tombstones(offsets: Offsets, r: R.Record, k: OffsetKey)
    requires DecodeKey(R.KeyBytes(r.key)) == Some(k)
    ensures r.attributes in {4, 5, 6, 7} ==> Apply(offsets, r) == offsets - {k}
    ensures r.attributes in {0, 1, 2, 3} ==>
      Apply(offsets, r) == match DecodeValue(r.value) { case None => offsets case Some(v) => offsets[k := v] }
  {
    hide DecodeKey, DecodeValue;
  }

  /** Replaying a list of records, oldest first. */
  function ReplayAll(rs: seq<R.Record>): Offsets {
    if rs == [] then map[] else Apply(ReplayAll(rs[..|rs| - 1]), rs[|rs| - 1])
  }

  // ------------------------------------------------------ journal against map

  datatype Write = Write(key: OffsetKey, value: Committed)

  /** The map as the commits left it. */
  function Live(commits: seq<Write>): Offsets {
    if commits == [] then map[]
    else Live(commits[..|commits| - 1])[commits[|commits| - 1].key := commits[|commits| - 1].value]
  }

  // Record i is commit i, as it was encoded.
  ghost predicate Journals(rs: seq<R.Record>, commits: seq<Write>) {
    |rs| == |commits| && forall i :: 0 <= i < |rs| ==> Encodes(rs[i], commits[i])
  }

  ghost predicate Encodes(r: R.Record, c: Write) {
    && r.attributes == 0 && r.key == Some(EncodeKey(c.key)) && r.value == EncodeValue(c.value)
    && (c.value.commitTime > 0 ==> r.timestamp == c.value.commitTime)
  }

  ghost predicate AllEncodable(m: Offsets) {
    forall k :: k in m ==> EncodableKey(k) && EncodableValue(m[k])
  }

  // The last commit of each key whose value can be read back.
  ghost function Readable(commits: seq<Write>): Offsets {
    if commits == [] then map[]
    else
      var c, before := commits[|commits| - 1], Readable(commits[..|commits| - 1]);
      if EncodableValue(c.value) then before[c.key := c.value] else before
  }

  lemma ApplyCommit(m: Offsets, r: R.Record, c: Write)
    requires Encodes(r, c) && EncodableKey(c.key)
    ensures Apply(m, r) == if EncodableValue(c.value) then m[c.key := c.value] else m
  {
    hide EncodeKey, EncodeValue, DecodeKey, DecodeValue;
    KeyRoundTrip(c.key);
    ValueReads(c.value);
  }

  lemma {:induction false} ReplayReads(rs: seq<R.Record>, commits: seq<Write>)
    requires Journals(rs, commits) && forall i :: 0 <= i < |commits| ==> EncodableKey(commits[i].key)
    ensures ReplayAll(rs) == Readable(commits)
  {
    hide Apply, Encodes, EncodableKey, EncodableValue;
    if rs != [] {
      var n := |rs| - 1;
      ReplayReads(rs[..n], commits[..n]);
      ApplyCommit(ReplayAll(rs[..n]), rs[n], commits[n]);
    }
  }

  lemma {:induction false} ReplayEncodable(rs: seq<R.Record>)
    ensures AllEncodable(ReplayAll(rs))
  {
    hide DecodeKey, DecodeValue, EncodableKey, EncodableValue;
    if rs != [] {
      var n := |rs| - 1;
      ReplayEncodable(rs[..n]);
      DecodesEncodable(R.KeyBytes(rs[n].key), rs[n].value);
    }
  }

  // Committed keys stay, and an encodable last value is what is read.
  lemma {:induction false} LiveKeys(commits: seq<Write>, i: nat)
    requires i < |commits|
    ensures commits[i].key in Live(commits)
  {
    if i < |commits| - 1 {
      LiveKeys(commits[..|commits| - 1], i);
    }
  }

  lemma {:induction false} ReadableIsLive(commits: seq<Write>, k: OffsetKey)
    ensures k in Readable(commits) ==> k in Live(commits)
    ensures k in Live(commits) && EncodableValue(Live(commits)[k]) ==> k in Readable(commits) && Readable(commits)[k] == Live(commits)[k]
  {
    hide EncodableValue;
    if commits != [] {
      ReadableIsLive(commits[..|commits| - 1], k);
    }
  }

  /** Replaying the journal rebuilds the live map exactly when every live entry fits the encoding. */
  lemma ReplayIff(rs: seq<R.Record>, commits: seq<Write>)
    requires Journals(rs, commits)
    ensures ReplayAll(rs) == Live(commits) <==> AllEncodable(Live(commits))
  {
    hide ReplayAll, Live, EncodableKey, EncodableValue, Encodes;
    ReplayEncodable(rs);
    if AllEncodable(Live(commits)) {
      forall i | 0 <= i < |commits|
        ensures EncodableKey(commits[i].key)
      {
        LiveKeys(commits, i);
      }
      ReplayReads(rs, commits);
      forall k
        ensures k in Readable(commits) <==> k in Live(commits)
        ensures k in Live(commits) ==> Readable(commits)[k] == Live(commits)[k]
      {
        ReadableIsLive(commits, k);
      }
    }
  }

  /** A bare commit to partition -1 is journalled and not replayed. */
  lemma NegativePartition()
    ensures var c := Write(OffsetKey([], [], -1), Committed(0, [], 0)); var r := JournalRecord(c.key, c.value);
      Journals([r], [c]) && ReplayAll([r]) != Live([c])
  {
    hide EncodeKey, EncodeValue, ReplayAll;
    var c := Write(OffsetKey([], [], -1), Committed(0, [], 0));
    var rs, cs := [JournalRecord(c.key, c.value)], [c];
    assert Encodes(rs[0], cs[0]);
    LiveKeys(cs, 0);
    ReplayIff(rs, cs);
  }

  /**
   Losing any suffix of the journal leaves the map as it stood after that many
   commits, again exactly when that map fits the encoding.
   */
  lemma ReplayPrefix(rs: seq<R.Record>, commits: seq<Write>, n: nat)
    requires Journals(rs, commits) && n <= |rs|
    ensures ReplayAll(rs[..n]) == Live(commits[..n]) <==> AllEncodable(Live(commits[..n]))
  {
    hide ReplayAll, Live, EncodableKey, EncodableValue, Encodes, AllEncodable;
    ReplayIff(rs[..n], commits[..n]);
  }

  // ------------------------------------------------------------ commit requests

  datatype CommitRequest = CommitRequest(
    group: seq<byte>, member: seq<byte>, generation: i32,
    topic: seq<byte>, partition: i32, offset: i64, metadata: seq<byte>)

  function EncodeRequest(q: CommitRequest): seq<byte> {
    PutString(q.group) + (PutString(q.member) + (StoreI32(q.generation) +
    (PutString(q.topic) + (StoreI32(q.partition) + (StoreI64(q.offset) + PutString(q.metadata))))))
  }

  /** CommitOffsetRequest::Decode; whatever follows the metadata is left unread. */
  function DecodeRequest(bs: seq<byte>): Option<CommitRequest> {
    match GetString(bs)
    case None => None
    case Some((group, afterGroup)) =>
      match GetString(afterGroup)
      case None => None
      case Some((member, afterMember)) =>
        if |afterMember| < 4 then None
        else match GetString(afterMember[4..])
          case None => None
          case Some((topic, afterTopic)) =>
            if |afterTopic| < 4 || LoadI32(afterTopic[..4]) < 0 || |afterTopic| < 12 then None
            else match GetString(afterTopic[12..])
              case None => None
              case Some((metadata, _)) =>
                Some(CommitRequest(group, member, LoadI32(afterMember[..4]),
                                   topic, LoadI32(afterTopic[..4]), LoadI64(afterTopic[4..12]), metadata))
  }

  predicate Sendable(q: CommitRequest) {
    && |q.group| < 0x1_0000 && |q.member| < 0x1_0000 && |q.topic| < 0x1_0000 && |q.metadata| < 0x1_0000
    && q.partition >= 0
  }

  lemma RequestRoundTrip(q: CommitRequest, rest: seq<byte>)
    requires Sendable(q)
    ensures DecodeRequest(EncodeRequest(q) + rest) == Some(q)
  {
    hide GetString, PutString, StoreI32, LoadI32, StoreI64, LoadI64;
    var metadata := PutString(q.metadata) + rest;
    var offset := StoreI64(q.offset) + metadata;
    var partition := StoreI32(q.partition) + offset;
    var topic := PutString(q.topic) + partition;
    var generation := StoreI32(q.generation) + topic;
    var member := PutString(q.member) + generation;
    assert EncodeRequest(q) + rest == PutString(q.group) + member;
    StringRoundTrip(q.group, member);
    StringRoundTrip(q.member, generation);
    assert generation[..4] == StoreI32(q.generation) && generation[4..] == topic;
    StringRoundTrip(q.topic, partition);
    assert partition[..4] == StoreI32(q.partition) && partition[4..12] == StoreI64(q.offset) && partition[12..] == metadata;
    StringRoundTrip(q.metadata, rest);
    LoadStoreI32(q.generation);
    LoadStoreI32(q.partition);
    LoadStoreI64(q.offset);
  }

  /** Whatever the broker decodes could have been sent. */
  lemma DecodesSendable(bs: seq<byte>)
    ensures DecodeRequest(bs).Some? ==> Sendable(DecodeRequest(bs).value)
  {
    hide GetString, LoadI32, LoadI64;
    if DecodeRequest(bs).Some? {
      var afterMember := GetString(GetString(bs).value.1).value.1;
      GetStringShort(bs);
      GetStringShort(GetString(bs).value.1);
      GetStringShort(afterMember[4..]);
      GetStringShort(GetString(afterMember[4..]).value.1[12..]);
    }
  }

  function WriteOf(q: CommitRequest, now: i64): Write {
    Write(OffsetKey(q.group, q.topic, q.partition), Committed(q.offset, q.metadata, now))
  }

  // Commit i carries out the request decoded from payload i.
  ghost predicate CarriesOut(commits: seq<Write>, payloads: seq<seq<byte>>) {
    |commits| == |payloads|
    && forall i :: 0 <= i < |commits| ==> Requests(payloads[i], commits[i])
  }

  ghost predicate Requests(payload: seq<byte>, c: Write) {
    var q := DecodeRequest(payload);
    q.Some? && c == WriteOf(q.value, c.value.commitTime)
  }

  /**
   Commits that came in over the wire always fit the encoding: replaying the
   journal, or any prefix of it, rebuilds the map with no condition at all.
   */
  lemma RequestsReplay(rs: seq<R.Record>, commits: seq<Write>, payloads: seq<seq<byte>>, n: nat)
    requires Journals(rs, commits) && CarriesOut(commits, payloads) && n <= |rs|
    ensures ReplayAll(rs[..n]) == Live(commits[..n])
  {
    hide ReplayAll, Live, Encodes, DecodeRequest;
    forall i | 0 <= i < n
      ensures EncodableKey(commits[i].key) && EncodableValue(commits[i].value)
    {
      assert Requests(payloads[i], commits[i]);
      DecodesSendable(payloads[i]);
    }
    LiveEncodable(commits[..n]);
    ReplayPrefix(rs, commits, n);
  }

  lemma {:induction false} LiveEncodable(commits: seq<Write>)
    requires forall i :: 0 <= i < |commits| ==> EncodableKey(commits[i].key) && EncodableValue(commits[i].value)
    ensures AllEncodable(Live(commits))
  {
    hide EncodableKey, EncodableValue;
    if commits != [] {
      LiveEncodable(commits[..|commits| - 1]);
    }
  }

  // ----------------------------------------------------------------- the store

  ghost function View(b: seq<byte>): R.Record {
    var p := R.Parse(b, true);
    if p.Parsed? then p.record else R.Record(0, 0, 0, None, [])
  }

  ghost function Views(rs: seq<seq<byte>>): (views: seq<R.Record>)
    ensures |views| == |rs| && forall i :: 0 <= i < |rs| ==> views[i] == View(rs[i])
  {
    seq(|rs|, i requires 0 <= i < |rs| => View(rs[i]))
  }

  // The record at a boundary of a run parses as it does alone.
  lemma NextView(rs: seq<seq<byte>>, m: nat, offset: int)
    requires ValidRun(rs, offset) && m < |rs|
    ensures var (flat, at) := (Flat(rs), |Flat(rs[..m])|);
      at < |flat|
      && R.Parse(flat[at..], true) == R.Parsed(View(rs[m]), |rs[m]|)
      && |Flat(rs[..m + 1])| == at + |rs[m]| <= |flat|
  {
    hide Flat, R.Parse;
    var head, b, tail := rs[..m], rs[m], rs[m + 1..];
    assert rs == head + [b] + tail && rs[..m + 1] == head + [b];
    FlatAppend(head + [b], tail);
    FlatAppend(head, [b]);
    FlatOne(b);
    assert ValidRecord(b, offset + m);
    R.ParsedDeclares(b, true);
    var rest := b + Flat(tail);
    assert rest[..|b|] == b == b[..|b|];
    R.ParseWindow(b, rest, |b|, true);
    assert Flat(rs)[|Flat(head)|..] == rest;
  }

  /** The inner loop of Replay: one read's worth of records. */
  method ApplyRun(given: Offsets, bytes: seq<byte>, ghost before: seq<R.Record>, ghost rs: seq<seq<byte>>, ghost offset: int)
    returns (offsets: Offsets)
    requires bytes == Flat(rs) && ValidRun(rs, offset) && given == ReplayAll(before)
    ensures offsets == ReplayAll(before + Views(rs))
  {
    hide Flat, R.Parse, ReplayAll, View, ValidRun;
    offsets := given;
    var pos := 0;
    ghost var m: nat := 0;
    EmptyFlat(rs[..0]);
    assert before + Views(rs)[..0] == before;
    while pos < |bytes|
      invariant m <= |rs| && pos == |Flat(rs[..m])| <= |bytes|
      invariant offsets == ReplayAll(before + Views(rs)[..m])
      decreases |bytes| - pos
    {
      InsideRun(rs, m);
      NextView(rs, m, offset);
      var p := R.ParseRecord(bytes, pos, true);
      offsets := Apply(offsets, p.record);
      ReplayStep(before, Views(rs), m);
      pos := pos + p.size;
      m := m + 1;
    }
    AllTaken(rs, m, offset);
    assert Views(rs)[..m] == Views(rs);
  }

  lemma InsideRun(rs: seq<seq<byte>>, m: nat)
    requires m <= |rs|
    ensures |Flat(rs[..m])| < |Flat(rs)| ==> m < |rs|
  {
    hide Flat;
    assert rs[..|rs|] == rs;
  }

  lemma ReplayStep(before: seq<R.Record>, views: seq<R.Record>, m: nat)
    requires m < |views|
    ensures ReplayAll(before + views[..m + 1]) == Apply(ReplayAll(before + views[..m]), views[m])
  {
    var all := before + views[..m + 1];
    assert all[..|all| - 1] == before + views[..m];
  }

  lemma AllTaken(rs: seq<seq<byte>>, m: nat, offset: int)
    requires ValidRun(rs, offset) && m <= |rs| && |Flat(rs[..m])| == |Flat(rs)|
    ensures m == |rs|
  {
    hide Flat, ValidRecord;
    if m < |rs| {
      NextView(rs, m, offset);
    }
  }

  /** Replay: the whole journal, a read at a time. */
  method Replay(log: PartitionLog) returns (r: Result<Offsets, Error>)
    requires log.Valid()
    ensures r.Ok? ==> r.value == ReplayAll(Views(log.Records()))
    ensures r.Err? ==> !Steppable(log.Records(), 0, |log.Records()|, StepLimit(log.options.interval))
  {
    hide Join, LogOk, LogKept, LogSized, ReplayAll, Flat, ValidRun, AllFramed, Steppable, ShortestRun, View, AllFound;
    ghost var rs := log.Records();
    log.SameCount();
    log.Bounds();
    log.AllValid();
    var offsets: Offsets := map[];
    NothingReplayed();
    var cursor := log.logStart;
    while cursor < log.logEnd
      invariant log.logStart <= cursor <= log.logEnd
      invariant offsets == ReplayAll(Views(rs[..cursor - log.logStart]))
      decreases log.logEnd - cursor
    {
      var read := log.Read(cursor, 0x10_0000);
      if read.Err? {
        UnreadableLarge(log, cursor, 0x10_0000);
        return Err(read.error);
      }
      ghost var k, n := cursor - log.logStart, read.value.0;
      SomethingRead(rs, k, 0x10_0000, n);
      RunWithin(rs, k, k + n, log.logStart);
      offsets := ApplyRun(offsets, read.value.1, Views(rs[..k]), rs[k..k + n], cursor);
      assert Views(rs[..k]) + Views(rs[k..k + n]) == Views(rs[..k + n]);
      cursor := cursor + read.value.0;
    }
    assert rs[..|rs|] == rs;
    return Ok(offsets);
  }

  lemma UnreadableLarge(log: PartitionLog, cursor: nat, maxBytes: nat)
    requires log.Valid() && |log.segments| == |log.parts| && log.logStart <= cursor
    requires !AllFound(log.segments, log.parts, cursor - log.logStart, maxBytes, StepLimit(log.options.interval))
    ensures !Steppable(log.Records(), 0, |log.Records()|, StepLimit(log.options.interval))
  {
    hide Join, LogOk, LogKept, LogSized, Start, Restarts, FoundAt, Steppable;
    var k, limit := cursor - log.logStart, StepLimit(log.options.interval);
    var g :| k <= g < |Join(log.parts)| && Start(Join(log.parts), g) - Start(Join(log.parts), k) < maxBytes
             && Restarts(Join(log.parts), k, maxBytes, g) && !FoundAt(log.segments, log.parts, g, limit);
    NotFoundLarge(log.segments, log.parts, g, limit);
  }

  lemma NothingReplayed()
    ensures ReplayAll(Views([])) == map[]
  {
  }

  lemma SomethingRead(rs: seq<seq<byte>>, k: nat, maxBytes: nat, n: nat)
    requires ShortestRun(rs, k, maxBytes, n) && k < |rs| && maxBytes > 0
    ensures 1 <= n && k + n <= |rs|
  {
    hide Start;
    if n == 0 {
      assert Start(rs, k + n) == Start(rs, k);
    }
  }

  class OffsetStore {
    const log: PartitionLog
    var offsets: Offsets
    ghost var commits: seq<Write>

    /** The map is what the commits made it, and the journal holds exactly those commits. */
    ghost predicate Valid()
      reads this, log
    {
      log.Valid() && offsets == Live(commits) && Journals(Views(log.Records()), commits)
    }

    constructor (log: PartitionLog)
      requires log.Valid() && log.Records() == []
      ensures Valid() && this.log == log && commits == []
    {
      this.log := log;
      offsets, commits := map[], [];
    }

    /** Reopening the journal gives back the map exactly when every entry of it fits the encoding. */
    lemma Reopens()
      requires Valid()
      ensures ReplayAll(Views(log.Records())) == offsets <==> AllEncodable(offsets)
    {
      hide ReplayAll, Live, Views, Journals, AllEncodable;
      ReplayIff(Views(log.Records()), commits);
    }

    /** Commit: journal first, then the map; a record the journal refuses changes neither. */
    method Commit(key: OffsetKey, value: Committed, appendTime: i64, ageDue: bool, diskFull: bool) returns (ok: bool)
      requires Valid()
      requires |R.Encode(JournalRecord(key, value))| <= UINT32_MAX
      requires log.logEnd + |R.Encode(JournalRecord(key, value))| < OFFSET_LIMIT
      modifies this`offsets, this`commits, log
      ensures Valid()
      ensures ok <==> !log.closed && !diskFull && R.Fits(JournalRecord(key, value))
      ensures ok ==> commits == old(commits) + [Write(key, value)]
      ensures !ok ==> commits == old(commits) && offsets == old(offsets) && log.Records() == old(log.Records())
    {
      hide LogOk, LogKept, LogSized, Join, R.Encode, Stamped, Views, View, Live, R.Fits, Journals, JournalRecord;
      var record := JournalRecord(key, value);
      var bytes, total := R.AppendRecord([], record);
      assert bytes == R.Encode(record);
      var buf := new byte[|bytes|](i requires 0 <= i < |bytes| => bytes[i]);
      assert buf[..] == bytes;
      ghost var before, end := log.Records(), log.logEnd;
      StampOne(record, end, appendTime);
      var error := log.AppendAssigningOffsets(buf, 1, appendTime, ageDue, diskFull);
      if error.Some? {
        return false;
      }
      ghost var b := Stamped(bytes, end, appendTime).value[0];
      assert log.Records() == before + [b];
      JournalGrows(before, commits, b, Write(key, value), end, appendTime);
      LiveGrows(commits, Write(key, value));
      offsets := offsets[key := value];
      commits := commits + [Write(key, value)];
      return true;
    }
  }

  function JournalRecord(key: OffsetKey, value: Committed): R.Record {
    R.Record(0, value.commitTime, 0, Some(EncodeKey(key)), EncodeValue(value))
  }

  // The stamped record is the journal record at its offset; past the size limit nothing is stamped.
  lemma StampOne(record: R.Record, end: nat, now: i64)
    requires |R.Encode(record)| <= UINT32_MAX && end + |R.Encode(record)| < OFFSET_LIMIT
    ensures var st := Stamped(R.Encode(record), end, now);
      if R.Fits(record) then
        st.Some? && |st.value| == 1 && R.Parse(st.value[0], true).Parsed?
        && View(st.value[0]) == record.(offset := end, timestamp := StampTime(record, now))
      else st == None
  {
    hide R.Encode, R.Parse, Stamped;
    var e := R.Encode(record);
    StampedValid(e, end, now);
    if R.Fits(record) {
      assert R.EncodeAll([record]) == e + [] == e && e + [] == e;
      R.RunRoundTrip([record], [], false);
    } else {
      R.ParseTooLong(record, [], false);
      assert e + [] == e;
    }
  }

  lemma JournalGrows(rs: seq<seq<byte>>, commits: seq<Write>, b: seq<byte>, c: Write, offset: i64, now: i64)
    requires Journals(Views(rs), commits)
    requires var record := JournalRecord(c.key, c.value);
      View(b) == record.(offset := offset, timestamp := StampTime(record, now))
    ensures Journals(Views(rs + [b]), commits + [c])
  {
    hide View, EncodeKey, EncodeValue;
  }

  lemma LiveGrows(commits: seq<Write>, c: Write)
    ensures Live(commits + [c]) == Live(commits)[c.key := c.value]
  {
    assert (commits + [c])[..|commits|] == commits;
  }
}
