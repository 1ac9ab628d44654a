/** Message history: an append-only event log replayed into a bounded window of
records with a set of record keys beside it, acknowledgements folded into
earlier records, and the log rewritten by compaction.

A line that cannot be read, is blank, or is not an event is `Skipped`; how an
event is written as JSON is not part of this model. The window bound, the file
bound and the length of a written line are parameters. */
module History {
  import opened Wrappers
  import opened Text

  const FORMAT_VERSION: nat := 1
  const MAX_TEXT: nat := 256 * 1024

  datatype Record = Record(
    createdMs: nat, timestampUtc: string, author: string, sender: Option<string>, text: string,
    mine: bool, offline: bool, msgId: Option<nat>, delivered: bool,
    expected: seq<string>, received: seq<string>)

  datatype Event =
    | Message(version: nat, record: Record)
    | Delivery(version: nat, msgId: nat, peer: Option<string>)

  datatype Line = Skipped | Parsed(event: Event)

  // ---------- keys ----------

  /** The dedup key: direction, message id and lower-case sender in one string. */
  function KeyOf(r: Record): Option<string> {
    if r.msgId.None? then None
    else Some((if r.mine then "out" else "in") + [':'] + (Dec(r.msgId.value) + [':'] + Lower(r.sender.GetOr(""))))
  }

  /** What a key is for: the same direction, id and sender up to ASCII case. */
  ghost predicate SameIdentity(a: Record, b: Record) {
    && a.msgId.Some? && a.msgId == b.msgId
    && a.mine == b.mine
    && SameIgnoringCase(a.sender.GetOr(""), b.sender.GetOr(""))
  }

  /** The key string is injective in the triple it is built from. */
  lemma KeyInjective(a: Record, b: Record)
    requires a.msgId.Some?
    ensures KeyOf(a) == KeyOf(b) <==> SameIdentity(a, b)
  {
    SameIgnoringCaseIffLowerEqual(a.sender.GetOr(""), b.sender.GetOr(""));
    if b.msgId.Some? {
      SplitKey(a);
      SplitKey(b);
      if Dec(a.msgId.value) == Dec(b.msgId.value) {
        DecInjective(a.msgId.value, b.msgId.value);
      }
      assert "out"[0] != "in"[0];
    }
  }

  lemma SplitKey(r: Record)
    requires r.msgId.Some?
    ensures var rest := Dec(r.msgId.value) + [':'] + Lower(r.sender.GetOr(""));
            && SplitOnce(KeyOf(r).value, ':') == Some((if r.mine then "out" else "in", rest))
            && SplitOnce(rest, ':') == Some((Dec(r.msgId.value), Lower(r.sender.GetOr(""))))
  {
    var rest := Dec(r.msgId.value) + [':'] + Lower(r.sender.GetOr(""));
    DecPlain(r.msgId.value);
    SplitOnceAfter(Dec(r.msgId.value), ':', Lower(r.sender.GetOr("")));
    var direction := if r.mine then "out" else "in";
    assert ':' !in direction;
    SplitOnceAfter(direction, ':', rest);
    assert KeyOf(r).value == direction + [':'] + rest;
  }

  function Keys(records: seq<Record>): set<string> {
    set i | 0 <= i < |records| && KeyOf(records[i]).Some? :: KeyOf(records[i]).value
  }

  ghost predicate DistinctKeys(records: seq<Record>) {
    forall i, j :: 0 <= i < j < |records| && KeyOf(records[i]).Some? ==> KeyOf(records[i]) != KeyOf(records[j])
  }

  /** What every replayed window satisfies. */
  ghost predicate Fits(limit: nat, records: seq<Record>) {
    && |records| <= limit
    && DistinctKeys(records)
    && forall i :: 0 <= i < |records| ==> |records[i].text| <= MAX_TEXT
  }

  // ---------- acknowledgements ----------

  predicate Mentions(names: seq<string>, peer: string) {
    exists i :: 0 <= i < |names| && SameIgnoringCase(names[i], peer)
  }

  /** One delivery event, as it changes the record it is for. */
  function Acknowledge(r: Record, peer: Option<string>): Record {
    match peer
    case None => r.(delivered := true)
    case Some(p) =>
      var received := if Mentions(r.expected, p) && !Mentions(r.received, p) then r.received + [Lower(p)] else r.received;
      r.(received := received, delivered := r.expected != [] && |received| >= |r.expected|)
  }

  /** The newest record sent by this side under `msgId`, or none. */
  function NewestOwn(records: seq<Record>, msgId: nat): (at: Option<nat>)
    ensures at.Some? ==> at.value < |records| && records[at.value].mine && records[at.value].msgId == Some(msgId)
    ensures forall j :: (if at.Some? then at.value + 1 else 0) <= j < |records|
              ==> !(records[j].mine && records[j].msgId == Some(msgId))
  {
    if records == [] then None
    else
      var last := |records| - 1;
      if records[last].mine && records[last].msgId == Some(msgId) then Some(last)
      else NewestOwn(records[..last], msgId)
  }

  function ApplyDelivery(records: seq<Record>, msgId: nat, peer: Option<string>): seq<Record> {
    match NewestOwn(records, msgId)
    case None => records
    case Some(i) => records[i := Acknowledge(records[i], peer)]
  }

  // ---------- replay ----------

  function LastN<T>(s: seq<T>, n: nat): seq<T> {
    if |s| <= n then s else s[|s| - n..]
  }

  predicate WellFormed(version: nat, r: Record) {
    version == FORMAT_VERSION && |r.text| <= MAX_TEXT
  }

  predicate Fresh(records: seq<Record>, r: Record) {
    KeyOf(r).None? || KeyOf(r).value !in Keys(records)
  }

  /** One log line, on the window alone. */
  function Step(limit: nat, records: seq<Record>, line: Line): seq<Record> {
    match line
    case Skipped => records
    case Parsed(Message(version, r)) =>
      if WellFormed(version, r) && Fresh(records, r) then LastN(records + [r], limit) else records
    case Parsed(Delivery(version, msgId, peer)) =>
      if version == FORMAT_VERSION then ApplyDelivery(records, msgId, peer) else records
  }

  function Replay(limit: nat, records: seq<Record>, lines: seq<Line>): seq<Record> {
    if lines == [] then records
    else Step(limit, Replay(limit, records, lines[..|lines| - 1]), lines[|lines| - 1])
  }

  lemma {:induction false} ReplayConcat(limit: nat, records: seq<Record>, a: seq<Line>, b: seq<Line>)
    ensures Replay(limit, records, a + b) == Replay(limit, Replay(limit, records, a), b)
    decreases |b|
  {
    if b == [] {
      assert a + b == a;
    } else {
      var k := |b| - 1;
      ReplayConcat(limit, records, a, b[..k]);
      assert (a + b)[..|a + b| - 1] == a + b[..k];
    }
  }

  lemma DeliveryKeepsFits(limit: nat, records: seq<Record>, msgId: nat, peer: Option<string>)
    requires Fits(limit, records)
    ensures Fits(limit, ApplyDelivery(records, msgId, peer))
    ensures forall i :: 0 <= i < |records| ==> KeyOf(ApplyDelivery(records, msgId, peer)[i]) == KeyOf(records[i])
  {
  }

  lemma StepKeepsFits(limit: nat, records: seq<Record>, line: Line)
    requires Fits(limit, records)
    ensures Fits(limit, Step(limit, records, line))
  {
    match line
    case Parsed(Message(version, r)) =>
      if WellFormed(version, r) && Fresh(records, r) {
        var all := records + [r];
        assert DistinctKeys(all) by {
          forall i | 0 <= i < |records| && KeyOf(records[i]).Some? ensures KeyOf(records[i]) != KeyOf(r) {
            assert KeyOf(records[i]).value in Keys(records);
          }
        }
      }
    case Parsed(Delivery(version, msgId, peer)) => DeliveryKeepsFits(limit, records, msgId, peer);
    case Skipped =>
  }

  lemma {:induction false} ReplayKeepsFits(limit: nat, records: seq<Record>, lines: seq<Line>)
    requires Fits(limit, records)
    ensures Fits(limit, Replay(limit, records, lines))
    decreases |lines|
  {
    if lines != [] {
      ReplayKeepsFits(limit, records, lines[..|lines| - 1]);
      StepKeepsFits(limit, Replay(limit, records, lines[..|lines| - 1]), lines[|lines| - 1]);
    }
  }

  // ---------- compaction ----------

  function CompactLines(records: seq<Record>): seq<Line> {
    seq(|records|, i requires 0 <= i < |records| => Parsed(Message(FORMAT_VERSION, records[i])))
  }

  /** A window written out as messages replays to itself. */
  lemma {:induction false} ReplayOfCompact(limit: nat, records: seq<Record>)
    requires Fits(limit, records)
    ensures Replay(limit, [], CompactLines(records)) == records
    decreases |records|
  {
    if records != [] {
      var k := |records| - 1;
      ReplayOfCompact(limit, records[..k]);
      CompactSnoc(limit, records[..k], records[k], records);
    }
  }

  /** The line of the newest record adds that record. */
  lemma CompactSnoc(limit: nat, init: seq<Record>, last: Record, records: seq<Record>)
    requires records == init + [last] && Fits(limit, records) && Replay(limit, [], CompactLines(init)) == init
    ensures Replay(limit, [], CompactLines(records)) == records
  {
    var lines := CompactLines(records);
    assert records[|init|] == last && records[..|init|] == init;
    assert lines[..|lines| - 1] == CompactLines(init);
    FreshLast(init, last);
  }

  lemma FreshLast(init: seq<Record>, last: Record)
    requires DistinctKeys(init + [last])
    ensures Fresh(init, last)
  {
    var records := init + [last];
    forall i | 0 <= i < |init| && KeyOf(init[i]).Some? ensures KeyOf(init[i]) != KeyOf(last) {
      assert records[i] == init[i] && records[|init|] == last;
    }
  }

  /** Compaction cannot be observed by anything appended later. */
  lemma CompactionInvisible(limit: nat, log: seq<Line>, later: seq<Line>)
    ensures Replay(limit, [], CompactLines(Replay(limit, [], log)) + later) == Replay(limit, [], log + later)
  {
    var records := Replay(limit, [], log);
    ReplayKeepsFits(limit, [], log);
    ReplayOfCompact(limit, records);
    ReplayConcat(limit, [], CompactLines(records), later);
    ReplayConcat(limit, [], log, later);
  }

  datatype FileOp = Append(line: Line) | Compact

  /** The file after a run of appends and compactions, in any order. */
  function FileAfter(limit: nat, ops: seq<FileOp>): seq<Line> {
    if ops == [] then []
    else
      var before := FileAfter(limit, ops[..|ops| - 1]);
      match ops[|ops| - 1]
      case Append(line) => before + [line]
      case Compact => CompactLines(Replay(limit, [], before))
  }

  /** The file the same run would have left without its compactions. */
  function Appended(ops: seq<FileOp>): seq<Line> {
    if ops == [] then []
    else
      var before := Appended(ops[..|ops| - 1]);
      if ops[|ops| - 1].Append? then before + [ops[|ops| - 1].line] else before
  }

  lemma LaterLines(lines: seq<Line>, line: Line, later: seq<Line>)
    ensures lines + [line] + later == lines + ([line] + later)
  {
  }

  /** However often and wherever a log is compacted, it keeps loading as the
  log that never was, now and after any further lines. */
  lemma {:induction false} AnyCompactionsInvisible(limit: nat, ops: seq<FileOp>, later: seq<Line>)
    ensures Replay(limit, [], FileAfter(limit, ops) + later) == Replay(limit, [], Appended(ops) + later)
    decreases |ops|
  {
    if ops != [] {
      var init, op := ops[..|ops| - 1], ops[|ops| - 1];
      var before := FileAfter(limit, init);
      match op
      case Append(line) =>
        AnyCompactionsInvisible(limit, init, [line] + later);
        LaterLines(before, line, later);
        LaterLines(Appended(init), line, later);
      case Compact =>
        CompactionInvisible(limit, before, later);
        AnyCompactionsInvisible(limit, init, later);
    }
  }

  // ---------- the window refines the whole history ----------

  /** The reference: nothing is ever evicted, a message is accepted when no
  record among the last `limit` accepted has its identity, and deliveries
  look through everything. */
  ghost function WholeHistory(limit: nat, lines: seq<Line>): seq<Record> {
    if lines == [] then [] else HistoryStep(limit, WholeHistory(limit, lines[..|lines| - 1]), lines[|lines| - 1])
  }

  ghost function HistoryStep(limit: nat, all: seq<Record>, line: Line): seq<Record> {
    match line
    case Skipped => all
    case Parsed(Message(version, r)) =>
      if WellFormed(version, r) && NoTwin(LastN(all, limit), r) then all + [r] else all
    case Parsed(Delivery(version, msgId, peer)) =>
      if version == FORMAT_VERSION then ApplyDelivery(all, msgId, peer) else all
  }

  ghost predicate NoTwin(records: seq<Record>, r: Record) {
    forall i :: 0 <= i < |records| ==> !SameIdentity(r, records[i])
  }

  lemma FreshIffNoTwin(records: seq<Record>, r: Record)
    ensures Fresh(records, r) <==> NoTwin(records, r)
  {
    if KeyOf(r).Some? {
      forall i | 0 <= i < |records| ensures KeyOf(r) == KeyOf(records[i]) <==> SameIdentity(r, records[i]) {
        KeyInjective(r, records[i]);
      }
      if KeyOf(r).value in Keys(records) {
        var i :| 0 <= i < |records| && KeyOf(records[i]).Some? && KeyOf(records[i]).value == KeyOf(r).value;
        assert SameIdentity(r, records[i]);
      }
    }
  }

  /** A delivery reaches the same record whether it looks through the window or
  through everything; one that only an evicted record matches is lost. */
  lemma DeliveryInWindow(limit: nat, all: seq<Record>, msgId: nat, peer: Option<string>)
    ensures LastN(ApplyDelivery(all, msgId, peer), limit) == ApplyDelivery(LastN(all, limit), msgId, peer)
  {
    DeliveryInSuffix(all, Evicted(all, limit), msgId, peer);
    LastNIsSuffix(all, limit);
    LastNIsSuffix(ApplyDelivery(all, msgId, peer), limit);
  }

  function Evicted<T>(s: seq<T>, n: nat): nat {
    if |s| <= n then 0 else |s| - n
  }

  lemma LastNIsSuffix<T>(s: seq<T>, n: nat)
    ensures LastN(s, n) == s[Evicted(s, n)..]
  {
  }

  lemma DeliveryInSuffix(all: seq<Record>, cut: nat, msgId: nat, peer: Option<string>)
    requires cut <= |all|
    ensures |ApplyDelivery(all, msgId, peer)| == |all|
    ensures ApplyDelivery(all, msgId, peer)[cut..] == ApplyDelivery(all[cut..], msgId, peer)
  {
    NewestInSuffix(all, cut, msgId);
    match NewestOwn(all, msgId)
    case None =>
    case Some(i) =>
      var r := Acknowledge(all[i], peer);
      UpdateInSuffix(all, cut, i, r);
      assert ApplyDelivery(all, msgId, peer) == all[i := r];
      if i >= cut {
        assert ApplyDelivery(all[cut..], msgId, peer) == all[cut..][i - cut := r];
      }
  }

  lemma UpdateInSuffix<T>(s: seq<T>, cut: nat, i: nat, x: T)
    requires cut <= |s| && i < |s|
    ensures i < cut ==> s[i := x][cut..] == s[cut..]
    ensures i >= cut ==> s[cut..][i - cut] == s[i] && s[i := x][cut..] == s[cut..][i - cut := x]
  {
  }

  lemma NewestInSuffix(all: seq<Record>, cut: nat, msgId: nat)
    requires cut <= |all|
    ensures NewestOwn(all[cut..], msgId) ==
            match NewestOwn(all, msgId) case None => None case Some(i) => if i >= cut then Some(i - cut) else None
  {
    var inAll, inSuffix := NewestOwn(all, msgId), NewestOwn(all[cut..], msgId);
    forall j | cut <= j < |all| ensures all[cut..][j - cut] == all[j] {}
    if inSuffix.Some? {
      assert all[cut + inSuffix.value] == all[cut..][inSuffix.value];
    }
  }

  lemma StepRefines(limit: nat, all: seq<Record>, line: Line)
    ensures Step(limit, LastN(all, limit), line) == LastN(HistoryStep(limit, all, line), limit)
  {
    match line
    case Parsed(Message(version, r)) =>
      FreshIffNoTwin(LastN(all, limit), r);
      LastNSnoc(all, r, limit);
    case Parsed(Delivery(version, msgId, peer)) => DeliveryInWindow(limit, all, msgId, peer);
    case Skipped =>
  }

  lemma LastNSnoc<T>(s: seq<T>, x: T, n: nat)
    ensures LastN(LastN(s, n) + [x], n) == LastN(s + [x], n)
    ensures LastN(LastN(s, n), n) == LastN(s, n)
  {
  }

  /** Replay with its bounded window and its key set is the last `limit` records
  of the whole history. */
  lemma {:induction false} WindowRefinesHistory(limit: nat, lines: seq<Line>)
    ensures Replay(limit, [], lines) == LastN(WholeHistory(limit, lines), limit)
    decreases |lines|
  {
    if lines != [] {
      var init, last := lines[..|lines| - 1], lines[|lines| - 1];
      WindowRefinesHistory(limit, init);
      StepRefines(limit, WholeHistory(limit, init), last);
    }
  }

  function Unacknowledged(r: Record): Record {
    r.(delivered := false, received := [])
  }

  function WithoutAcks(records: seq<Record>): seq<Record> {
    seq(|records|, i requires 0 <= i < |records| => Unacknowledged(records[i]))
  }

  function WithoutDeliveries(lines: seq<Line>): seq<Line> {
    if lines == [] then []
    else
      var before := WithoutDeliveries(lines[..|lines| - 1]);
      var last := lines[|lines| - 1];
      if last.Parsed? && last.event.Delivery? then before else before + [last]
  }

  lemma WithoutAcksKeepsTwins(limit: nat, a: seq<Record>, b: seq<Record>, r: Record)
    requires WithoutAcks(a) == WithoutAcks(b)
    ensures NoTwin(LastN(a, limit), r) <==> NoTwin(LastN(b, limit), r)
  {
    assert |a| == |WithoutAcks(a)| == |WithoutAcks(b)| == |b|;
    forall i | 0 <= i < |a| ensures SameIdentity(r, a[i]) <==> SameIdentity(r, b[i]) {
      assert WithoutAcks(a)[i] == Unacknowledged(a[i]);
      assert WithoutAcks(b)[i] == Unacknowledged(b[i]);
    }
    var cut := |a| - |LastN(a, limit)|;
    forall i | 0 <= i < |LastN(a, limit)|
      ensures SameIdentity(r, LastN(a, limit)[i]) <==> SameIdentity(r, LastN(b, limit)[i])
    {
      assert LastN(a, limit)[i] == a[cut + i] && LastN(b, limit)[i] == b[cut + i];
    }
  }

  /** Which messages are accepted, and everything in them but the
  acknowledgement fields, does not depend on the deliveries in the log. */
  lemma {:induction false} DeliveriesOnlyAcknowledge(limit: nat, lines: seq<Line>)
    ensures WithoutAcks(WholeHistory(limit, lines)) == WithoutAcks(WholeHistory(limit, WithoutDeliveries(lines)))
    decreases |lines|
  {
    if lines != [] {
      var init, last := lines[..|lines| - 1], lines[|lines| - 1];
      DeliveriesOnlyAcknowledge(limit, init);
      var a, b := WholeHistory(limit, init), WholeHistory(limit, WithoutDeliveries(init));
      if last.Parsed? && last.event.Delivery? {
        assert WithoutAcks(ApplyDelivery(a, last.event.msgId, last.event.peer)) == WithoutAcks(a);
      } else {
        var kept := WithoutDeliveries(init) + [last];
        assert kept[..|kept| - 1] == WithoutDeliveries(init);
        if last.Parsed? {
          var r := last.event.record;
          WithoutAcksKeepsTwins(limit, a, b, r);
          assert WithoutAcks(a + [r]) == WithoutAcks(a) + [Unacknowledged(r)];
          assert WithoutAcks(b + [r]) == WithoutAcks(b) + [Unacknowledged(r)];
        }
      }
    }
  }

  /** An event of this version of the format. */
  predicate Current(line: Line) {
    line.Parsed? && line.event.version == 1
  }

  function OfThisVersion(lines: seq<Line>): seq<Line> {
    if lines == [] then []
    else
      var before := OfThisVersion(lines[..|lines| - 1]);
      if Current(lines[|lines| - 1]) then before + [lines[|lines| - 1]] else before
  }

  /** Lines that are no event, and events of other versions, might as well not be
  there. */
  lemma {:induction false} OnlyThisVersionCounts(limit: nat, lines: seq<Line>)
    ensures Replay(limit, [], lines) == Replay(limit, [], OfThisVersion(lines))
    decreases |lines|
  {
    if lines != [] {
      var init, last := lines[..|lines| - 1], lines[|lines| - 1];
      OnlyThisVersionCounts(limit, init);
      if Current(last) {
        assert (OfThisVersion(init) + [last])[..|OfThisVersion(init)|] == OfThisVersion(init);
      }
    }
  }

  // ---------- the running program ----------

  /** The deque and the hash set `load` keeps while it reads. */
  class ReplayWindow {
    const limit: nat
    var records: seq<Record>
    var keys: set<string>

    ghost predicate Valid()
      reads this
    {
      Fits(limit, records) && keys == Keys(records)
    }

    constructor (limit: nat)
      ensures Valid() && this.limit == limit && records == []
    {
      this.limit := limit;
      records, keys := [], {};
    }

    /** A message line: dedup by key, push, evict from the front. */
    method Accept(version: nat, record: Record)
      requires Valid()
      modifies this
      ensures Valid()
      ensures records == Step(limit, old(records), Parsed(Message(version, record)))
    {
      ghost var before := records;
      if !(version == FORMAT_VERSION && |record.text| <= MAX_TEXT) {
        return;
      }
      var key := KeyOf(record);
      if key.Some? {
        if key.value in keys {
          return;
        }
        keys := keys + {key.value};
      }
      records := records + [record];
      KeysSnoc(before, record);
      StepKeepsFits(|before| + 1, before, Parsed(Message(version, record)));
      Evict();
      StepKeepsFits(limit, before, Parsed(Message(version, record)));
    }

    /** Pop from the front, keys included, until the bound holds again. */
    method Evict()
      requires DistinctKeys(records) && keys == Keys(records)
      modifies this
      ensures records == LastN(old(records), limit)
      ensures DistinctKeys(records) && keys == Keys(records)
    {
      ghost var all := records;
      while |records| > limit
        invariant |records| <= |all| && records == all[|all| - |records|..]
        invariant |records| >= limit || records == all
        invariant DistinctKeys(records) && keys == Keys(records)
      {
        var removed := records[0];
        KeysTail(records);
        records := records[1..];
        if KeyOf(removed).Some? {
          keys := keys - {KeyOf(removed).value};
        }
      }
    }

    /** A delivery line: find the newest own record from the back and change it. */
    method Deliver(msgId: nat, peer: Option<string>)
      requires Valid()
      modifies this`records
      ensures Valid()
      ensures records == ApplyDelivery(old(records), msgId, peer)
    {
      DeliveryKeepsFits(limit, records, msgId, peer);
      var i := |records|;
      while i > 0
        invariant 0 <= i <= |records|
        invariant records == old(records)
        invariant forall j :: i <= j < |records| ==> !(records[j].mine && records[j].msgId == Some(msgId))
      {
        i := i - 1;
        if records[i].mine && records[i].msgId == Some(msgId) {
          assert NewestOwn(records, msgId) == Some(i);
          ghost var before := records;
          records := records[i := Acknowledge(records[i], peer)];
          assert Keys(records) == Keys(before) by {
            assert forall j :: 0 <= j < |before| ==> KeyOf(records[j]) == KeyOf(before[j]);
          }
          return;
        }
      }
    }
  }

  lemma KeysSnoc(records: seq<Record>, r: Record)
    ensures Keys(records + [r]) == Keys(records) + (if KeyOf(r).Some? then {KeyOf(r).value} else {})
  {
    var all := records + [r];
    assert all[|records|] == r;
    forall i | 0 <= i < |records| && KeyOf(records[i]).Some? ensures KeyOf(records[i]).value in Keys(all) {
      assert all[i] == records[i];
    }
    if KeyOf(r).Some? {
      assert KeyOf(all[|records|]).value in Keys(all);
    }
  }

  lemma KeysTail(records: seq<Record>)
    requires records != [] && DistinctKeys(records)
    ensures Keys(records[1..]) == Keys(records) - (if KeyOf(records[0]).Some? then {KeyOf(records[0]).value} else {})
    ensures DistinctKeys(records[1..])
  {
    var rest := records[1..];
    forall i | 0 <= i < |rest| && KeyOf(rest[i]).Some?
      ensures KeyOf(rest[i]).value in Keys(records) && KeyOf(rest[i]) != KeyOf(records[0])
    {
      assert rest[i] == records[i + 1];
    }
    forall k | k in Keys(records) && KeyOf(records[0]) != Some(k) ensures k in Keys(rest) {
      var i :| 0 <= i < |records| && KeyOf(records[i]).Some? && KeyOf(records[i]).value == k;
      assert rest[i - 1] == records[i];
    }
  }

  /** Reading the file line by line gives the replay of its lines. */
  method Load(limit: nat, lines: seq<Line>) returns (records: seq<Record>)
    ensures records == Replay(limit, [], lines)
    ensures Fits(limit, records)
  {
    var window := new ReplayWindow(limit);
    for i := 0 to |lines|
      invariant window.Valid() && fresh(window) && window.limit == limit
      invariant window.records == Replay(limit, [], lines[..i])
    {
      assert lines[..i + 1][..i] == lines[..i];
      match lines[i]
      case Skipped =>
      case Parsed(Message(version, record)) => window.Accept(version, record);
      case Parsed(Delivery(version, msgId, peer)) =>
        if version == FORMAT_VERSION {
          window.Deliver(msgId, peer);
        }
    }
    assert lines[..|lines|] == lines;
    records := window.records;
  }

  datatype AppendError = TextTooLong

  /** One history file. `ops` remembers every append and every compaction. */
  class HistoryFile {
    const limit: nat
    const maxBytes: nat
    const lineBytes: Line -> nat
    var lines: seq<Line>
    ghost var ops: seq<FileOp>

    ghost predicate Valid()
      reads this
    {
      lines == FileAfter(limit, ops)
    }

    constructor (limit: nat, maxBytes: nat, lineBytes: Line -> nat)
      ensures Valid() && ops == [] && this.limit == limit
    {
      this.limit, this.maxBytes, this.lineBytes := limit, maxBytes, lineBytes;
      lines, ops := [], [];
    }

    function FileBytes(lines: seq<Line>): nat {
      if lines == [] then 0 else FileBytes(lines[..|lines| - 1]) + lineBytes(lines[|lines| - 1])
    }

    /** The size of a file is that of its lines. */
    lemma {:induction false} FileBytesAdd(a: seq<Line>, b: seq<Line>, line: Line)
      ensures FileBytes(a + b) == FileBytes(a) + FileBytes(b) && FileBytes([line]) == lineBytes(line)
      decreases |b|
    {
      assert [line][..0] == [];
      if b == [] {
        assert a + b == a;
      } else {
        FileBytesAdd(a, b[..|b| - 1], line);
        assert (a + b)[..|a + b| - 1] == a + b[..|b| - 1];
      }
    }

    method LoadRecords() returns (records: seq<Record>)
      requires Valid()
      ensures records == Replay(limit, [], Appended(ops))
    {
      records := Load(limit, lines);
      AnyCompactionsInvisible(limit, ops, []);
      assert lines + [] == lines && Appended(ops) + [] == Appended(ops);
    }

    method CompactFile()
      requires Valid()
      modifies this
      ensures Valid() && ops == old(ops) + [Compact]
      ensures Appended(ops) == Appended(old(ops))
    {
      var records := Load(limit, lines);
      lines := CompactLines(records);
      ops := ops + [Compact];
      assert ops[..|ops| - 1] == old(ops);
    }

    /** Append a line, and compact when the file has grown past its bound. */
    method AppendEvent(event: Event)
      requires Valid()
      modifies this
      ensures Valid()
      ensures Appended(ops) == Appended(old(ops)) + [Parsed(event)]
      ensures var all := old(lines) + [Parsed(event)];
              lines == if FileBytes(all) > maxBytes then CompactLines(Replay(limit, [], all)) else all
    {
      lines := lines + [Parsed(event)];
      ops := ops + [Append(Parsed(event))];
      assert ops[..|ops| - 1] == old(ops);
      if FileBytes(lines) > maxBytes {
        CompactFile();
      }
    }

    method AppendMessage(record: Record) returns (result: Result<(), AppendError>)
      requires Valid()
      modifies this
      ensures Valid()
      ensures result.Err? <==> |record.text| > MAX_TEXT
      ensures result.Err? ==> ops == old(ops) && lines == old(lines)
      ensures result.Ok? ==> Appended(ops) == Appended(old(ops)) + [Parsed(Message(FORMAT_VERSION, record))]
    {
      if |record.text| > MAX_TEXT {
        return Err(TextTooLong);
      }
      AppendEvent(Message(FORMAT_VERSION, record));
      result := Ok(());
    }
  }
}
