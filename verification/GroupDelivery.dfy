/** When a group message counts as delivered: acknowledgements from peers,
counted against the members they are expected from. */
module GroupDelivery {
  import opened Wrappers
  import opened Text
  import opened History

  /** A run of acknowledgements, each from some peer, on one record. */
  function AckAll(r: Record, peers: seq<string>): Record {
    if peers == [] then r
    else Acknowledge(AckAll(r, peers[..|peers| - 1]), Some(peers[|peers| - 1]))
  }

  function Lowered(names: seq<string>): set<string> {
    set i | 0 <= i < |names| :: Lower(names[i])
  }

  /** No two names are the same up to ASCII case. */
  ghost predicate NoCaseTwins(names: seq<string>) {
    forall i, j :: 0 <= i < j < |names| ==> !SameIgnoringCase(names[i], names[j])
  }

  ghost predicate AllLower(names: seq<string>) {
    forall i :: 0 <= i < |names| ==> Lower(names[i]) == names[i]
  }

  /** Every expected member has acknowledged, whatever the letter case. */
  ghost predicate EveryoneAcked(expected: seq<string>, peers: seq<string>) {
    forall i :: 0 <= i < |expected| ==> Mentions(peers, expected[i])
  }

  lemma MentionsIffLowered(names: seq<string>, peer: string)
    ensures Mentions(names, peer) <==> Lower(peer) in Lowered(names)
  {
    forall i | 0 <= i < |names| ensures SameIgnoringCase(names[i], peer) <==> Lower(names[i]) == Lower(peer) {
      SameIgnoringCaseIffLowerEqual(names[i], peer);
    }
    if Lower(peer) in Lowered(names) {
      var i :| 0 <= i < |names| && Lower(names[i]) == Lower(peer);
      assert SameIgnoringCase(names[i], peer);
    }
  }

  lemma EveryoneAckedIffSubset(expected: seq<string>, peers: seq<string>)
    ensures EveryoneAcked(expected, peers) <==> Lowered(expected) <= Lowered(peers)
  {
    forall i | 0 <= i < |expected| ensures Mentions(peers, expected[i]) <==> Lower(expected[i]) in Lowered(peers) {
      MentionsIffLowered(peers, expected[i]);
    }
    if Lowered(expected) <= Lowered(peers) {
      forall i | 0 <= i < |expected| ensures Mentions(peers, expected[i]) {
        assert Lower(expected[i]) in Lowered(expected);
      }
    }
  }

  lemma LoweredSnoc(names: seq<string>, name: string)
    ensures Lowered(names + [name]) == Lowered(names) + {Lower(name)}
  {
    var all := names + [name];
    assert all[|names|] == name;
    forall i | 0 <= i < |names| ensures Lower(names[i]) in Lowered(all) {
      assert all[i] == names[i];
    }
  }

  lemma NoTwinsSnoc(names: seq<string>, name: string)
    ensures NoCaseTwins(names + [name]) <==> NoCaseTwins(names) && !Mentions(names, name)
  {
    var all, k := names + [name], |names|;
    assert all[k] == name && forall i :: 0 <= i < k ==> all[i] == names[i];
    if NoCaseTwins(all) {
      forall i | 0 <= i < k ensures !SameIgnoringCase(names[i], name) {
        assert !SameIgnoringCase(all[i], all[k]);
      }
      forall i, j | 0 <= i < j < k ensures !SameIgnoringCase(names[i], names[j]) {
        assert !SameIgnoringCase(all[i], all[j]);
      }
    }
  }

  /** Names count at most once each; exactly once each without case twins. */
  lemma {:induction false} LoweredSize(names: seq<string>)
    ensures |Lowered(names)| <= |names|
    ensures |Lowered(names)| == |names| <==> NoCaseTwins(names)
  {
    if names != [] {
      var k := |names| - 1;
      var init := names[..k];
      LoweredSize(init);
      LoweredSnoc(init, names[k]);
      assert names == init + [names[k]];
      MentionsIffLowered(init, names[k]);
      NoTwinsSnoc(init, names[k]);
    }
  }

  /** Who has been received: exactly the expected members among `heard`, each
  once and in lower case. */
  ghost predicate ReceivedAre(expected: seq<string>, received: seq<string>, heard: set<string>) {
    AllLower(received) && NoCaseTwins(received) && Lowered(received) == Lowered(expected) * heard
  }

  lemma TwinsSnoc(names: seq<string>, p: string)
    requires NoCaseTwins(names) && AllLower(names) && !Mentions(names, p)
    ensures NoCaseTwins(names + [Lower(p)]) && AllLower(names + [Lower(p)])
  {
    LowerIdempotent(p);
    forall i | 0 <= i < |names| ensures !SameIgnoringCase(names[i], Lower(p)) {
      assert !SameIgnoringCase(names[i], p);
      SameIgnoringCaseIffLowerEqual(names[i], p);
      SameIgnoringCaseIffLowerEqual(names[i], Lower(p));
    }
  }

  lemma AckKeepsReceived(r: Record, heard: set<string>, p: string)
    requires ReceivedAre(r.expected, r.received, heard)
    ensures ReceivedAre(r.expected, Acknowledge(r, Some(p)).received, heard + {Lower(p)})
  {
    MentionsIffLowered(r.expected, p);
    MentionsIffLowered(r.received, p);
    if Mentions(r.expected, p) && !Mentions(r.received, p) {
      TwinsSnoc(r.received, p);
      LoweredSnoc(r.received, Lower(p));
      LowerIdempotent(p);
    }
  }

  /** What acknowledgements leave in the record: who was received, and whether
  that makes it delivered. */
  lemma {:induction false} ReceivedExactly(r: Record, peers: seq<string>)
    requires r.received == []
    ensures var after := AckAll(r, peers);
            && after.expected == r.expected
            && ReceivedAre(r.expected, after.received, Lowered(peers))
            && (peers != [] ==> after.delivered == (r.expected != [] && |after.received| >= |r.expected|))
    decreases |peers|
  {
    if peers != [] {
      var init, p := peers[..|peers| - 1], peers[|peers| - 1];
      ReceivedExactly(r, init);
      AckKeepsReceived(AckAll(r, init), Lowered(init), p);
      LoweredSnoc(init, p);
      assert peers == init + [p];
    }
  }

  lemma EqualBySize(a: set<string>, b: set<string>)
    requires a <= b && |a| >= |b|
    ensures a == b
  {
    assert b == a + (b - a) && |b| == |a| + |b - a|;
    assert b - a == {};
  }

  /** Delivered, by pigeonhole: after any run of acknowledgements the record
  counts as delivered if and only if somebody was expected, nobody was
  expected twice, and everybody acknowledged. */
  lemma DeliveredIffEveryoneAcked(r: Record, peers: seq<string>)
    requires r.received == [] && peers != []
    ensures AckAll(r, peers).delivered <==>
            r.expected != [] && NoCaseTwins(r.expected) && EveryoneAcked(r.expected, peers)
  {
    var after := AckAll(r, peers);
    ReceivedExactly(r, peers);
    LoweredSize(after.received);
    LoweredSize(r.expected);
    EveryoneAckedIffSubset(r.expected, peers);
    var met := Lowered(r.expected) * Lowered(peers);
    assert |met| == |after.received|;
    SubsetSize(met, Lowered(r.expected));
    if |met| >= |Lowered(r.expected)| {
      EqualBySize(met, Lowered(r.expected));
    }
    if Lowered(r.expected) <= Lowered(peers) {
      assert met == Lowered(r.expected);
    }
  }

  lemma SubsetSize(a: set<string>, b: set<string>)
    requires a <= b
    ensures |a| <= |b|
  {
    assert b == a + (b - a);
  }

  /** Order and repetition do not matter: runs naming the same peers up to case
  agree on delivery and on who was received. */
  lemma AckOrderIrrelevant(r: Record, peers: seq<string>, others: seq<string>)
    requires r.received == [] && peers != [] && others != []
    requires Lowered(peers) == Lowered(others)
    ensures AckAll(r, peers).delivered == AckAll(r, others).delivered
    ensures multiset(AckAll(r, peers).received) == multiset(AckAll(r, others).received)
  {
    ReceivedExactly(r, peers);
    ReceivedExactly(r, others);
    DeliveredIffEveryoneAcked(r, peers);
    DeliveredIffEveryoneAcked(r, others);
    EveryoneAckedIffSubset(r.expected, peers);
    EveryoneAckedIffSubset(r.expected, others);
    CountByLowered(AckAll(r, peers).received);
    CountByLowered(AckAll(r, others).received);
  }

  lemma {:induction false} CountByLowered(names: seq<string>)
    requires AllLower(names) && NoCaseTwins(names)
    ensures multiset(names) == multiset(Lowered(names))
  {
    if names != [] {
      var k := |names| - 1;
      var init := names[..k];
      assert names == init + [names[k]];
      CountByLowered(init);
      LoweredSnoc(init, names[k]);
      MentionsIffLowered(init, names[k]);
      forall i | 0 <= i < k ensures !SameIgnoringCase(init[i], names[k]) {
        assert init[i] == names[i];
      }
    }
  }

  function AckLines(msgId: nat, peers: seq<string>): seq<Line> {
    seq(|peers|, i requires 0 <= i < |peers| => Parsed(Delivery(FORMAT_VERSION, msgId, Some(peers[i]))))
  }

  /** The acknowledgements in a log reach the newest own record with that id,
  and that record only. */
  lemma {:induction false} ReplayOfAcks(limit: nat, records: seq<Record>, msgId: nat, peers: seq<string>)
    ensures Replay(limit, records, AckLines(msgId, peers)) ==
            match NewestOwn(records, msgId)
            case None => records
            case Some(i) => records[i := AckAll(records[i], peers)]
    decreases |peers|
  {
    if peers != [] {
      var k := |peers| - 1;
      ReplayOfAcks(limit, records, msgId, peers[..k]);
      assert AckLines(msgId, peers)[..k] == AckLines(msgId, peers[..k]);
      if NewestOwn(records, msgId).Some? {
        var i := NewestOwn(records, msgId).value;
        AckKeepsIdentity(records[i], peers[..k]);
        AckAgain(records, i, AckAll(records[i], peers[..k]), msgId, peers[k]);
      }
    }
  }

  /** The next acknowledgement reaches the same record. */
  lemma AckAgain(records: seq<Record>, i: nat, r: Record, msgId: nat, peer: string)
    requires NewestOwn(records, msgId) == Some(i) && r.mine == records[i].mine && r.msgId == records[i].msgId
    ensures ApplyDelivery(records[i := r], msgId, Some(peer)) == records[i := Acknowledge(r, Some(peer))]
  {
    NewestKept(records, i, r, msgId);
  }

  lemma {:induction false} AckKeepsIdentity(r: Record, peers: seq<string>)
    ensures AckAll(r, peers).mine == r.mine && AckAll(r, peers).msgId == r.msgId
    decreases |peers|
  {
    if peers != [] {
      AckKeepsIdentity(r, peers[..|peers| - 1]);
    }
  }

  // ---------- in any log ----------

  /** The acknowledgements for one id among the lines of a log, in order. */
  function AcksFor(lines: seq<Line>, msgId: nat): seq<Option<string>> {
    if lines == [] then []
    else
      var init, last := AcksFor(lines[..|lines| - 1], msgId), lines[|lines| - 1];
      match last
      case Parsed(Delivery(version, id, peer)) => if version == FORMAT_VERSION && id == msgId then init + [peer] else init
      case _ => init
  }

  /** The same with or without a peer. */
  function AckEach(r: Record, acks: seq<Option<string>>): Record {
    if acks == [] then r else Acknowledge(AckEach(r, acks[..|acks| - 1]), acks[|acks| - 1])
  }

  /** The peers named in a mixed run. */
  function PeersOf(acks: seq<Option<string>>): seq<string> {
    if acks == [] then []
    else
      var init, last := PeersOf(acks[..|acks| - 1]), acks[|acks| - 1];
      if last.Some? then init + [last.value] else init
  }

  /** Acknowledgements without a peer receive nobody. */
  lemma {:induction false} ReceivedByNamed(r: Record, acks: seq<Option<string>>)
    ensures var after, named := AckEach(r, acks), AckAll(r, PeersOf(acks));
            && after == r.(received := named.received, delivered := after.delivered)
            && named.expected == r.expected
    decreases |acks|
  {
    if acks != [] {
      var init, last := acks[..|acks| - 1], acks[|acks| - 1];
      ReceivedByNamed(r, init);
      if last.Some? {
        assert PeersOf(acks)[..|PeersOf(init)|] == PeersOf(init);
      }
    }
  }

  /** What any run of acknowledgements leaves, with and without peers: nothing else
  changes; the received are the expected members named, once each; and the record is
  delivered if and only if the last acknowledgement had no peer, as those of a
  conversation of two, or everyone expected has been named. */
  lemma MixedRun(r: Record, acks: seq<Option<string>>)
    requires r.received == [] && acks != []
    ensures var after := AckEach(r, acks);
            && after == r.(received := after.received, delivered := after.delivered)
            && ReceivedAre(r.expected, after.received, Lowered(PeersOf(acks)))
            && (after.delivered <==>
                  acks[|acks| - 1] == None
                  || (r.expected != [] && NoCaseTwins(r.expected) && EveryoneAcked(r.expected, PeersOf(acks))))
  {
    var init, last := acks[..|acks| - 1], acks[|acks| - 1];
    ReceivedByNamed(r, acks);
    ReceivedExactly(r, PeersOf(acks));
    if last.Some? {
      var peers := PeersOf(acks);
      assert peers[..|peers| - 1] == PeersOf(init);
      ReceivedByNamed(r, init);
      DeliveredIffEveryoneAcked(r, peers);
    }
  }

  /** A line of a log moves the newest own record of an id only forward, and leaves
  a record alone that it is not for. */
  lemma StepOnRecord(limit: nat, all: seq<Record>, line: Line, msgId: nat, i: nat)
    requires NewestOwn(all, msgId) == Some(i)
    ensures StillThere(all, HistoryStep(limit, all, line), msgId, i, AcksFor([line], msgId))
  {
    AcksOfOne(line, msgId);
    match line
    case Parsed(Message(version, r)) =>
      AckNothing(all[i]);
      if HistoryStep(limit, all, line) == all + [r] {
        OneMoreRecord(all, r, msgId, i);
      }
    case Parsed(Delivery(version, id, peer)) =>
      AckNothing(all[i]);
      AckOnce(all[i], peer);
      if version == FORMAT_VERSION {
        DeliveryOnRecord(all, id, peer, msgId, i);
      }
    case Skipped => AckNothing(all[i]);
  }

  /** The newest own record of the id has not moved back, and number `i` took these. */
  ghost predicate StillThere(all: seq<Record>, next: seq<Record>, msgId: nat, i: nat, acks: seq<Option<string>>) {
    && i < |all| <= |next| && NewestOwn(next, msgId).Some? && NewestOwn(next, msgId).value >= i
    && next[i] == AckEach(all[i], acks)
  }

  lemma AcksOfOne(line: Line, msgId: nat)
    ensures AcksFor([line], msgId) ==
            match line
            case Parsed(Delivery(version, id, peer)) => if version == FORMAT_VERSION && id == msgId then [peer] else []
            case _ => []
  {
    assert [line][..0] == [] && AcksFor([line][..0], msgId) == [];
  }

  lemma AckNothing(r: Record)
    ensures AckEach(r, []) == r
  {
  }

  lemma AckOnce(r: Record, ack: Option<string>)
    ensures AckEach(r, [ack]) == Acknowledge(r, ack)
  {
    assert [ack][..0] == [];
    AckNothing(r);
  }

  lemma OneMoreRecord(all: seq<Record>, r: Record, msgId: nat, i: nat)
    requires NewestOwn(all, msgId) == Some(i)
    ensures NewestOwn(all + [r], msgId).Some? && NewestOwn(all + [r], msgId).value >= i && (all + [r])[i] == all[i]
  {
    assert (all + [r])[..|all|] == all;
  }

  lemma DeliveryOnRecord(all: seq<Record>, id: nat, peer: Option<string>, msgId: nat, i: nat)
    requires NewestOwn(all, msgId) == Some(i)
    ensures var next := ApplyDelivery(all, id, peer);
            && |next| == |all| && NewestOwn(next, msgId) == Some(i)
            && next[i] == if id == msgId then Acknowledge(all[i], peer) else all[i]
  {
    if NewestOwn(all, id).Some? {
      var j := NewestOwn(all, id).value;
      NewestKept(all, j, Acknowledge(all[j], peer), msgId);
    }
  }

  lemma {:induction false} NewestKept(all: seq<Record>, i: nat, r: Record, msgId: nat)
    requires i < |all| && r.mine == all[i].mine && r.msgId == all[i].msgId
    ensures NewestOwn(all[i := r], msgId) == NewestOwn(all, msgId)
    decreases |all|
  {
    var k := |all| - 1;
    if i < k {
      assert all[i := r][..k] == all[..k][i := r];
      NewestKept(all[..k], i, r, msgId);
    } else {
      assert all[i := r][..k] == all[..k];
    }
  }

  lemma {:induction false} AckEachConcat(r: Record, a: seq<Option<string>>, b: seq<Option<string>>)
    ensures AckEach(r, a + b) == AckEach(AckEach(r, a), b)
    decreases |b|
  {
    if b == [] {
      assert a + b == a;
    } else {
      AckEachConcat(r, a, b[..|b| - 1]);
      assert (a + b)[..|a + b| - 1] == a + b[..|b| - 1] && (a + b)[|a + b| - 1] == b[|b| - 1];
    }
  }

  lemma AcksForSnoc(lines: seq<Line>, last: Line, msgId: nat)
    ensures AcksFor(lines + [last], msgId) == AcksFor(lines, msgId) + AcksFor([last], msgId)
  {
    assert (lines + [last])[..|lines|] == lines;
    assert [last][..0] == [];
    assert AcksFor([last][..0], msgId) == [];
  }

  lemma HistorySnoc(limit: nat, lines: seq<Line>, last: Line)
    ensures WholeHistory(limit, lines + [last]) == HistoryStep(limit, WholeHistory(limit, lines), last)
  {
    assert (lines + [last])[..|lines|] == lines;
  }

  /** The newest own record of the id is number `i` or a later one; if it is number
  `i`, it is what `r` became by these acknowledgements. */
  ghost predicate Took(all: seq<Record>, msgId: nat, i: nat, r: Record, acks: seq<Option<string>>) {
    && NewestOwn(all, msgId).Some? && NewestOwn(all, msgId).value >= i
    && (NewestOwn(all, msgId) == Some(i) ==> all[i] == AckEach(r, acks))
  }

  lemma TookStep(limit: nat, all: seq<Record>, line: Line, msgId: nat, i: nat, r: Record, acks: seq<Option<string>>)
    requires Took(all, msgId, i, r, acks)
    ensures Took(HistoryStep(limit, all, line), msgId, i, r, acks + AcksFor([line], msgId))
  {
    StepOnRecord(limit, all, line, msgId, NewestOwn(all, msgId).value);
    AckEachConcat(r, acks, AcksFor([line], msgId));
  }

  /** In any log, whatever comes between: while a record is the newest own one
  with its id, it takes exactly the acknowledgements for that id. */
  lemma {:induction false} RecordTakesAcks(limit: nat, before: seq<Line>, later: seq<Line>, msgId: nat, i: nat)
    requires NewestOwn(WholeHistory(limit, before), msgId) == Some(i)
    ensures Took(WholeHistory(limit, before + later), msgId, i, WholeHistory(limit, before)[i], AcksFor(later, msgId))
    decreases |later|
  {
    if later == [] {
      assert before + later == before;
    } else {
      var init, last := later[..|later| - 1], later[|later| - 1];
      RecordTakesAcks(limit, before, init, msgId, i);
      TookInLog(limit, before + init, init, last, msgId, i, WholeHistory(limit, before)[i]);
      assert before + later == before + init + [last] && later == init + [last];
    }
  }

  lemma TookInLog(limit: nat, lines: seq<Line>, later: seq<Line>, last: Line, msgId: nat, i: nat, r: Record)
    requires Took(WholeHistory(limit, lines), msgId, i, r, AcksFor(later, msgId))
    ensures Took(WholeHistory(limit, lines + [last]), msgId, i, r, AcksFor(later + [last], msgId))
  {
    TookStep(limit, WholeHistory(limit, lines), last, msgId, i, r, AcksFor(later, msgId));
    HistorySnoc(limit, lines, last);
    AcksForSnoc(later, last, msgId);
  }

  /** Record `i` of the whole history, as it is loaded. */
  ghost function Loaded(limit: nat, lines: seq<Line>, i: nat): Option<Record> {
    var window, evicted := Replay(limit, [], lines), Evicted(WholeHistory(limit, lines), limit);
    if evicted <= i && i - evicted < |window| then Some(window[i - evicted]) else None
  }

  /** A record that stays the newest own one with its id, and in the window. */
  ghost predicate StaysNewest(limit: nat, before: seq<Line>, later: seq<Line>, msgId: nat, i: nat) {
    && NewestOwn(WholeHistory(limit, before), msgId) == Some(i)
    && NewestOwn(WholeHistory(limit, before + later), msgId) == Some(i)
    && Evicted(WholeHistory(limit, before + later), limit) <= i
  }

  lemma LoadedAfterAcks(limit: nat, before: seq<Line>, later: seq<Line>, msgId: nat, i: nat)
    requires StaysNewest(limit, before, later, msgId, i)
    ensures Loaded(limit, before + later, i) == Some(AckEach(WholeHistory(limit, before)[i], AcksFor(later, msgId)))
  {
    var all := WholeHistory(limit, before + later);
    RecordTakesAcks(limit, before, later, msgId, i);
    WindowRefinesHistory(limit, before + later);
    LastNIsSuffix(all, limit);
  }

  /** Delivery in any log: a record accepted with nobody received, that stays the
  newest own one with its id and in the window, is loaded as it was accepted but for
  the acknowledgements; it is delivered if and only if the last of them had no peer,
  or somebody was expected, nobody twice, and everybody acknowledged. */
  lemma DeliveredInLog(limit: nat, before: seq<Line>, later: seq<Line>, msgId: nat, i: nat)
    requires StaysNewest(limit, before, later, msgId, i) && AcksFor(later, msgId) != []
    requires WholeHistory(limit, before)[i].received == []
    ensures var r, acks := WholeHistory(limit, before)[i], AcksFor(later, msgId);
            && Loaded(limit, before + later, i).Some?
            && var loaded := Loaded(limit, before + later, i).value;
            && loaded == r.(received := loaded.received, delivered := loaded.delivered)
            && ReceivedAre(r.expected, loaded.received, Lowered(PeersOf(acks)))
            && (loaded.delivered <==>
                  acks[|acks| - 1] == None
                  || (r.expected != [] && NoCaseTwins(r.expected) && EveryoneAcked(r.expected, PeersOf(acks))))
  {
    LoadedAfterAcks(limit, before, later, msgId, i);
    MixedRun(WholeHistory(limit, before)[i], AcksFor(later, msgId));
  }

  /** The delivery of a conversation of two, which names no peer, in any log and
  whatever was acknowledged before: it leaves the record delivered, and who was
  received as it was. */
  lemma PlainDeliveryInLog(limit: nat, before: seq<Line>, later: seq<Line>, msgId: nat, i: nat, earlier: seq<Option<string>>)
    requires StaysNewest(limit, before, later, msgId, i) && AcksFor(later, msgId) == earlier + [None]
    ensures Loaded(limit, before + later, i) == Some(AckEach(WholeHistory(limit, before)[i], earlier).(delivered := true))
  {
    LoadedAfterAcks(limit, before, later, msgId, i);
    assert (earlier + [None])[..|earlier|] == earlier;
  }
}
