/** The client side: put a blob on every configured drop, collect the answers in
whatever order the tasks end, and later get it back. */
module DropClient {
  import opened Wrappers
  import opened Octets
  import opened RateLimiter
  import opened ProofOfWork
  import opened BlobStore
  import opened DropServer

  /** One connection attempt of the client: whether the server sees it, when, and
  whether its reply comes back. */
  datatype Visit = Visit(drop: string, reachable: bool, answered: bool, mono: int, wall: nat)

  /** What happens next on the network: this client visits a drop, or a server
  handles a connection of someone else or a collection. */
  datatype Turn = Ours(visit: Visit) | Others(drop: string, event: Event)

  datatype PutOutcome = PutOutcome(drop: string, status: PutStatus)

  type Network = map<string, Drop>

  /** Talk to one drop: the reply, or nothing when it cannot be reached. */
  function Exchange(w: World, net: Network, visit: Visit, request: string): (Network, Option<string>) {
    if !visit.reachable || visit.drop !in net then (net, None)
    else
      var (drop, reply) := Handle(w, net[visit.drop], request, visit.mono, visit.wall);
      (net[visit.drop := drop], if visit.answered then Some(reply) else None)
  }

  function ServeOther(w: World, net: Network, drop: string, event: Event): Network {
    if drop in net then net[drop := Serve(w, net[drop], event)] else net
  }

  function PutOne(w: World, net: Network, visit: Visit, request: string): (Network, PutOutcome) {
    var (after, reply) := Exchange(w, net, visit, request);
    (after, PutOutcome(visit.drop, if reply.None? then PutFail else ReadPutReply(reply.value)))
  }

  /** One put on every drop, interleaved with whatever others do. */
  function PutEverywhere(w: World, net: Network, turns: seq<Turn>, request: string): (Network, seq<PutOutcome>) {
    if turns == [] then (net, [])
    else
      var (before, outcomes) := PutEverywhere(w, net, turns[..|turns| - 1], request);
      match turns[|turns| - 1]
      case Others(drop, event) => (ServeOther(w, before, drop, event), outcomes)
      case Ours(visit) =>
        var (after, outcome) := PutOne(w, before, visit, request);
        (after, outcomes + [outcome])
  }

  // ---------- collecting the answers ----------

  function DropsWith(outcomes: seq<PutOutcome>, status: PutStatus): seq<string> {
    if outcomes == [] then []
    else
      var init, last := DropsWith(outcomes[..|outcomes| - 1], status), outcomes[|outcomes| - 1];
      if last.status == status then init + [last.drop] else init
  }

  /** The overall status and its drops: the stores if any, else the finds. */
  function Summary(joined: seq<PutOutcome>): (PutStatus, seq<string>) {
    if DropsWith(joined, PutOk) != [] then (PutOk, DropsWith(joined, PutOk))
    else if DropsWith(joined, PutExists) != [] then (PutExists, DropsWith(joined, PutExists))
    else (PutFail, [])
  }

  /** The client's loop over finished tasks. */
  method CollectPuts(joined: seq<PutOutcome>) returns (status: PutStatus, drops: seq<string>)
    ensures (status, drops) == Summary(joined)
    ensures status == PutOk <==> exists i :: 0 <= i < |joined| && joined[i].status == PutOk
    ensures status == PutExists <==>
              && (exists i :: 0 <= i < |joined| && joined[i].status == PutExists)
              && (forall i :: 0 <= i < |joined| ==> joined[i].status != PutOk)
    ensures status != PutFail ==> forall drop :: multiset(drops)[drop] == multiset(joined)[PutOutcome(drop, status)]
    ensures status == PutFail ==> drops == []
  {
    SummaryMeans(joined);
    var okDrops, existsDrops := [], [];
    for i := 0 to |joined|
      invariant okDrops == DropsWith(joined[..i], PutOk)
      invariant existsDrops == DropsWith(joined[..i], PutExists)
    {
      assert joined[..i + 1][..i] == joined[..i];
      if joined[i].status == PutOk {
        okDrops := okDrops + [joined[i].drop];
      } else if joined[i].status == PutExists {
        existsDrops := existsDrops + [joined[i].drop];
      }
    }
    assert joined[..|joined|] == joined;
    if okDrops != [] {
      return PutOk, okDrops;
    }
    if existsDrops != [] {
      return PutExists, existsDrops;
    }
    return PutFail, [];
  }

  lemma {:induction false} DropsWithCounts(outcomes: seq<PutOutcome>, status: PutStatus, drop: string)
    ensures multiset(DropsWith(outcomes, status))[drop] == multiset(outcomes)[PutOutcome(drop, status)]
  {
    if outcomes != [] {
      var k := |outcomes| - 1;
      DropsWithCounts(outcomes[..k], status, drop);
      assert outcomes == outcomes[..k] + [outcomes[k]];
    }
  }

  lemma {:induction false} SomeDropIffSome(outcomes: seq<PutOutcome>, status: PutStatus)
    ensures DropsWith(outcomes, status) != [] <==> exists i :: 0 <= i < |outcomes| && outcomes[i].status == status
  {
    if outcomes != [] {
      var k := |outcomes| - 1;
      SomeDropIffSome(outcomes[..k], status);
      assert outcomes == outcomes[..k] + [outcomes[k]];
    }
  }

  /** One store is enough for OK, and every drop that stored is reported, as often as
  it did; without a store the same for the finds; else nothing. */
  lemma SummaryMeans(joined: seq<PutOutcome>)
    ensures var (status, drops) := Summary(joined);
            && (status == PutOk <==> exists i :: 0 <= i < |joined| && joined[i].status == PutOk)
            && (status == PutExists <==>
                  && (exists i :: 0 <= i < |joined| && joined[i].status == PutExists)
                  && (forall i :: 0 <= i < |joined| ==> joined[i].status != PutOk))
            && (status != PutFail ==> forall drop :: multiset(drops)[drop] == multiset(joined)[PutOutcome(drop, status)])
            && (status == PutFail ==> drops == [])
  {
    SomeDropIffSome(joined, PutOk);
    SomeDropIffSome(joined, PutExists);
    forall drop, status ensures multiset(DropsWith(joined, status))[drop] == multiset(joined)[PutOutcome(drop, status)] {
      DropsWithCounts(joined, status, drop);
    }
  }

  /** The order in which the tasks end changes neither the status nor which drops
  are reported, or how often. */
  lemma CompletionOrderIrrelevant(joined: seq<PutOutcome>, other: seq<PutOutcome>)
    requires multiset(joined) == multiset(other)
    ensures Summary(joined).0 == Summary(other).0
    ensures multiset(Summary(joined).1) == multiset(Summary(other).1)
  {
    SameDrops(joined, other, PutOk);
    SameDrops(joined, other, PutExists);
  }

  lemma SameDrops(joined: seq<PutOutcome>, other: seq<PutOutcome>, status: PutStatus)
    requires multiset(joined) == multiset(other)
    ensures multiset(DropsWith(joined, status)) == multiset(DropsWith(other, status))
    ensures DropsWith(joined, status) == [] <==> DropsWith(other, status) == []
  {
    forall drop: string
      ensures multiset(DropsWith(joined, status))[drop] == multiset(DropsWith(other, status))[drop]
    {
      DropsWithCounts(joined, status, drop);
      DropsWithCounts(other, status, drop);
    }
    assert multiset(DropsWith(joined, status)) == multiset(DropsWith(other, status));
    assert |multiset(DropsWith(joined, status))| == |DropsWith(joined, status)|;
    assert |multiset(DropsWith(other, status))| == |DropsWith(other, status)|;
  }

  // ---------- what a reported store means ----------

  ghost predicate NetHolds(net: Network, drop: string, name: string, entry: Entry) {
    drop in net && Holds(net[drop], name, entry)
  }

  ghost predicate Honest(key: string, blob: string, counter: nat) {
    IsValidKey(key) && |blob| <= MAX_BLOB && counter <= U64_MAX
  }

  lemma PutOneStores(w: World, net: Network, visit: Visit, key: string, blob: string, counter: nat)
    requires Honest(key, blob, counter)
    ensures var (after, outcome) := PutOne(w, net, visit, PutRequest(key, blob, counter));
            outcome.status == PutOk ==> NetHolds(after, visit.drop, w.digest(key), Entry(blob, visit.wall))
  {
    PutRequestParses(key, blob, counter);
    PutRepliesRead();
    assert blob[..|blob|] == blob;
  }

  /** The drop sees the request, and its limit and the work admit the blob. */
  ghost predicate Admitted(w: World, net: Network, visit: Visit, key: string, blob: string, counter: nat) {
    && visit.reachable && visit.drop in net && Admits(net[visit.drop].times, visit.mono)
    && VerifyPutPow(w.hash, key, |blob|, blob, counter)
  }

  /** When a put on one drop is a store or a find, exactly: the drop admits it and its
  reply comes back, and nothing, or something, is stored under the key. */
  lemma PutOneStatus(w: World, net: Network, visit: Visit, key: string, blob: string, counter: nat)
    requires Honest(key, blob, counter)
    ensures var status := PutOne(w, net, visit, PutRequest(key, blob, counter)).1.status;
            && (status == PutOk <==>
                  visit.answered && Admitted(w, net, visit, key, blob, counter) && w.digest(key) !in net[visit.drop].files)
            && (status == PutExists <==>
                  visit.answered && Admitted(w, net, visit, key, blob, counter) && w.digest(key) in net[visit.drop].files)
  {
    PutRequestParses(key, blob, counter);
    PutRepliesRead();
    assert blob[..|blob|] == blob;
  }

  lemma PutOneKeeps(w: World, net: Network, visit: Visit, key: string, blob: string, counter: nat,
                    drop: string, name: string, entry: Entry)
    requires Honest(key, blob, counter) && NetHolds(net, drop, name, entry)
    ensures NetHolds(PutOne(w, net, visit, PutRequest(key, blob, counter)).0, drop, name, entry)
  {
    PutRequestParses(key, blob, counter);
    if visit.reachable && visit.drop == drop {
      PutKeeps(w, net[drop], PutRequest(key, blob, counter), visit.mono, visit.wall, name, entry);
    }
  }

  lemma OtherKeeps(w: World, net: Network, other: string, event: Event, drop: string, name: string, entry: Entry)
    requires NetHolds(net, drop, name, entry) && !IsOlderThanTtl(event.wall, entry.modified)
    ensures NetHolds(ServeOther(w, net, other, event), drop, name, entry)
  {
    if other == drop {
      ServeKeeps(w, net[drop], event, name, entry);
    }
  }

  /** Within the time to live of blobs stored at `wall` as far as others go. */
  ghost predicate OthersInTime(turns: seq<Turn>, wall: nat) {
    forall i :: 0 <= i < |turns| && turns[i].Others? ==> !IsOlderThanTtl(turns[i].event.wall, wall)
  }

  /** The same for every visit of ours. */
  ghost predicate PutsInTime(turns: seq<Turn>) {
    forall i :: 0 <= i < |turns| && turns[i].Ours? ==> OthersInTime(turns, turns[i].visit.wall)
  }

  /** The blob is on the drop, stored by one of our visits to it. */
  ghost predicate StoredByOurs(w: World, net: Network, turns: seq<Turn>, key: string, blob: string, drop: string) {
    exists i :: 0 <= i < |turns| && turns[i].Ours? && turns[i].visit.drop == drop
      && NetHolds(net, drop, w.digest(key), Entry(blob, turns[i].visit.wall))
  }

  lemma PutsInTimeInit(turns: seq<Turn>)
    requires turns != [] && PutsInTime(turns)
    ensures PutsInTime(turns[..|turns| - 1])
  {
    var init := turns[..|turns| - 1];
    forall i | 0 <= i < |init| && init[i].Ours? ensures OthersInTime(init, init[i].visit.wall) {
      assert init[i] == turns[i] && OthersInTime(turns, turns[i].visit.wall);
    }
  }

  /** Every drop that reports a store holds the blob, with the time of one of the
  visits to it, whatever others do meanwhile. */
  lemma {:induction false} StoredWhereReported(
    w: World, net: Network, turns: seq<Turn>, key: string, blob: string, counter: nat, drop: string)
    requires Honest(key, blob, counter) && PutsInTime(turns)
    requires PutOutcome(drop, PutOk) in PutEverywhere(w, net, turns, PutRequest(key, blob, counter)).1
    ensures StoredByOurs(w, PutEverywhere(w, net, turns, PutRequest(key, blob, counter)).0, turns, key, blob, drop)
    decreases |turns|
  {
    var k := |turns| - 1;
    var request := PutRequest(key, blob, counter);
    var (before, outcomes) := PutEverywhere(w, net, turns[..k], request);
    if PutOutcome(drop, PutOk) in outcomes {
      PutsInTimeInit(turns);
      StoredWhereReported(w, net, turns[..k], key, blob, counter, drop);
      StoredStays(w, before, turns, key, blob, counter, drop);
    } else {
      PutOneStores(w, before, turns[k].visit, key, blob, counter);
    }
  }

  /** One more turn. */
  lemma StoredStays(w: World, before: Network, turns: seq<Turn>, key: string, blob: string, counter: nat, drop: string)
    requires Honest(key, blob, counter) && turns != [] && PutsInTime(turns)
    requires StoredByOurs(w, before, turns[..|turns| - 1], key, blob, drop)
    ensures match turns[|turns| - 1]
            case Others(other, event) => StoredByOurs(w, ServeOther(w, before, other, event), turns, key, blob, drop)
            case Ours(visit) => StoredByOurs(w, PutOne(w, before, visit, PutRequest(key, blob, counter)).0, turns, key, blob, drop)
  {
    var k := |turns| - 1;
    var i :| 0 <= i < k && turns[..k][i].Ours? && turns[..k][i].visit.drop == drop
      && NetHolds(before, drop, w.digest(key), Entry(blob, turns[..k][i].visit.wall));
    assert turns[i] == turns[..k][i];
    var entry := Entry(blob, turns[i].visit.wall);
    match turns[k]
    case Others(other, event) =>
      assert OthersInTime(turns, turns[i].visit.wall);
      OtherKeeps(w, before, other, event, drop, w.digest(key), entry);
    case Ours(visit) => PutOneKeeps(w, before, visit, key, blob, counter, drop, w.digest(key), entry);
  }

  /** The visit puts the blob on a drop that had nothing under the key. */
  ghost predicate Stores(w: World, net: Network, visit: Visit, key: string, blob: string, counter: nat) {
    && visit.drop in net && w.digest(key) !in net[visit.drop].files
    && NetHolds(PutOne(w, net, visit, PutRequest(key, blob, counter)).0, visit.drop, w.digest(key), Entry(blob, visit.wall))
  }

  /** It does exactly when the drop admits it, whether or not the client hears. */
  lemma StoresIff(w: World, net: Network, visit: Visit, key: string, blob: string, counter: nat)
    requires Honest(key, blob, counter)
    ensures Stores(w, net, visit, key, blob, counter) <==>
            Admitted(w, net, visit, key, blob, counter) && w.digest(key) !in net[visit.drop].files
  {
    PutRequestParses(key, blob, counter);
    assert blob[..|blob|] == blob;
  }

  /** A visit that stores, and whose reply comes back, is reported. */
  lemma StoresAreReported(w: World, net: Network, turns: seq<Turn>, key: string, blob: string, counter: nat, k: nat)
    requires Honest(key, blob, counter) && k < |turns| && turns[k].Ours? && turns[k].visit.answered
    requires Stores(w, PutEverywhere(w, net, turns[..k], PutRequest(key, blob, counter)).0, turns[k].visit, key, blob, counter)
    ensures var (status, drops) := Summary(PutEverywhere(w, net, turns, PutRequest(key, blob, counter)).1);
            status == PutOk && turns[k].visit.drop in drops
  {
    var request, visit := PutRequest(key, blob, counter), turns[k].visit;
    var outcomes := PutEverywhere(w, net, turns, request).1;
    var before := PutEverywhere(w, net, turns[..k], request).0;
    StoresIff(w, before, visit, key, blob, counter);
    PutOneStatus(w, before, visit, key, blob, counter);
    OutcomeIsThere(w, net, turns, request, k);
    SummaryMeans(outcomes);
    assert PutOutcome(visit.drop, PutOk) in multiset(outcomes);
    assert visit.drop in multiset(Summary(outcomes).1);
  }

  lemma {:induction false} OutcomeIsThere(w: World, net: Network, turns: seq<Turn>, request: string, k: nat)
    requires k < |turns| && turns[k].Ours?
    ensures PutOne(w, PutEverywhere(w, net, turns[..k], request).0, turns[k].visit, request).1
         in PutEverywhere(w, net, turns, request).1
    decreases |turns|
  {
    if k < |turns| - 1 {
      assert turns[..|turns| - 1][..k] == turns[..k];
      OutcomeIsThere(w, net, turns[..|turns| - 1], request, k);
    }
  }

  lemma ReportedAreOutcomes(outcomes: seq<PutOutcome>, status: PutStatus, drop: string)
    requires drop in DropsWith(outcomes, status)
    ensures PutOutcome(drop, status) in outcomes
  {
    DropsWithCounts(outcomes, status, drop);
    assert drop in multiset(DropsWith(outcomes, status));
    assert PutOutcome(drop, status) in multiset(outcomes);
  }

  // ---------- getting it back ----------

  function GetOne(w: World, net: Network, visit: Visit, key: string): (Network, GetAnswer) {
    var (after, reply) := Exchange(w, net, visit, GetRequest(key));
    (after, if reply.None? then Broken else ReadGetReply(reply.value))
  }

  /** The client visits its drops one after the other, while others go on. */
  function GetEverywhere(w: World, net: Network, turns: seq<Turn>, key: string): (Network, seq<(string, string)>) {
    if turns == [] then (net, [])
    else
      var (before, good) := GetEverywhere(w, net, turns[..|turns| - 1], key);
      match turns[|turns| - 1]
      case Others(drop, event) => (ServeOther(w, before, drop, event), good)
      case Ours(visit) =>
        var (after, answer) := GetOne(w, before, visit, key);
        (after, if answer.Found? then good + [(visit.drop, answer.data)] else good)
  }

  method CollectGets(w: World, net: Network, turns: seq<Turn>, key: string)
    returns (after: Network, good: seq<(string, string)>)
    ensures (after, good) == GetEverywhere(w, net, turns, key)
  {
    after, good := net, [];
    for i := 0 to |turns|
      invariant (after, good) == GetEverywhere(w, net, turns[..i], key)
    {
      assert turns[..i + 1][..i] == turns[..i];
      match turns[i]
      case Others(drop, event) => after := ServeOther(w, after, drop, event);
      case Ours(visit) =>
        var exchanged := Exchange(w, after, visit, GetRequest(key));
        after := exchanged.0;
        if exchanged.1.Some? {
          var answer := ReadGetReply(exchanged.1.value);
          if answer.Found? {
            good := good + [(visit.drop, answer.data)];
          }
        }
    }
    assert turns[..|turns|] == turns;
  }

  lemma GetOneFinds(w: World, net: Network, visit: Visit, key: string, drop: string, entry: Entry)
    requires IsValidKey(key) && |entry.data| <= U64_MAX
    requires NetHolds(net, drop, w.digest(key), entry) && !IsOlderThanTtl(visit.wall, entry.modified)
    ensures NetHolds(GetOne(w, net, visit, key).0, drop, w.digest(key), entry)
    ensures visit.drop == drop && visit.reachable && visit.answered ==> GetOne(w, net, visit, key).1 == Found(entry.data)
  {
    GetRequestParses(key);
    GetReplyReads(entry.data);
    if visit.reachable && visit.drop == drop {
      ServeKeeps(w, net[drop], Connection(GetRequest(key), visit.mono, visit.wall), w.digest(key), entry);
    }
  }

  /** What others do before our visits, the visits meet. */
  lemma {:induction false} OthersFirst(w: World, net: Network, drop: string, event: Event, turns: seq<Turn>, key: string, request: string)
    ensures var all, after := [Others(drop, event)] + turns, ServeOther(w, net, drop, event);
            && GetEverywhere(w, net, all, key) == GetEverywhere(w, after, turns, key)
            && PutEverywhere(w, net, all, request) == PutEverywhere(w, after, turns, request)
    decreases |turns|
  {
    var all := [Others(drop, event)] + turns;
    if turns == [] {
      assert all[..0] == [];
    } else {
      OthersFirst(w, net, drop, event, turns[..|turns| - 1], key, request);
      assert all[..|all| - 1] == [Others(drop, event)] + turns[..|turns| - 1];
    }
  }

  ghost predicate Reaches(turns: seq<Turn>, drop: string) {
    exists i :: 0 <= i < |turns| && turns[i].Ours? && turns[i].visit.drop == drop && Heard(turns[i].visit)
  }

  predicate Heard(visit: Visit) {
    visit.reachable && visit.answered
  }

  function WallOf(turn: Turn): nat {
    match turn
    case Ours(visit) => visit.wall
    case Others(_, event) => event.wall
  }

  ghost predicate InTime(turns: seq<Turn>, entry: Entry) {
    forall i :: 0 <= i < |turns| ==> !IsOlderThanTtl(WallOf(turns[i]), entry.modified)
  }

  /** Within the time to live a stored blob stays, whatever connections and
  collections the servers handle, our own gets among them. */
  lemma {:induction false} GetsKeep(w: World, net: Network, turns: seq<Turn>, key: string, drop: string, entry: Entry)
    requires IsValidKey(key) && |entry.data| <= U64_MAX
    requires NetHolds(net, drop, w.digest(key), entry) && InTime(turns, entry)
    ensures NetHolds(GetEverywhere(w, net, turns, key).0, drop, w.digest(key), entry)
    decreases |turns|
  {
    if turns != [] {
      var k := |turns| - 1;
      GetsKeep(w, net, turns[..k], key, drop, entry);
      var before := GetEverywhere(w, net, turns[..k], key).0;
      assert !IsOlderThanTtl(WallOf(turns[k]), entry.modified);
      match turns[k]
      case Others(other, event) => OtherKeeps(w, before, other, event, drop, w.digest(key), entry);
      case Ours(visit) => GetOneFinds(w, before, visit, key, drop, entry);
    }
  }

  lemma {:induction false} GetFinds(w: World, net: Network, turns: seq<Turn>, key: string, drop: string, entry: Entry)
    requires IsValidKey(key) && |entry.data| <= U64_MAX
    requires NetHolds(net, drop, w.digest(key), entry) && InTime(turns, entry) && Reaches(turns, drop)
    ensures (drop, entry.data) in GetEverywhere(w, net, turns, key).1
    decreases |turns|
  {
    var k := |turns| - 1;
    var before := GetEverywhere(w, net, turns[..k], key).0;
    if turns[k].Ours? && turns[k].visit.drop == drop && Heard(turns[k].visit) {
      GetsKeep(w, net, turns[..k], key, drop, entry);
      assert !IsOlderThanTtl(WallOf(turns[k]), entry.modified);
      GetOneFinds(w, before, turns[k].visit, key, drop, entry);
    } else {
      ReachesEarlier(turns, drop);
      GetFinds(w, net, turns[..k], key, drop, entry);
    }
  }

  lemma ReachesEarlier(turns: seq<Turn>, drop: string)
    requires turns != [] && Reaches(turns, drop)
    requires var last := turns[|turns| - 1]; !(last.Ours? && last.visit.drop == drop && Heard(last.visit))
    ensures Reaches(turns[..|turns| - 1], drop)
  {
    var i :| 0 <= i < |turns| && turns[i].Ours? && turns[i].visit.drop == drop && Heard(turns[i].visit);
    assert turns[..|turns| - 1][i] == turns[i];
  }

  ghost predicate NetSmall(net: Network) {
    forall drop :: drop in net ==> Small(net[drop])
  }

  /** What the drop answers a get with: the blob it holds in time, else nothing. */
  lemma GetOneMeans(w: World, net: Network, visit: Visit, key: string)
    requires IsValidKey(key) && NetSmall(net)
    ensures var answer := GetOne(w, net, visit, key).1;
            if visit.drop !in net || !Heard(visit) then answer == Broken
            else if w.digest(key) in net[visit.drop].files && !IsOlderThanTtl(visit.wall, net[visit.drop].files[w.digest(key)].modified) then
              answer == Found(net[visit.drop].files[w.digest(key)].data)
            else answer == Missing
  {
    GetRequestParses(key);
    GetRepliesRead();
    if visit.drop in net && w.digest(key) in net[visit.drop].files {
      GetReplyReads(net[visit.drop].files[w.digest(key)].data);
    }
  }

  lemma TurnKeepsSmall(w: World, net: Network, turn: Turn, key: string)
    requires NetSmall(net)
    ensures match turn
            case Others(drop, event) => NetSmall(ServeOther(w, net, drop, event))
            case Ours(visit) => NetSmall(GetOne(w, net, visit, key).0)
  {
    match turn
    case Others(drop, event) =>
      if drop in net {
        ServeKeepsSmall(w, net[drop], event);
      }
    case Ours(visit) =>
      if visit.drop in net {
        ServeKeepsSmall(w, net[visit.drop], Connection(GetRequest(key), visit.mono, visit.wall));
      }
  }

  lemma {:induction false} GetsKeepSmall(w: World, net: Network, turns: seq<Turn>, key: string)
    requires NetSmall(net)
    ensures NetSmall(GetEverywhere(w, net, turns, key).0)
    decreases |turns|
  {
    if turns != [] {
      GetsKeepSmall(w, net, turns[..|turns| - 1], key);
      TurnKeepsSmall(w, GetEverywhere(w, net, turns[..|turns| - 1], key).0, turns[|turns| - 1], key);
    }
  }

  /** Nothing else is ever returned: what a get gives for a drop, the drop held in
  time under the key when it was visited. */
  lemma {:induction false} GetsAreHeld(w: World, net: Network, turns: seq<Turn>, key: string, drop: string, data: string)
    returns (k: nat)
    requires IsValidKey(key) && NetSmall(net)
    requires (drop, data) in GetEverywhere(w, net, turns, key).1
    ensures k < |turns| && turns[k].Ours? && turns[k].visit.drop == drop && Heard(turns[k].visit)
    ensures HoldsInTime(w, GetEverywhere(w, net, turns[..k], key).0, turns[k].visit, key, data)
    decreases |turns|
  {
    k := |turns| - 1;
    var (before, good) := GetEverywhere(w, net, turns[..k], key);
    if (drop, data) in good {
      var last := k;
      k := GetsAreHeld(w, net, turns[..last], key, drop, data);
      assert turns[..last][..k] == turns[..k];
    } else {
      GetsKeepSmall(w, net, turns[..k], key);
      GetOneMeans(w, before, turns[k].visit, key);
    }
  }

  ghost predicate HoldsInTime(w: World, net: Network, visit: Visit, key: string, data: string) {
    && visit.drop in net && w.digest(key) in net[visit.drop].files
    && net[visit.drop].files[w.digest(key)].data == data
    && !IsOlderThanTtl(visit.wall, net[visit.drop].files[w.digest(key)].modified)
  }

  /** End to end: when a put reports a store on some drops, then whatever anyone
  sends those servers between, during and after our visits, a get within the time
  to live returns the blob from every one of them still listed and reachable. */
  lemma PutThenGet(
    w: World, net: Network, puts: seq<Turn>, key: string, blob: string, counter: nat,
    joined: seq<PutOutcome>, gets: seq<Turn>, drop: string)
    requires Honest(key, blob, counter) && PutsInTime(puts)
    requires multiset(joined) == multiset(PutEverywhere(w, net, puts, PutRequest(key, blob, counter)).1)
    requires Summary(joined).0 == PutOk && drop in Summary(joined).1
    requires forall i :: 0 <= i < |puts| && puts[i].Ours? ==> InTime(gets, Entry(blob, puts[i].visit.wall))
    requires Reaches(gets, drop)
    ensures var stored := PutEverywhere(w, net, puts, PutRequest(key, blob, counter)).0;
            (drop, blob) in GetEverywhere(w, stored, gets, key).1
  {
    var (stored, outcomes) := PutEverywhere(w, net, puts, PutRequest(key, blob, counter));
    ReportedAreOutcomes(joined, PutOk, drop);
    assert PutOutcome(drop, PutOk) in multiset(outcomes);
    StoredWhereReported(w, net, puts, key, blob, counter, drop);
    var i :| 0 <= i < |puts| && puts[i].Ours? && puts[i].visit.drop == drop
      && NetHolds(stored, drop, w.digest(key), Entry(blob, puts[i].visit.wall));
    GetFinds(w, stored, gets, key, drop, Entry(blob, puts[i].visit.wall));
  }
}
