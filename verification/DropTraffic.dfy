/** The connections of one drop in time: an accept loop that pauses after every
connection, handlers that run side by side, a clock that each reads before it
waits for the lock of the rate limit, and files that take as long as they take. */
module DropTraffic {
  import opened RateLimiter

  const SECOND: int := 1_000_000_000
  const MAX_ACTIVE: nat := 32
  const READ_TIMEOUT: int := 15 * SECOND
  const MINUTE_SECONDS: nat := 60

  /** Where a handler is; `since` is when it began to read. */
  datatype Handler =
    | Waiting(since: int)      // for the command line
    | Asking(clock: int)       // has read the clock, waits for the lock
    | Uploading(since: int)    // admitted, waits for the blob
    | Writing                  // has the blob, checks and writes it
    | Replying

  /** A call of the limiter: the clock it read, and when it got the lock. */
  datatype Grant = Grant(clock: int, lock: int)

  /** The loop accepts again at `resume`; `latest` is the newest clock value that
  a call brought. The rest remembers: connections, clocks read, calls, stores. */
  datatype Traffic = Traffic(
    now: int, resume: int, handlers: seq<Handler>, deque: seq<int>, latest: int,
    accepted: seq<int>, clocks: seq<int>, grants: seq<Grant>, stored: seq<int>)

  datatype Step =
    | Wait(nanos: nat)
    | Accept                  // served, or turned away when too many are active
    | ReadClock(i: nat)       // a put head has come
    | Lock(i: nat)            // the limiter's turn
    | Body(i: nat)            // the blob has come
    | Store(i: nat)           // the rename
    | Discard(i: nat)         // the blob does not pass, or is there already
    | Leave(i: nat)           // at any point: done, failed, timed out, or no put at all

  function Fresh(now: int): Traffic {
    Traffic(now, now, [], [], now, [], [], [], [])
  }

  function With(t: Traffic, i: nat, h: Handler): Traffic
    requires i < |t.handlers|
  {
    t.(handlers := t.handlers[i := h])
  }

  function Max(a: int, b: int): int {
    if a <= b then b else a
  }

  /** One step; a step that is not possible changes nothing. */
  function Take(t: Traffic, step: Step): Traffic {
    match step
    case Wait(nanos) => t.(now := t.now + nanos)
    case Accept =>
      if t.now < t.resume then t
      else
        var paused := t.(resume := t.now + SECOND, accepted := t.accepted + [t.now]);
        if |t.handlers| < MAX_ACTIVE then paused.(handlers := t.handlers + [Waiting(t.now)]) else paused
    case _ => if step.i < |t.handlers| then TakeHandler(t, step, step.i, t.handlers[step.i]) else t
  }

  function TakeHandler(t: Traffic, step: Step, i: nat, h: Handler): Traffic
    requires i < |t.handlers| && !step.Wait? && !step.Accept?
  {
    match (step, h)
    case (ReadClock(_), Waiting(since)) =>
      if t.now - since <= READ_TIMEOUT then With(t, i, Asking(t.now)).(clocks := t.clocks + [t.now]) else t
    case (Lock(_), Asking(clock)) =>
      With(t, i, if Admits(t.deque, clock) then Uploading(t.now) else Replying)
        .(deque := AfterCall(t.deque, clock), latest := Max(t.latest, clock), grants := t.grants + [Grant(clock, t.now)])
    case (Body(_), Uploading(since)) => if t.now - since <= READ_TIMEOUT then With(t, i, Writing) else t
    case (Store(_), Writing) => With(t, i, Replying).(stored := t.stored + [t.now])
    case (Discard(_), Writing) => With(t, i, Replying)
    case (Leave(_), _) => t.(handlers := t.handlers[..i] + t.handlers[i + 1..])
    case _ => t
  }

  function TakeAll(t: Traffic, steps: seq<Step>): Traffic
    decreases |steps|
  {
    if steps == [] then t else TakeAll(Take(t, steps[0]), steps[1..])
  }

  // ---------- counting handlers ----------

  function CountIf(handlers: seq<Handler>, f: Handler -> bool): (n: nat)
    ensures n <= |handlers|
  {
    if handlers == [] then 0
    else CountIf(handlers[..|handlers| - 1], f) + (if f(handlers[|handlers| - 1]) then 1 else 0)
  }

  lemma CountIfSnoc(handlers: seq<Handler>, h: Handler, f: Handler -> bool)
    ensures CountIf(handlers + [h], f) == CountIf(handlers, f) + if f(h) then 1 else 0
  {
    assert (handlers + [h])[..|handlers|] == handlers;
  }

  lemma {:induction false} CountIfUpdate(handlers: seq<Handler>, i: nat, h: Handler, f: Handler -> bool)
    requires i < |handlers|
    ensures CountIf(handlers[i := h], f) + (if f(handlers[i]) then 1 else 0) == CountIf(handlers, f) + if f(h) then 1 else 0
  {
    var k := |handlers| - 1;
    if i < k {
      assert handlers[i := h][..k] == handlers[..k][i := h];
      CountIfUpdate(handlers[..k], i, h, f);
    } else {
      assert handlers[i := h][..k] == handlers[..k];
    }
  }

  lemma {:induction false} CountIfRemove(handlers: seq<Handler>, i: nat, f: Handler -> bool)
    requires i < |handlers|
    ensures CountIf(handlers[..i] + handlers[i + 1..], f) + (if f(handlers[i]) then 1 else 0) == CountIf(handlers, f)
  {
    var k := |handlers| - 1;
    if i < k {
      var fewer := handlers[..i] + handlers[i + 1..];
      assert fewer == (handlers[..k][..i] + handlers[..k][i + 1..]) + [handlers[k]];
      CountIfSnoc(handlers[..k][..i] + handlers[..k][i + 1..], handlers[k], f);
      CountIfRemove(handlers[..k], i, f);
    } else {
      assert handlers[..i] + handlers[i + 1..] == handlers[..k];
    }
  }

  lemma {:induction false} CountIfWeaker(handlers: seq<Handler>, f: Handler -> bool, g: Handler -> bool)
    requires forall h: Handler :: f(h) ==> g(h)
    ensures CountIf(handlers, f) <= CountIf(handlers, g)
  {
    if handlers != [] {
      CountIfWeaker(handlers[..|handlers| - 1], f, g);
    }
  }

  /** What a step does to a count: every handler stays or moves, one may come,
  one may go. */
  lemma CountIfTake(t: Traffic, step: Step, f: Handler -> bool)
    requires OnHandler(t, step)
    ensures var next := Take(t, step);
            || (next == t)
            || (step.Leave? && CountIf(next.handlers, f) <= CountIf(t.handlers, f) && |next.handlers| == |t.handlers| - 1)
            || (!step.Leave? && |next.handlers| == |t.handlers|
                && CountIf(next.handlers, f) + (if f(t.handlers[step.i]) then 1 else 0)
                   == CountIf(t.handlers, f) + if f(next.handlers[step.i]) then 1 else 0)
  {
    var i, next := step.i, Take(t, step);
    if step.Leave? {
      CountIfRemove(t.handlers, i, f);
    } else if next != t {
      assert next.handlers == t.handlers[i := next.handlers[i]];
      CountIfUpdate(t.handlers, i, next.handlers[i], f);
    }
  }

  ghost predicate OnHandler(t: Traffic, step: Step) {
    !step.Wait? && !step.Accept? && step.i < |t.handlers|
  }

  ghost predicate BringsNone(t: Traffic, step: Step, f: Handler -> bool)
    requires OnHandler(t, step)
  {
    !step.Leave? ==> |Take(t, step).handlers| == |t.handlers| && (f(Take(t, step).handlers[step.i]) ==> f(t.handlers[step.i]))
  }

  /** A step that brings no handler under `f` makes the count no larger. */
  lemma NoMore(t: Traffic, step: Step, f: Handler -> bool)
    requires OnHandler(t, step) && BringsNone(t, step, f)
    ensures CountIf(Take(t, step).handlers, f) <= CountIf(t.handlers, f)
  {
    CountIfTake(t, step, f);
  }

  // ---------- the pace of connections ----------

  ghost predicate Spaced(times: seq<int>) {
    forall i :: 0 < i < |times| ==> times[i - 1] + SECOND <= times[i]
  }

  lemma {:induction false} SpacedCount(times: seq<int>, from: int, to: int)
    requires Spaced(times)
    ensures from <= to ==> (CountWithin(times, from, to) - 1) * SECOND <= to - from
    ensures times != [] && from <= times[|times| - 1] <= to ==>
              (CountWithin(times, from, to) - 1) * SECOND <= times[|times| - 1] - from
    decreases |times|
  {
    if times != [] {
      var init, last := times[..|times| - 1], times[|times| - 1];
      SpacedCount(init, from, to);
      if init != [] && from <= last <= to && init[|init| - 1] < from {
        SpacedBefore(init, from, to);
      }
    }
  }

  /** Nothing lies in a window that begins after the last time. */
  lemma {:induction false} SpacedBefore(times: seq<int>, from: int, to: int)
    requires Spaced(times) && times != [] && times[|times| - 1] < from
    ensures CountWithin(times, from, to) == 0
    decreases |times|
  {
    var init := times[..|times| - 1];
    if init != [] {
      assert times[|times| - 2] == init[|init| - 1];
      SpacedBefore(init, from, to);
    }
  }

  /** At most one connection more than the window has seconds. */
  lemma FewAccepts(times: seq<int>, from: int, seconds: nat)
    requires Spaced(times)
    ensures CountWithin(times, from, from + seconds * SECOND) <= seconds + 1
  {
    SpacedCount(times, from, from + seconds * SECOND);
  }

  // ---------- what every run keeps ----------

  ghost predicate Past(times: seq<int>, now: int) {
    forall i :: 0 <= i < |times| ==> times[i] <= now
  }

  ghost predicate PacedConnections(t: Traffic) {
    && |t.handlers| <= MAX_ACTIVE && Spaced(t.accepted) && Past(t.accepted, t.now)
    && (t.accepted != [] ==> t.accepted[|t.accepted| - 1] + SECOND <= t.resume)
  }

  /** Clock values are of the past, and calls come in the order of the lock. */
  ghost predicate PastClocks(t: Traffic) {
    && t.latest <= t.now && Past(t.clocks, t.now) && Past(t.stored, t.now)
    && (forall i :: 0 <= i < |t.handlers| && t.handlers[i].Asking? ==> t.handlers[i].clock <= t.now)
    && GrantsInOrder(t.grants, t.latest, t.now)
  }

  ghost predicate GrantsInOrder(grants: seq<Grant>, latest: int, now: int) {
    && (forall i :: 0 <= i < |grants| ==> grants[i].clock <= grants[i].lock <= now && grants[i].clock <= latest)
    && (forall i, j :: 0 <= i < j < |grants| ==> grants[i].lock <= grants[j].lock)
  }

  ghost predicate Regular(t: Traffic) {
    PacedConnections(t) && PastClocks(t)
  }

  lemma TakeKeepsPace(t: Traffic, step: Step)
    requires PacedConnections(t)
    ensures PacedConnections(Take(t, step))
  {
  }

  lemma GrantKeepsOrder(grants: seq<Grant>, latest: int, now: int, clock: int)
    requires GrantsInOrder(grants, latest, now) && clock <= now
    ensures GrantsInOrder(grants + [Grant(clock, now)], Max(latest, clock), now)
  {
  }

  lemma TakeKeepsPast(t: Traffic, step: Step)
    requires PastClocks(t)
    ensures PastClocks(Take(t, step))
  {
    if step.Lock? && step.i < |t.handlers| && t.handlers[step.i].Asking? {
      LockKeepsPast(t, step.i);
    } else {
      OtherKeepsPast(t, step);
    }
  }

  lemma LockKeepsPast(t: Traffic, i: nat)
    requires PastClocks(t) && i < |t.handlers| && t.handlers[i].Asking?
    ensures PastClocks(Take(t, Lock(i)))
  {
    GrantKeepsOrder(t.grants, t.latest, t.now, t.handlers[i].clock);
  }

  lemma OtherKeepsPast(t: Traffic, step: Step)
    requires PastClocks(t) && !(step.Lock? && step.i < |t.handlers| && t.handlers[step.i].Asking?)
    ensures PastClocks(Take(t, step))
  {
  }

  lemma TakeKeepsRegular(t: Traffic, step: Step)
    requires Regular(t)
    ensures Regular(Take(t, step))
  {
    TakeKeepsPace(t, step);
    TakeKeepsPast(t, step);
  }

  lemma {:induction false} RunKeepsRegular(t: Traffic, steps: seq<Step>)
    requires Regular(t)
    ensures Regular(TakeAll(t, steps))
    decreases |steps|
  {
    if steps != [] {
      TakeKeepsRegular(t, steps[0]);
      RunKeepsRegular(Take(t, steps[0]), steps[1..]);
    }
  }

  lemma CountSnoc(times: seq<int>, x: int, from: int, to: int)
    ensures CountWithin(times + [x], from, to) == CountWithin(times, from, to) + if from <= x <= to then 1 else 0
  {
    assert (times + [x])[..|times|] == times;
  }

  // ---------- stores ----------

  function Unstored(now: int, to: int): Handler -> bool {
    (h: Handler) => now <= to && !h.Replying?
  }

  /** Every store in the window has a connection in it, or its handler was active
  when the window began; so have the handlers that may still store in it. */
  ghost predicate StoresPaid(t: Traffic, from: int, to: int) {
    CountWithin(t.stored, from, to) + CountIf(t.handlers, Unstored(t.now, to)) <= CountWithin(t.accepted, from, to) + MAX_ACTIVE
  }

  /** An accepted connection pays for the handler it brings. */
  lemma AcceptCounts(t: Traffic, from: int, to: int, f: Handler -> bool)
    requires f(Waiting(t.now)) ==> from <= t.now <= to
    ensures var next := Take(t, Accept);
            && next.now == t.now && next.grants == t.grants && next.stored == t.stored && next.clocks == t.clocks
            && CountIf(next.handlers, f) + CountWithin(t.accepted, from, to) <= CountIf(t.handlers, f) + CountWithin(next.accepted, from, to)
  {
    CountSnoc(t.accepted, t.now, from, to);
    CountIfSnoc(t.handlers, Waiting(t.now), f);
  }

  lemma StoresOnAccept(t: Traffic, from: int, to: int)
    requires StoresPaid(t, from, to) && from <= t.now
    ensures StoresPaid(Take(t, Accept), from, to)
  {
    AcceptCounts(t, from, to, Unstored(t.now, to));
  }

  lemma StoresOnStore(t: Traffic, i: nat, from: int, to: int)
    requires StoresPaid(t, from, to) && i < |t.handlers| && t.handlers[i].Writing?
    ensures StoresPaid(Take(t, Store(i)), from, to)
  {
    CountIfUpdate(t.handlers, i, Replying, Unstored(t.now, to));
    CountSnoc(t.stored, t.now, from, to);
  }

  lemma StoresOnHandler(t: Traffic, step: Step, from: int, to: int)
    requires StoresPaid(t, from, to) && OnHandler(t, step)
    ensures StoresPaid(Take(t, step), from, to)
  {
    if step.Store? && t.handlers[step.i].Writing? {
      StoresOnStore(t, step.i, from, to);
    } else {
      NoMore(t, step, Unstored(t.now, to));
    }
  }

  lemma StoresStayPaid(t: Traffic, step: Step, from: int, to: int)
    requires Regular(t) && StoresPaid(t, from, to)
    ensures StoresPaid(Take(t, step), from, to)
  {
    TakeKeepsRegular(t, step);
    if Take(t, step).now < from {
      CountNone(Take(t, step).stored, from, to);
    } else if step.Wait? {
      CountIfWeaker(t.handlers, Unstored(t.now + step.nanos, to), Unstored(t.now, to));
    } else if step.Accept? {
      StoresOnAccept(t, from, to);
    } else if step.i < |t.handlers| {
      StoresOnHandler(t, step, from, to);
    }
  }

  // ---------- clocks read ----------

  function MayRead(now: int, from: int, to: int): Handler -> bool {
    (h: Handler) => now <= to && h.Waiting? && h.since >= from - READ_TIMEOUT
  }

  /** Every clock value in the window was read by a handler that was connected at
  most the time-out before it; so may the handlers that still wait. */
  ghost predicate ReadsPaid(t: Traffic, from: int, to: int) {
    CountWithin(t.clocks, from, to) + CountIf(t.handlers, MayRead(t.now, from, to))
      <= CountWithin(t.accepted, from - READ_TIMEOUT, to)
  }

  lemma ReadsOnAccept(t: Traffic, from: int, to: int)
    requires ReadsPaid(t, from, to)
    ensures ReadsPaid(Take(t, Accept), from, to)
  {
    AcceptCounts(t, from - READ_TIMEOUT, to, MayRead(t.now, from, to));
  }

  lemma ReadsOnRead(t: Traffic, i: nat, from: int, to: int)
    requires ReadsPaid(t, from, to) && i < |t.handlers| && t.handlers[i].Waiting? && t.now - t.handlers[i].since <= READ_TIMEOUT
    ensures ReadsPaid(Take(t, ReadClock(i)), from, to)
  {
    CountIfUpdate(t.handlers, i, Asking(t.now), MayRead(t.now, from, to));
    CountSnoc(t.clocks, t.now, from, to);
  }

  lemma ReadsOnHandler(t: Traffic, step: Step, from: int, to: int)
    requires ReadsPaid(t, from, to) && OnHandler(t, step)
    ensures ReadsPaid(Take(t, step), from, to)
  {
    if step.ReadClock? && t.handlers[step.i].Waiting? && t.now - t.handlers[step.i].since <= READ_TIMEOUT {
      ReadsOnRead(t, step.i, from, to);
    } else {
      NoMore(t, step, MayRead(t.now, from, to));
    }
  }

  lemma ReadsStayPaid(t: Traffic, step: Step, from: int, to: int)
    requires ReadsPaid(t, from, to)
    ensures ReadsPaid(Take(t, step), from, to)
  {
    if step.Wait? {
      CountIfWeaker(t.handlers, MayRead(t.now + step.nanos, from, to), MayRead(t.now, from, to));
    } else if step.Accept? {
      ReadsOnAccept(t, from, to);
    } else if step.i < |t.handlers| {
      ReadsOnHandler(t, step, from, to);
    }
  }

  // ---------- calls of the limiter ----------

  function CountGrants(grants: seq<Grant>, from: int, to: int): (n: nat)
    ensures n <= |grants|
  {
    if grants == [] then 0
    else
      var last := grants[|grants| - 1];
      CountGrants(grants[..|grants| - 1], from, to) + if last.lock >= from && last.clock <= to then 1 else 0
  }

  lemma GrantSnoc(grants: seq<Grant>, g: Grant, from: int, to: int)
    ensures CountGrants(grants + [g], from, to) == CountGrants(grants, from, to) + if g.lock >= from && g.clock <= to then 1 else 0
  {
    assert (grants + [g])[..|grants|] == grants;
  }

  lemma {:induction false} NoGrantsYet(grants: seq<Grant>, from: int, to: int)
    requires forall i :: 0 <= i < |grants| ==> grants[i].lock < from
    ensures CountGrants(grants, from, to) == 0
  {
    if grants != [] {
      NoGrantsYet(grants[..|grants| - 1], from, to);
    }
  }

  function MayLock(now: int, to: int): Handler -> bool {
    (h: Handler) => (h.Waiting? && now <= to) || (h.Asking? && h.clock <= to)
  }

  /** Calls that got the lock in the window or later, with a clock value of the
  window or earlier, have their connections in the window, or their handlers were
  active when it began: however long they waited for the lock. */
  ghost predicate GrantsPaid(t: Traffic, from: int, to: int) {
    CountGrants(t.grants, from, to) + CountIf(t.handlers, MayLock(t.now, to)) <= CountWithin(t.accepted, from, to) + MAX_ACTIVE
  }

  lemma GrantsOnAccept(t: Traffic, from: int, to: int)
    requires GrantsPaid(t, from, to) && from <= t.now
    ensures GrantsPaid(Take(t, Accept), from, to)
  {
    AcceptCounts(t, from, to, MayLock(t.now, to));
  }

  /** The handler goes on; only its own place, the deque and the call change. */
  lemma LockEffect(t: Traffic, i: nat)
    requires i < |t.handlers| && t.handlers[i].Asking?
    ensures var next, clock := Take(t, Lock(i)), t.handlers[i].clock;
            && |next.handlers| == |t.handlers| && next.handlers == t.handlers[i := next.handlers[i]]
            && next.handlers[i] == (if Admits(t.deque, clock) then Uploading(t.now) else Replying)
            && next.grants == t.grants + [Grant(clock, t.now)] && next.latest == Max(t.latest, clock)
            && next.now == t.now && next.accepted == t.accepted && next.deque == AfterCall(t.deque, clock)
  {
  }

  lemma GrantsOnLock(t: Traffic, i: nat, from: int, to: int)
    requires GrantsPaid(t, from, to) && i < |t.handlers| && t.handlers[i].Asking?
    ensures GrantsPaid(Take(t, Lock(i)), from, to)
  {
    LockEffect(t, i);
    CountIfUpdate(t.handlers, i, Take(t, Lock(i)).handlers[i], MayLock(t.now, to));
    GrantSnoc(t.grants, Grant(t.handlers[i].clock, t.now), from, to);
  }

  lemma GrantsOnHandler(t: Traffic, step: Step, from: int, to: int)
    requires GrantsPaid(t, from, to) && OnHandler(t, step)
    ensures GrantsPaid(Take(t, step), from, to)
  {
    if step.Lock? && t.handlers[step.i].Asking? {
      GrantsOnLock(t, step.i, from, to);
    } else {
      NoMore(t, step, MayLock(t.now, to));
    }
  }

  lemma GrantsStayPaid(t: Traffic, step: Step, from: int, to: int)
    requires Regular(t) && GrantsPaid(t, from, to)
    ensures GrantsPaid(Take(t, step), from, to)
  {
    TakeKeepsRegular(t, step);
    if Take(t, step).now < from {
      NoGrantsYet(Take(t, step).grants, from, to);
    } else if step.Wait? {
      CountIfWeaker(t.handlers, MayLock(t.now + step.nanos, to), MayLock(t.now, to));
    } else if step.Accept? {
      GrantsOnAccept(t, from, to);
    } else if step.i < |t.handlers| {
      GrantsOnHandler(t, step, from, to);
    }
  }

  lemma {:induction false} RunPaid(t: Traffic, steps: seq<Step>, from: int, to: int)
    requires Regular(t) && StoresPaid(t, from, to) && ReadsPaid(t, from, to) && GrantsPaid(t, from, to)
    ensures var end := TakeAll(t, steps); Regular(end) && StoresPaid(end, from, to) && ReadsPaid(end, from, to) && GrantsPaid(end, from, to)
    decreases |steps|
  {
    if steps != [] {
      TakeKeepsRegular(t, steps[0]);
      StoresStayPaid(t, steps[0], from, to);
      ReadsStayPaid(t, steps[0], from, to);
      GrantsStayPaid(t, steps[0], from, to);
      RunPaid(Take(t, steps[0]), steps[1..], from, to);
    }
  }

  lemma {:induction false} TakeConcat(t: Traffic, a: seq<Step>, b: seq<Step>)
    ensures TakeAll(t, a + b) == TakeAll(TakeAll(t, a), b)
    decreases |a|
  {
    if a == [] {
      assert a + b == b;
    } else {
      assert (a + b)[1..] == a[1..] + b;
      TakeConcat(Take(t, a[0]), a[1..], b);
    }
  }

  /** A state of some run of the server. */
  ghost predicate Reachable(t: Traffic) {
    exists start: int, steps: seq<Step> :: TakeAll(Fresh(start), steps) == t
  }

  lemma FreshReachable(start: int)
    ensures Reachable(Fresh(start))
  {
    assert TakeAll(Fresh(start), []) == Fresh(start);
  }

  lemma ReachableStep(t: Traffic, step: Step)
    requires Reachable(t)
    ensures Reachable(Take(t, step))
  {
    var start: int, steps: seq<Step> :| TakeAll(Fresh(start), steps) == t;
    TakeConcat(Fresh(start), steps, [step]);
    assert [step][1..] == [];
    assert TakeAll(t, [step]) == TakeAll(Take(t, step), []);
    assert TakeAll(Fresh(start), steps + [step]) == Take(t, step);
  }

  lemma ReachablePaid(t: Traffic, from: int, to: int)
    requires Reachable(t)
    ensures Regular(t) && StoresPaid(t, from, to) && ReadsPaid(t, from, to) && GrantsPaid(t, from, to)
  {
    var start: int, steps: seq<Step> :| TakeAll(Fresh(start), steps) == t;
    RunPaid(Fresh(start), steps, from, to);
  }

  // ---------- what a minute can bring ----------

  /** In any closed 60 seconds a drop stores at most 93 blobs: one for each of 61
  connections and 32 handlers that were active. */
  lemma StoresPerMinute(t: Traffic, from: int)
    requires Reachable(t)
    ensures CountWithin(t.stored, from, from + WINDOW) <= MINUTE_SECONDS + 1 + MAX_ACTIVE
  {
    ReachablePaid(t, from, from + WINDOW);
    FewAccepts(t.accepted, from, MINUTE_SECONDS);
  }

  /** In any closed 60 seconds the limiter is asked with at most 76 clock values of
  them: one for each connection in them and in the 15 seconds of the time-out
  before. So the limit of 500 is kept, in whatever order the calls get the lock. */
  lemma AsksPerMinute(t: Traffic, from: int)
    requires Reachable(t)
    ensures CountWithin(t.clocks, from, from + WINDOW) <= MINUTE_SECONDS + 15 + 1 < MAX_PUTS
  {
    ReachablePaid(t, from, from + WINDOW);
    FewAccepts(t.accepted, from - READ_TIMEOUT, MINUTE_SECONDS + 15);
  }

  // ---------- the limiter never refuses ----------

  /** The deque holds the clock values of the newest calls. */
  ghost predicate DequeKept(deque: seq<int>, grants: seq<Grant>) {
    |deque| <= |grants| && forall i :: 0 <= i < |deque| ==> deque[i] == grants[|grants| - |deque| + i].clock
  }

  /** The handlers whose call will bring an earlier clock value than an earlier call. */
  function Late(latest: int): Handler -> bool {
    (h: Handler) => h.Asking? && h.clock < latest
  }

  const MOST_KEPT: nat := MINUTE_SECONDS + 1 + MAX_ACTIVE + 1 + MAX_ACTIVE

  /** Late calls prune little, but there are never more of them than handlers. */
  ghost predicate Roomy(t: Traffic) {
    DequeKept(t.deque, t.grants) && |t.deque| + CountIf(t.handlers, Late(t.latest)) <= MOST_KEPT
  }

  lemma {:induction false} GrantsSuffix(grants: seq<Grant>, k: nat, from: int, to: int)
    requires k <= |grants| && forall i :: k <= i < |grants| ==> grants[i].lock >= from && grants[i].clock <= to
    ensures CountGrants(grants, from, to) >= |grants| - k
  {
    if k < |grants| {
      GrantsSuffix(grants[..|grants| - 1], k, from, to);
    }
  }

  /** A call that brings the newest clock value so far leaves in the deque only
  calls that got the lock within the window before it. */
  lemma NewestKeepsFew(t: Traffic, clock: int)
    requires Reachable(t) && DequeKept(t.deque, t.grants) && t.latest <= clock
    ensures |Prune(t.deque, clock - WINDOW)| <= MINUTE_SECONDS + 1 + MAX_ACTIVE
  {
    var from := clock - WINDOW;
    var n := PruneSplits(t.deque, from);
    var k := |t.grants| - |t.deque| + n;
    ReachablePaid(t, from, clock);
    if n < |t.deque| {
      assert t.grants[k].clock == t.deque[n];
    }
    GrantsSuffix(t.grants, k, from, clock);
    FewAccepts(t.accepted, from, MINUTE_SECONDS);
  }

  lemma KeptAfterCall(deque: seq<int>, grants: seq<Grant>, clock: int, lock: int)
    requires DequeKept(deque, grants) && Admits(deque, clock)
    ensures DequeKept(AfterCall(deque, clock), grants + [Grant(clock, lock)])
  {
    var n := PruneSplits(deque, clock - WINDOW);
    KeptWithoutFront(deque, grants, n);
    KeptWithNewest(deque[n..], grants, Grant(clock, lock));
  }

  lemma KeptWithoutFront(deque: seq<int>, grants: seq<Grant>, n: nat)
    requires DequeKept(deque, grants) && n <= |deque|
    ensures DequeKept(deque[n..], grants)
  {
    forall i | 0 <= i < |deque| - n ensures deque[n..][i] == grants[|grants| - (|deque| - n) + i].clock {
      assert deque[n..][i] == deque[n + i];
    }
  }

  lemma KeptWithNewest(deque: seq<int>, grants: seq<Grant>, g: Grant)
    requires DequeKept(deque, grants)
    ensures DequeKept(deque + [g.clock], grants + [g])
  {
    var longer, all := deque + [g.clock], grants + [g];
    forall i | 0 <= i < |longer| ensures longer[i] == all[|all| - |longer| + i].clock {
      if i < |deque| {
        assert deque[i] == grants[|grants| - |deque| + i].clock;
      }
    }
  }

  lemma RoomyOnLock(t: Traffic, i: nat)
    requires Reachable(t) && Roomy(t) && i < |t.handlers| && t.handlers[i].Asking?
    ensures Roomy(Take(t, Lock(i)))
  {
    var clock := t.handlers[i].clock;
    var n := PruneSplits(t.deque, clock - WINDOW);
    ReachablePaid(t, 0, 0);
    LockEffect(t, i);
    KeptAfterCall(t.deque, t.grants, clock, t.now);
    if t.latest <= clock {
      NewestKeepsFew(t, clock);
    } else {
      CountIfUpdate(t.handlers, i, Take(t, Lock(i)).handlers[i], Late(t.latest));
    }
  }

  lemma RoomyOnAccept(t: Traffic)
    requires Roomy(t)
    ensures Roomy(Take(t, Accept))
  {
    CountIfSnoc(t.handlers, Waiting(t.now), Late(t.latest));
  }

  /** A clock read now is not late. */
  lemma RoomyOnOther(t: Traffic, step: Step)
    requires Roomy(t) && OnHandler(t, step) && t.latest <= t.now && !(step.Lock? && t.handlers[step.i].Asking?)
    ensures Roomy(Take(t, step))
  {
    NoMore(t, step, Late(t.latest));
  }

  lemma RoomyStep(t: Traffic, step: Step)
    requires Reachable(t) && Roomy(t)
    ensures Roomy(Take(t, step))
  {
    ReachablePaid(t, 0, 0);
    if step.Accept? {
      RoomyOnAccept(t);
    } else if OnHandler(t, step) && step.Lock? && t.handlers[step.i].Asking? {
      RoomyOnLock(t, step.i);
    } else if OnHandler(t, step) {
      RoomyOnOther(t, step);
    }
  }

  lemma {:induction false} RunRoomy(start: int, steps: seq<Step>)
    ensures Roomy(TakeAll(Fresh(start), steps)) && Reachable(TakeAll(Fresh(start), steps))
    decreases |steps|
  {
    if steps == [] {
      FreshReachable(start);
    } else {
      var init, last := steps[..|steps| - 1], steps[|steps| - 1];
      RunRoomy(start, init);
      var before := TakeAll(Fresh(start), init);
      RoomyStep(before, last);
      ReachableStep(before, last);
      TakeConcat(Fresh(start), init, [last]);
      assert steps == init + [last] && [last][1..] == [];
      assert TakeAll(before, [last]) == TakeAll(Take(before, last), []);
    }
  }

  /** The server never refuses a put for its rate: whatever clock value a call
  brings and however long it waited for the lock, there is room. */
  lemma NeverRefused(t: Traffic, clock: int)
    requires Reachable(t)
    ensures Admits(t.deque, clock)
  {
    var start: int, steps: seq<Step> :| TakeAll(Fresh(start), steps) == t;
    RunRoomy(start, steps);
    var n := PruneSplits(t.deque, clock - WINDOW);
  }

  // ---------- both bounds are reached ----------

  function Alike(h: Handler, n: nat): seq<Handler> {
    seq(n, _ => h)
  }

  lemma TakeTwo(t: Traffic, a: Step, b: Step) returns (end: Traffic)
    requires Reachable(t)
    ensures end == Take(Take(t, a), b) && Reachable(end)
  {
    ReachableStep(t, a);
    ReachableStep(Take(t, a), b);
    end := Take(Take(t, a), b);
  }

  /** A put up to its upload, by the last handler. */
  lemma Begin(t: Traffic, others: seq<Handler>) returns (end: Traffic)
    requires Reachable(t) && t.now >= t.resume && t.handlers == others && |others| < MAX_ACTIVE
    ensures Reachable(end) && end.handlers == others + [Writing]
    ensures end.now == t.now && end.resume == t.now + SECOND && end.stored == t.stored && end.clocks == t.clocks + [t.now]
  {
    var i := |others|;
    var read := TakeTwo(t, Accept, ReadClock(i));
    assert read.handlers == others + [Asking(t.now)];
    NeverRefused(read, t.now);
    LockEffect(read, i);
    end := TakeTwo(read, Lock(i), Body(i));
    assert Take(read, Lock(i)).handlers == others + [Uploading(t.now)];
    assert end.handlers == others + [Writing];
  }

  /** As many uploads as can be active, a second apart; the disk holds them up. */
  lemma {:induction false} BeginMany(n: nat) returns (end: Traffic)
    requires n <= MAX_ACTIVE
    ensures Reachable(end) && end.handlers == Alike(Writing, n)
    ensures end.now == end.resume == n * SECOND && end.stored == []
  {
    if n == 0 {
      FreshReachable(0);
      end := Fresh(0);
    } else {
      var before := BeginMany(n - 1);
      var begun := Begin(before, Alike(Writing, n - 1));
      ReachableStep(begun, Wait(SECOND));
      end := Take(begun, Wait(SECOND));
      assert Alike(Writing, n - 1) + [Writing] == Alike(Writing, n);
    }
  }

  /** The disk catches up. */
  lemma {:induction false} EndMany(t: Traffic, n: nat, from: int, to: int) returns (end: Traffic)
    requires Reachable(t) && t.handlers == Alike(Writing, n) && from <= t.now <= to
    ensures Reachable(end) && end.handlers == [] && end.now == t.now && end.resume == t.resume && end.clocks == t.clocks
    ensures CountWithin(end.stored, from, to) == CountWithin(t.stored, from, to) + n
    decreases n
  {
    if n == 0 {
      end := t;
    } else {
      var next := EndOne(t, n);
      CountSnoc(t.stored, t.now, from, to);
      end := EndMany(next, n - 1, from, to);
    }
  }

  lemma EndOne(t: Traffic, n: nat) returns (end: Traffic)
    requires Reachable(t) && t.handlers == Alike(Writing, n) && n > 0
    ensures Reachable(end) && end.handlers == Alike(Writing, n - 1)
    ensures end.now == t.now && end.resume == t.resume && end.clocks == t.clocks && end.stored == t.stored + [t.now]
  {
    end := TakeTwo(t, Store(0), Leave(0));
    LeaveFirst(Take(t, Store(0)));
    assert end.handlers == Alike(Writing, n - 1);
  }

  lemma LeaveFirst(t: Traffic)
    requires t.handlers != []
    ensures Take(t, Leave(0)) == t.(handlers := t.handlers[1..])
  {
  }

  lemma QuickOne(t: Traffic) returns (end: Traffic)
    requires Reachable(t) && t.handlers == [] && t.now >= t.resume
    ensures Reachable(end) && end.handlers == [] && end.now == end.resume == t.now + SECOND
    ensures end.stored == t.stored + [t.now] && end.clocks == t.clocks + [t.now]
  {
    var begun := Begin(t, []);
    assert begun.handlers == Alike(Writing, 1);
    var done := EndOne(begun, 1);
    ReachableStep(done, Wait(SECOND));
    end := Take(done, Wait(SECOND));
    assert end.handlers == [];
  }

  /** Puts one after the other, a second apart. */
  lemma {:induction false} QuickMany(t: Traffic, n: nat, from: int, to: int) returns (end: Traffic)
    requires Reachable(t) && t.handlers == [] && t.now >= t.resume && from <= t.now
    requires n > 0 ==> t.now + (n - 1) * SECOND <= to
    ensures Reachable(end)
    ensures CountWithin(end.stored, from, to) == CountWithin(t.stored, from, to) + n
    ensures CountWithin(end.clocks, from, to) == CountWithin(t.clocks, from, to) + n
    decreases n
  {
    if n == 0 {
      end := t;
    } else {
      var next := QuickOne(t);
      CountSnoc(t.stored, t.now, from, to);
      CountSnoc(t.clocks, t.now, from, to);
      end := QuickMany(next, n - 1, from, to);
    }
  }

  /** The bound on stores is reached: the disk holds uploads up until as many are
  active as can be, lets them go as the window opens, and then takes one put a
  second. */
  lemma StoresReached() returns (t: Traffic)
    ensures Reachable(t)
    ensures CountWithin(t.stored, MAX_ACTIVE * SECOND, MAX_ACTIVE * SECOND + WINDOW) == MINUTE_SECONDS + 1 + MAX_ACTIVE
  {
    var from, to := MAX_ACTIVE * SECOND, MAX_ACTIVE * SECOND + WINDOW;
    var begun := BeginMany(MAX_ACTIVE);
    var ended := EndMany(begun, MAX_ACTIVE, from, to);
    t := QuickMany(ended, MINUTE_SECONDS + 1, from, to);
  }

  ghost predicate AllWaiting(handlers: seq<Handler>, since: int) {
    forall i :: 0 <= i < |handlers| ==> handlers[i].Waiting? && handlers[i].since >= since
  }

  /** Connections a second apart that do not say anything yet. */
  lemma {:induction false} ConnectMany(n: nat) returns (end: Traffic)
    requires n <= MAX_ACTIVE
    ensures Reachable(end) && |end.handlers| == n && AllWaiting(end.handlers, 0)
    ensures end.now == end.resume == n * SECOND && end.clocks == []
  {
    if n == 0 {
      FreshReachable(0);
      end := Fresh(0);
    } else {
      var before := ConnectMany(n - 1);
      end := TakeTwo(before, Accept, Wait(SECOND));
    }
  }

  /** They all speak at once, and then hang up. */
  lemma {:induction false} SpeakMany(t: Traffic, from: int, to: int) returns (end: Traffic)
    requires Reachable(t) && AllWaiting(t.handlers, t.now - READ_TIMEOUT) && from <= t.now <= to
    ensures Reachable(end) && end.handlers == [] && end.now == t.now && end.resume == t.resume
    ensures CountWithin(end.clocks, from, to) == CountWithin(t.clocks, from, to) + |t.handlers|
    decreases |t.handlers|
  {
    if t.handlers == [] {
      end := t;
    } else {
      var next := TakeTwo(t, ReadClock(0), Leave(0));
      LeaveFirst(Take(t, ReadClock(0)));
      assert next.handlers == t.handlers[1..];
      CountSnoc(t.clocks, t.now, from, to);
      end := SpeakMany(next, from, to);
    }
  }

  /** So is the bound on calls: clients that have kept silent for up to 15 seconds
  speak as the window opens, and then comes one put a second. */
  lemma AsksReached() returns (t: Traffic)
    ensures Reachable(t)
    ensures CountWithin(t.clocks, READ_TIMEOUT, READ_TIMEOUT + WINDOW) == MINUTE_SECONDS + 15 + 1
  {
    var from, to := READ_TIMEOUT, READ_TIMEOUT + WINDOW;
    var waiting := ConnectMany(15);
    var spoken := SpeakMany(waiting, from, to);
    t := QuickMany(spoken, MINUTE_SECONDS + 1, from, to);
  }
}
