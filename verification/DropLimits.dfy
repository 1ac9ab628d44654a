/** The rate limit as the server uses it: charged by every well-formed put head,
whatever becomes of the blob, and so a bound on the puts that store one. */
module DropLimits {
  import opened RateLimiter
  import opened BlobStore
  import opened DropServer

  function ServeAll(w: World, drop: Drop, events: seq<Event>): Drop {
    if events == [] then drop else Serve(w, ServeAll(w, drop, events[..|events| - 1]), events[|events| - 1])
  }

  predicate Charges(event: Event) {
    event.Connection? && ParseRequest(FirstLine(event.input).0).PutHead?
  }

  /** The clock values at which the limiter was asked. */
  function ChargedClocks(events: seq<Event>): seq<int> {
    if events == [] then []
    else
      var init, last := ChargedClocks(events[..|events| - 1]), events[|events| - 1];
      if Charges(last) then init + [last.mono] else init
  }

  predicate Stores(w: World, drop: Drop, event: Event) {
    Charges(event) && Handle(w, drop, event.input, event.mono, event.wall).1 == "OK\n"
  }

  // ---------- charges ----------

  /** For the requests that stored a blob, the clock values at which they were
  charged. */
  function StoreClocks(w: World, drop: Drop, events: seq<Event>): seq<int> {
    if events == [] then []
    else
      var init, last := events[..|events| - 1], events[|events| - 1];
      if Stores(w, ServeAll(w, drop, init), last) then StoreClocks(w, drop, init) + [last.mono]
      else StoreClocks(w, drop, init)
  }

  /** The server's deque is the limiter's run over the charged requests. */
  lemma {:induction false} TimesAreCharges(w: World, drop: Drop, events: seq<Event>)
    requires drop.times == []
    ensures ServeAll(w, drop, events).times == DequeAfter(ChargedClocks(events))
    decreases |events|
  {
    if events != [] {
      var init, last := events[..|events| - 1], events[|events| - 1];
      TimesAreCharges(w, drop, init);
      if Charges(last) {
        ChargeOnce(ChargedClocks(init), last.mono);
      }
    }
  }

  lemma StoredIsAdmitted(w: World, drop: Drop, event: Event)
    requires Stores(w, drop, event)
    ensures Admits(drop.times, event.mono)
  {
    assert "ERR\n"[0] != "OK\n"[0];
  }

  lemma ChargeOnce(clocks: seq<int>, now: int)
    ensures DequeAfter(clocks + [now]) == AfterCall(DequeAfter(clocks), now)
    ensures LetThrough(clocks + [now]) == if Admits(DequeAfter(clocks), now) then LetThrough(clocks) + [now] else LetThrough(clocks)
  {
    assert (clocks + [now])[..|clocks|] == clocks;
  }

  lemma CountSnoc(times: seq<int>, t: int, from: int, to: int)
    ensures CountWithin(times + [t], from, to) == CountWithin(times, from, to) + if from <= t <= to then 1 else 0
  {
    assert (times + [t])[..|times|] == times;
  }

  lemma {:induction false} StoresAreLetThrough(w: World, drop: Drop, events: seq<Event>, from: int, to: int)
    requires drop.times == []
    ensures CountWithin(StoreClocks(w, drop, events), from, to) <= CountWithin(LetThrough(ChargedClocks(events)), from, to)
    decreases |events|
  {
    if events != [] {
      var init, last := events[..|events| - 1], events[|events| - 1];
      StoresAreLetThrough(w, drop, init, from, to);
      TimesAreCharges(w, drop, init);
      var clocks := ChargedClocks(init);
      if Charges(last) {
        ChargeOnce(clocks, last.mono);
        CountSnoc(LetThrough(clocks), last.mono, from, to);
      }
      if Stores(w, ServeAll(w, drop, init), last) {
        StoredIsAdmitted(w, ServeAll(w, drop, init), last);
        CountSnoc(StoreClocks(w, drop, init), last.mono, from, to);
      }
    }
  }

  /** At most 500 of the requests charged in any closed 60 seconds store a blob,
  whatever octets the connections send, if the charges read ordered clocks. */
  lemma FewStoresPerMinute(w: World, drop: Drop, events: seq<Event>, from: int)
    requires drop.times == [] && Ordered(ChargedClocks(events))
    ensures CountWithin(StoreClocks(w, drop, events), from, from + WINDOW) <= MAX_PUTS
  {
    StoresAreLetThrough(w, drop, events, from, from + WINDOW);
    NeverTooMany(ChargedClocks(events), from);
  }
}
