/** The per-drop limit on stored blobs: a deque of admission times, pruned from
the front, refining the count over every admission there ever was.

Times are nanoseconds of a monotonic clock. */
module RateLimiter {

  const WINDOW: int := 60 * 1_000_000_000
  const MAX_PUTS: nat := 500

  // ---------- the deque ----------

  function Prune(times: seq<int>, cutoff: int): seq<int> {
    if times != [] && times[0] < cutoff then Prune(times[1..], cutoff) else times
  }

  predicate Admits(times: seq<int>, now: int) {
    |Prune(times, now - WINDOW)| < MAX_PUTS
  }

  /** The deque after one call. */
  function AfterCall(times: seq<int>, now: int): seq<int> {
    var kept := Prune(times, now - WINDOW);
    if |kept| >= MAX_PUTS then kept else kept + [now]
  }

  /** The deque after a run of calls reading these clock values. */
  function DequeAfter(clocks: seq<int>): seq<int> {
    if clocks == [] then [] else AfterCall(DequeAfter(clocks[..|clocks| - 1]), clocks[|clocks| - 1])
  }

  /** The clock values of the calls the deque let through. */
  function LetThrough(clocks: seq<int>): seq<int> {
    if clocks == [] then []
    else
      var init, now := clocks[..|clocks| - 1], clocks[|clocks| - 1];
      if Admits(DequeAfter(init), now) then LetThrough(init) + [now] else LetThrough(init)
  }

  // ---------- the reference ----------

  function CountWithin(times: seq<int>, from: int, to: int): nat {
    if times == [] then 0
    else CountWithin(times[..|times| - 1], from, to) + (if from <= times[|times| - 1] <= to then 1 else 0)
  }

  /** Admissions when every call is judged against all earlier admissions. */
  ghost function Admissions(clocks: seq<int>): seq<int> {
    if clocks == [] then []
    else Judged(Admissions(clocks[..|clocks| - 1]), clocks[|clocks| - 1])
  }

  ghost function Judged(before: seq<int>, now: int): seq<int> {
    if CountWithin(before, now - WINDOW, now) < MAX_PUTS then before + [now] else before
  }

  ghost predicate Ordered(clocks: seq<int>) {
    |clocks| < 2 || (Ordered(clocks[..|clocks| - 1]) && clocks[|clocks| - 2] <= clocks[|clocks| - 1])
  }

  lemma {:induction false} OrderedAt(clocks: seq<int>, i: nat, j: nat)
    requires Ordered(clocks) && i <= j < |clocks|
    ensures clocks[i] <= clocks[j]
    decreases |clocks|
  {
    var k := |clocks| - 1;
    if j < k {
      OrderedAt(clocks[..k], i, j);
    } else if i < k {
      OrderedAt(clocks[..k], i, k - 1);
    }
  }

  lemma {:induction false} CountConcat(a: seq<int>, b: seq<int>, from: int, to: int)
    ensures CountWithin(a + b, from, to) == CountWithin(a, from, to) + CountWithin(b, from, to)
    decreases |b|
  {
    if b == [] {
      assert a + b == a;
    } else {
      assert (a + b)[..|a + b| - 1] == a + b[..|b| - 1];
      CountConcat(a, b[..|b| - 1], from, to);
    }
  }

  lemma {:induction false} CountNone(times: seq<int>, from: int, to: int)
    requires forall i :: 0 <= i < |times| ==> !(from <= times[i] <= to)
    ensures CountWithin(times, from, to) == 0
  {
    if times != [] {
      CountNone(times[..|times| - 1], from, to);
    }
  }

  lemma {:induction false} CountAll(times: seq<int>, from: int, to: int)
    requires forall i :: 0 <= i < |times| ==> from <= times[i] <= to
    ensures CountWithin(times, from, to) == |times|
  {
    if times != [] {
      CountAll(times[..|times| - 1], from, to);
    }
  }

  lemma {:induction false} CountWider(times: seq<int>, from: int, to: int, from': int, to': int)
    requires from' <= from && to <= to'
    ensures CountWithin(times, from, to) <= CountWithin(times, from', to')
  {
    if times != [] {
      CountWider(times[..|times| - 1], from, to, from', to');
    }
  }

  lemma {:induction false} PruneSplits(times: seq<int>, cutoff: int) returns (n: nat)
    ensures n <= |times| && Prune(times, cutoff) == times[n..]
    ensures forall i :: 0 <= i < n ==> times[i] < cutoff
    ensures n < |times| ==> times[n] >= cutoff
  {
    if times != [] && times[0] < cutoff {
      var m := PruneSplits(times[1..], cutoff);
      n := m + 1;
      forall i | 0 <= i < n ensures times[i] < cutoff {
        assert i > 0 ==> times[i] == times[1..][i - 1];
      }
    } else {
      n := 0;
    }
  }

  /** The deque is what remains of the admissions once some were left behind by
  the window that ends at `last`, the newest clock value. */
  ghost predicate Tracks(admitted: seq<int>, deque: seq<int>, last: int) {
    && |deque| <= |admitted|
    && deque == admitted[|admitted| - |deque|..]
    && (forall i :: 0 <= i < |admitted| - |deque| ==> admitted[i] < last - WINDOW)
    && (forall i :: 0 <= i < |admitted| ==> admitted[i] <= last)
    && Ordered(admitted)
  }

  lemma KeptTracks(admitted: seq<int>, deque: seq<int>, last: int, now: int)
    requires Tracks(admitted, deque, last) && last <= now
    ensures var kept := Prune(deque, now - WINDOW);
            && Tracks(admitted, kept, now)
            && forall i :: 0 <= i < |kept| ==> now - WINDOW <= kept[i] <= now
  {
    var n := PruneSplits(deque, now - WINDOW);
    var kept := deque[n..];
    var old_cut, cut := |admitted| - |deque|, |admitted| - |kept|;
    forall i | 0 <= i < cut ensures admitted[i] < now - WINDOW {
      if i >= old_cut {
        assert admitted[i] == deque[i - old_cut];
      }
    }
    forall i | 0 <= i < |kept| ensures now - WINDOW <= kept[i] <= now {
      assert kept[0] == deque[n] == admitted[cut];
      assert kept[i] == admitted[cut + i];
      OrderedAt(admitted, cut, cut + i);
    }
  }

  lemma CountIsKept(admitted: seq<int>, deque: seq<int>, last: int, now: int)
    requires Tracks(admitted, deque, last) && last <= now
    ensures |Prune(deque, now - WINDOW)| == CountWithin(admitted, now - WINDOW, now)
  {
    var kept := Prune(deque, now - WINDOW);
    KeptTracks(admitted, deque, last, now);
    var gone := admitted[..|admitted| - |kept|];
    CountNone(gone, now - WINDOW, now);
    CountAll(kept, now - WINDOW, now);
    CountConcat(gone, kept, now - WINDOW, now);
    assert admitted == gone + kept;
  }

  lemma TracksSnoc(admitted: seq<int>, kept: seq<int>, now: int)
    requires Tracks(admitted, kept, now)
    ensures Tracks(admitted + [now], kept + [now], now)
  {
    var all := admitted + [now];
    assert all[|admitted| - |kept|..] == admitted[|admitted| - |kept|..] + [now];
    assert all[..|all| - 1] == admitted;
  }

  lemma TracksAfterCall(admitted: seq<int>, deque: seq<int>, last: int, now: int)
    requires Tracks(admitted, deque, last) && last <= now
    ensures Tracks(if Admits(deque, now) then admitted + [now] else admitted, AfterCall(deque, now), now)
  {
    KeptTracks(admitted, deque, last, now);
    if Admits(deque, now) {
      TracksSnoc(admitted, Prune(deque, now - WINDOW), now);
    }
  }

  /** `now` is a clock value no earlier than any read so far. */
  ghost predicate NotBefore(clocks: seq<int>, now: int) {
    Ordered(clocks) && (clocks == [] || clocks[|clocks| - 1] <= now)
  }

  lemma InitNotBefore(clocks: seq<int>)
    requires Ordered(clocks) && clocks != []
    ensures NotBefore(clocks[..|clocks| - 1], clocks[|clocks| - 1])
  {
  }

  lemma TracksLater(admitted: seq<int>, deque: seq<int>, last: int, now: int)
    requires Tracks(admitted, deque, last) && last <= now
    ensures Tracks(admitted, deque, now)
  {
  }

  lemma {:induction false} DequeTracks(clocks: seq<int>, now: int)
    requires NotBefore(clocks, now)
    ensures Tracks(LetThrough(clocks), DequeAfter(clocks), now)
    decreases |clocks|
  {
    if clocks != [] {
      var init, last := clocks[..|clocks| - 1], clocks[|clocks| - 1];
      InitNotBefore(clocks);
      DequeTracks(init, last);
      TracksAfterCall(LetThrough(init), DequeAfter(init), last, last);
      TracksLater(LetThrough(clocks), DequeAfter(clocks), last, now);
    }
  }

  /** A call is let through if and only if fewer than 500 earlier admissions lie
  in the closed window that ends now. */
  lemma AdmittedIffBelowLimit(clocks: seq<int>, now: int)
    requires NotBefore(clocks, now)
    ensures Admits(DequeAfter(clocks), now) <==> CountWithin(LetThrough(clocks), now - WINDOW, now) < MAX_PUTS
  {
    DequeTracks(clocks, now);
    var admitted, deque := LetThrough(clocks), DequeAfter(clocks);
    CountIsKept(admitted, deque, now, now);
  }

  /** For ordered clocks the pruned deque lets through exactly the calls that the
  count over all earlier admissions would. */
  lemma {:induction false} DequeRefinesCount(clocks: seq<int>)
    requires Ordered(clocks)
    ensures LetThrough(clocks) == Admissions(clocks)
    decreases |clocks|
  {
    if clocks != [] {
      var init, now := clocks[..|clocks| - 1], clocks[|clocks| - 1];
      InitNotBefore(clocks);
      DequeRefinesCount(init);
      AdmittedIffBelowLimit(init, now);
    }
  }

  /** No closed 60-second interval ever holds more than 500 admissions. */
  lemma {:induction false} NeverTooMany(clocks: seq<int>, from: int)
    requires Ordered(clocks)
    ensures CountWithin(LetThrough(clocks), from, from + WINDOW) <= MAX_PUTS
    decreases |clocks|
  {
    if clocks != [] {
      var init, now := clocks[..|clocks| - 1], clocks[|clocks| - 1];
      InitNotBefore(clocks);
      NeverTooMany(init, from);
      if Admits(DequeAfter(init), now) {
        DequeTracks(init, now);
        AdmittedIffBelowLimit(init, now);
        OneMoreFits(LetThrough(init), now, from);
      }
    }
  }

  lemma OneMoreFits(before: seq<int>, now: int, from: int)
    requires forall i :: 0 <= i < |before| ==> before[i] <= now
    requires CountWithin(before, now - WINDOW, now) < MAX_PUTS
    requires CountWithin(before, from, from + WINDOW) <= MAX_PUTS
    ensures CountWithin(before + [now], from, from + WINDOW) <= MAX_PUTS
  {
    assert (before + [now])[..|before|] == before;
    if from <= now <= from + WINDOW {
      CountClamp(before, from, from + WINDOW, now);
      CountWider(before, from, now, now - WINDOW, now);
    }
  }

  lemma {:induction false} CountClamp(times: seq<int>, from: int, to: int, last: int)
    requires forall i :: 0 <= i < |times| ==> times[i] <= last
    requires last <= to
    ensures CountWithin(times, from, to) == CountWithin(times, from, last)
  {
    if times != [] {
      CountClamp(times[..|times| - 1], from, to, last);
    }
  }

  // ---------- why the clocks must be ordered ----------

  function Copies(t: int, n: nat): seq<int> {
    seq(n, _ => t)
  }

  lemma CopiesSnoc(t: int, n: nat)
    ensures Copies(t, n + 1) == Copies(t, n) + [t] && Copies(t, n + 1)[..n] == Copies(t, n)
  {
  }

  lemma KeepsAll(t: int, n: nat)
    ensures Prune(Copies(t, n), t - WINDOW) == Copies(t, n)
  {
  }

  lemma {:induction false} FillUp(t: int, n: nat)
    requires n <= MAX_PUTS
    ensures DequeAfter(Copies(t, n)) == Copies(t, n) == LetThrough(Copies(t, n))
    decreases n
  {
    if n > 0 {
      FillUp(t, n - 1);
      CopiesSnoc(t, n - 1);
      KeepsAll(t, n - 1);
    }
  }

  ghost function CountInWindow(times: seq<int>, from: int): nat {
    CountWithin(times, from, from + WINDOW)
  }

  /** Every closed 60-second interval holds at most 500 of the admissions. */
  ghost predicate Bounded(clocks: seq<int>) {
    forall from: int :: CountInWindow(LetThrough(clocks), from) <= MAX_PUTS
  }

  /** A call reads its clock before it waits for the lock, so a later call can
  bring an earlier time. For the limiter alone one such pair, however small the
  gap, is enough: 500 calls one window before the late one, then the pair; all are
  let through. (How often a server calls it is the matter of `DropTraffic`.) */
  lemma AnyInversionBreaks(a: int, b: int)
    requires b < a
    ensures var before := Copies(b - WINDOW, MAX_PUTS);
            && NotBefore(before, a)
            && LetThrough(before + [a, b]) == before + [a, b]
            && CountWithin(LetThrough(before + [a, b]), b - WINDOW, b) == MAX_PUTS + 1
  {
    var before := Copies(b - WINDOW, MAX_PUTS);
    FillUp(b - WINDOW, MAX_PUTS);
    CopiesOrdered(b - WINDOW, MAX_PUTS);
    var one, two := before + [a], before + [a, b];
    assert one[..|one| - 1] == before && two[..|two| - 1] == one;
    PruneAll(before, a - WINDOW);
    assert DequeAfter(one) == [a];
    assert one + [b] == two;
    CountAll(before, b - WINDOW, b);
    CountConcat(before, [a, b], b - WINDOW, b);
    CountPair(a, b, b - WINDOW, b);
  }

  lemma CountPair(a: int, b: int, from: int, to: int)
    ensures CountWithin([a, b], from, to) == (if from <= a <= to then 1 else 0) + (if from <= b <= to then 1 else 0)
  {
    assert [a, b][..1] == [a];
    assert CountWithin([a], from, to) == CountWithin([a][..0], from, to) + if from <= a <= to then 1 else 0;
  }

  lemma {:induction false} CopiesOrdered(t: int, n: nat)
    ensures Ordered(Copies(t, n))
    decreases n
  {
    if n > 0 {
      CopiesOrdered(t, n - 1);
      CopiesSnoc(t, n - 1);
    }
  }

  /** Exactly when two calls keep the limit after every ordered past: when the
  second does not bring an earlier time than the first. */
  lemma OrderIsNeeded(a: int, b: int)
    ensures (forall past :: NotBefore(past, a) ==> Bounded(past + [a, b])) <==> a <= b
  {
    if a <= b {
      forall past | NotBefore(past, a) ensures Bounded(past + [a, b]) {
        var one, two := past + [a], past + [a, b];
        assert one[..|one| - 1] == past && two[..|two| - 1] == one;
        forall from: int ensures CountInWindow(LetThrough(two), from) <= MAX_PUTS {
          NeverTooMany(two, from);
        }
      }
    } else {
      AnyInversionBreaks(a, b);
      var before := Copies(b - WINDOW, MAX_PUTS);
      assert CountInWindow(LetThrough(before + [a, b]), b - WINDOW) > MAX_PUTS;
    }
  }

  lemma {:induction false} PruneAll(times: seq<int>, cutoff: int)
    requires forall i :: 0 <= i < |times| ==> times[i] < cutoff
    ensures Prune(times, cutoff) == []
  {
    if times != [] {
      PruneAll(times[1..], cutoff);
    }
  }

  // ---------- the shared table ----------

  /** One deque per configured drop, behind one lock. */
  class PutTimes {
    var times: map<string, seq<int>>

    constructor (drops: set<string>)
      ensures times == map d | d in drops :: []
    {
      times := map d | d in drops :: [];
    }

    /** Prune, count, and record the admission. Other drops are untouched. */
    method AllowPut(drop: string, now: int) returns (ok: bool)
      modifies this
      ensures ok <==> drop in old(times) && Admits(old(times)[drop], now)
      ensures times == if drop in old(times) then old(times)[drop := AfterCall(old(times)[drop], now)] else old(times)
    {
      if drop !in times {
        return false;
      }
      var cutoff := now - WINDOW;
      var deque := times[drop];
      while deque != [] && deque[0] < cutoff
        invariant Prune(deque, cutoff) == Prune(times[drop], cutoff)
        decreases |deque|
      {
        deque := deque[1..];
      }
      if |deque| >= MAX_PUTS {
        times := times[drop := deque];
        return false;
      }
      times := times[drop := deque + [now]];
      ok := true;
    }
  }
}
