/** The in-memory sliding-window limiter, over a ghost log of all admissions, with the
    two-counter formula of the Redis limiter on that log as its reference. Times are
    integers (nanoseconds); the weighted count is computed without rounding. */
module RateLimiter {
  type Key = string

  datatype Entry = Entry(count: int, timestamp: int)

  /** One admitted request, with the limit that was asked for. */
  datatype Admission = Admission(key: Key, time: int, limit: int)

  // ---- The reference: counts on the log, and the formula ----

  function Truncate(t: int, window: int): int
    requires 0 < window
  {
    t - t % window
  }

  predicate InWindow(a: Admission, key: Key, start: int, window: int)
    requires 0 < window
  {
    a.key == key && Truncate(a.time, window) == start
  }

  /** How many requests of the key were admitted in the aligned window from start on. */
  function Admitted(log: seq<Admission>, key: Key, start: int, window: int): nat
    requires 0 < window
  {
    if log == [] then 0
    else
      Admitted(log[..|log| - 1], key, start, window) +
      if InWindow(log[|log| - 1], key, start, window) then 1 else 0
  }

  /** current + previous x (remaining fraction of the window), rounded down. */
  function Effective(current: int, previous: int, window: int, elapsed: int): int
    requires 0 < window
  {
    (current * window + previous * (window - elapsed)) / window
  }

  /** The check of the Redis limiter, on the counts that the log implies. */
  predicate RedisAdmits(log: seq<Admission>, key: Key, limit: int, now: int, window: int)
    requires 0 < window
  {
    var start := Truncate(now, window);
    Effective(Admitted(log, key, start, window), Admitted(log, key, start - window, window), window, now - start) < limit
  }

  // ---- The limiter ----

  /** Every admission so far passed the Redis check on the admissions before it. */
  ghost predicate EveryAdmissionPassed(log: seq<Admission>, window: int)
    requires 0 < window
  {
    forall i :: 0 <= i < |log| ==> RedisAdmits(log[..i], log[i].key, log[i].limit, log[i].time, window)
  }

  ghost predicate InOrder(log: seq<Admission>, clock: int) {
    && (forall i, j :: 0 <= i < j < |log| ==> log[i].time <= log[j].time)
    && (forall i :: 0 <= i < |log| ==> log[i].time <= clock)
  }

  /** No request of the key was admitted in an aligned window strictly between the two. */
  ghost predicate NoneBetween(log: seq<Admission>, key: Key, from: int, to: int, window: int)
    requires 0 < window
  {
    forall i :: 0 <= i < |log| && log[i].key == key ==>
                  var start := Truncate(log[i].time, window);
                  start <= from || to <= start
  }

  /** A stored entry holds the exact count of an aligned window. */
  ghost predicate Exact(log: seq<Admission>, key: Key, e: Entry, window: int)
    requires 0 < window
  {
    e.timestamp % window == 0 && e.count == Admitted(log, key, e.timestamp, window)
  }

  /** What the two maps know about one key. A missing entry means that whatever it
      counted is more than two windows old. */
  ghost predicate Tracks(windows: map<Key, Entry>, prev: map<Key, Entry>, log: seq<Admission>, clock: int, key: Key, window: int)
    requires 0 < window
  {
    if key in windows then
      var current := windows[key].timestamp;
      && Exact(log, key, windows[key], window) && current <= clock
      && NoneAfter(log, key, current, window)
      && if key in prev then
           && Exact(log, key, prev[key], window) && prev[key].timestamp < current
           && NoneBetween(log, key, prev[key].timestamp, current, window)
         else
           forall i :: 0 <= i < |log| && log[i].key == key && Truncate(log[i].time, window) < current ==>
                         Truncate(log[i].time, window) + 2 * window < clock
    else
      && key !in prev
      && forall i :: 0 <= i < |log| && log[i].key == key ==> Truncate(log[i].time, window) + 2 * window < clock
  }

  ghost predicate NoneAfter(log: seq<Admission>, key: Key, start: int, window: int)
    requires 0 < window
  {
    forall i :: 0 <= i < |log| && log[i].key == key ==> Truncate(log[i].time, window) <= start
  }

  // ---- What the operations do to the maps ----

  datatype Maps = Maps(windows: map<Key, Entry>, prev: map<Key, Entry>)

  /** A window that has passed becomes the previous one. */
  function Rotate(m: Maps, key: Key, start: int): Maps {
    if key in m.windows && m.windows[key].timestamp != start
    then Maps(m.windows[key := Entry(0, start)], m.prev[key := m.windows[key]])
    else m
  }

  function CurrentCount(m: Maps, key: Key, start: int): int {
    if key in m.windows && m.windows[key].timestamp == start then m.windows[key].count else 0
  }

  function PreviousCount(m: Maps, key: Key): int {
    if key in m.prev then m.prev[key].count else 0
  }

  /** What is taken for the previous window is an older one: the key stayed away in between. */
  predicate Stale(m: Maps, key: Key, start: int, window: int) {
    var prev := Rotate(m, key, start).prev;
    key in prev && prev[key].timestamp < start - window && 0 < prev[key].count
  }

  function Increment(m: Maps, key: Key, start: int): Maps {
    m.(windows := m.windows[key := Entry(CurrentCount(m, key, start) + 1, start)])
  }

  /** The entries that the clean-up leaves. */
  function Recent(entries: map<Key, Entry>, now: int, window: int): map<Key, Entry> {
    entries - set k | k in entries && now - entries[k].timestamp > 2 * window
  }

  /** The weighted count that Allow compares with the limit. */
  function Weighted(m: Maps, key: Key, now: int, window: int): int
    requires 0 < window
  {
    var start := Truncate(now, window);
    var r := Rotate(m, key, start);
    Effective(CurrentCount(r, key, start), PreviousCount(r, key), window, now - start)
  }

  function AllowMaps(m: Maps, key: Key, limit: int, now: int, window: int): Maps
    requires 0 < window
  {
    var start := Truncate(now, window);
    var r := Rotate(m, key, start);
    if Weighted(m, key, now, window) < limit then Increment(r, key, start) else r
  }

  function AllowLog(m: Maps, log: seq<Admission>, key: Key, limit: int, now: int, window: int): seq<Admission>
    requires 0 < window
  {
    if Weighted(m, key, now, window) < limit then log + [Admission(key, now, limit)] else log
  }

  /** The invariant of the limiter. */
  ghost predicate Sound(m: Maps, log: seq<Admission>, clock: int, window: int)
    requires 0 < window
  {
    && InOrder(log, clock) && EveryAdmissionPassed(log, window)
    && forall key :: Tracks(m.windows, m.prev, log, clock, key, window)
  }

  class InMemoryLimiter {
    const window: int
    var windows: map<Key, Entry>
    var prevWindows: map<Key, Entry>
    ghost var log: seq<Admission>
    ghost var clock: int

    ghost predicate Valid()
      reads this
    {
      0 < window && Sound(Maps(windows, prevWindows), log, clock, window)
    }

    constructor (window: int, now: int)
      requires 0 < window
      ensures Valid() && log == [] && clock == now && this.window == window
    {
      this.window := window;
      windows, prevWindows := map[], map[];
      log, clock := [], now;
    }

    /** Admits at most what the Redis check admits on the same log, and exactly that
        unless what it takes for the previous window is stale. */
    method Allow(key: Key, limit: int, now: int) returns (allowed: bool, remaining: int, retryAfter: int)
      requires Valid() && clock <= now
      modifies this
      ensures Valid() && clock == now
      ensures log == if allowed then old(log) + [Admission(key, now, limit)] else old(log)
      ensures allowed ==> RedisAdmits(old(log), key, limit, now, window)
      ensures old(!Stale(Maps(windows, prevWindows), key, Truncate(now, window), window)) ==>
                (allowed <==> RedisAdmits(old(log), key, limit, now, window))
      ensures !allowed ==> remaining == 0 && now + retryAfter == Truncate(now, window) + window
      ensures allowed ==> 0 <= remaining < limit && retryAfter == 0
      ensures old(!Stale(Maps(windows, prevWindows), key, Truncate(now, window), window)) && allowed ==>
                var start := Truncate(now, window);
                remaining == limit - 1 - Effective(Admitted(old(log), key, start, window),
                                                   Admitted(old(log), key, start - window, window), window, now - start)
      ensures Maps(windows, prevWindows) == old(AllowMaps(Maps(windows, prevWindows), key, limit, now, window))
    {
      AllowIsSound(Maps(windows, prevWindows), log, clock, key, limit, now, window);
      allowed, remaining, retryAfter := Count(key, limit, now);
    }

    /** The body of Allow, whatever the maps hold. */
    method Count(key: Key, limit: int, now: int) returns (allowed: bool, remaining: int, retryAfter: int)
      requires 0 < window
      modifies this
      ensures clock == now && log == old(AllowLog(Maps(windows, prevWindows), log, key, limit, now, window))
      ensures Maps(windows, prevWindows) == old(AllowMaps(Maps(windows, prevWindows), key, limit, now, window))
      ensures var effective := old(Weighted(Maps(windows, prevWindows), key, now, window));
              && allowed == (effective < limit)
              && remaining == (if allowed && effective + 1 < limit then limit - effective - 1 else 0)
              && retryAfter == if allowed then 0 else Truncate(now, window) + window - now
    {
      var currentWindow := Truncate(now, window);
      RotateWindows(key, currentWindow);
      clock := now;

      var currentCount := 0;
      if key in windows && windows[key].timestamp == currentWindow {
        currentCount := windows[key].count;
      }
      var previousCount := 0;
      if key in prevWindows {
        previousCount := prevWindows[key].count;
      }
      var effectiveCount := Effective(currentCount, previousCount, window, now - currentWindow);

      if effectiveCount >= limit {
        return false, 0, currentWindow + window - now;
      }
      if key in windows && windows[key].timestamp == currentWindow {
        windows := windows[key := windows[key].(count := windows[key].count + 1)];
      } else {
        windows := windows[key := Entry(1, currentWindow)];
      }
      log := log + [Admission(key, now, limit)];
      allowed, remaining, retryAfter := true, limit - effectiveCount - 1, 0;
      if remaining < 0 {
        remaining := 0;
      }
    }

    method RotateWindows(key: Key, currentWindow: int)
      modifies this`windows, this`prevWindows
      ensures Maps(windows, prevWindows) == Rotate(old(Maps(windows, prevWindows)), key, currentWindow)
    {
      if key in windows && windows[key].timestamp != currentWindow {
        prevWindows := prevWindows[key := windows[key]];
        windows := windows[key := Entry(0, currentWindow)];
      }
    }

    /** Forgetting old entries at any moment loses nothing that a later check needs. */
    method Cleanup(now: int)
      requires Valid() && clock <= now
      modifies this
      ensures Valid() && clock == now && log == old(log)
      ensures windows == Recent(old(windows), now, window) && prevWindows == Recent(old(prevWindows), now, window)
    {
      CleanupIsSound(Maps(windows, prevWindows), log, clock, now, window);
      windows := Expire(windows, now);
      prevWindows := Expire(prevWindows, now);
      clock := now;
    }

    method Expire(entries: map<Key, Entry>, now: int) returns (left: map<Key, Entry>)
      ensures left == Recent(entries, now, window)
    {
      left := entries;
      var keys := entries.Keys;
      while keys != {}
        invariant keys <= entries.Keys
        invariant left == entries - set k | k in entries && k !in keys && now - entries[k].timestamp > 2 * window
        decreases |keys|
      {
        var key :| key in keys;
        if now - entries[key].timestamp > 2 * window {
          left := left - {key};
        }
        keys := keys - {key};
      }
    }
  }

  // ---- Aligned windows ----

  lemma Less(p: int, q: int, window: int)
    requires 0 < window
    ensures p * window < q * window <==> p < q
    ensures p < q ==> p * window + window <= q * window
  {
    if p < q {
      Product(q - p - 1, window);
      assert (q - p - 1) * window == q * window - p * window - window;
    } else {
      Product(p - q, window);
      assert (p - q) * window == p * window - q * window;
    }
  }

  lemma Multiple(q: int, window: int)
    requires 0 < window
    ensures (q * window) % window == 0
  {
    var d, r := (q * window) / window, (q * window) % window;
    assert q * window == d * window + r;
    Less(d, q, window);
    Less(q, d, window);
  }

  lemma Aligned(t: int, window: int)
    requires 0 < window
    ensures Truncate(t, window) % window == 0
    ensures Truncate(t, window) <= t < Truncate(t, window) + window
  {
    assert t == t / window * window + t % window;
    Multiple(t / window, window);
  }

  /** Aligned starts are a window apart. */
  lemma AlignedGap(a: int, b: int, window: int)
    requires 0 < window && a % window == 0 && b % window == 0 && a < b
    ensures a + window <= b
  {
    var p, q := a / window, b / window;
    assert a == p * window by {
      assert a == p * window + a % window;
    }
    assert b == q * window by {
      assert b == q * window + b % window;
    }
    Less(p, q, window);
  }

  lemma AlignedBefore(a: int, t: int, window: int)
    requires 0 < window && a % window == 0 && a <= t
    ensures a <= Truncate(t, window)
  {
    Aligned(t, window);
    if Truncate(t, window) < a {
      AlignedGap(Truncate(t, window), a, window);
    }
  }

  // ---- The formula ----

  lemma EffectiveBelow(current: int, previous: int, window: int, elapsed: int, limit: int)
    requires 0 < window
    ensures Effective(current, previous, window, elapsed) < limit <==>
            current * window + previous * (window - elapsed) < limit * window
  {
    var x := current * window + previous * (window - elapsed);
    var q := x / window;
    assert x == q * window + x % window;
    Less(q, limit, window);
  }

  lemma EffectiveGrows(current: nat, less: nat, more: nat, window: int, elapsed: int)
    requires 0 < window && 0 <= elapsed < window && less <= more
    ensures 0 <= Effective(current, less, window, elapsed) <= Effective(current, more, window, elapsed)
  {
    var e := Effective(current, less, window, elapsed);
    EffectiveBelow(current, more, window, elapsed, e);
    EffectiveBelow(current, less, window, elapsed, e);
    EffectiveBelow(current, less, window, elapsed, 0);
    Product(less, window - elapsed);
    Product(more - less, window - elapsed);
    Product(current, window);
    assert less * (window - elapsed) + (more - less) * (window - elapsed) == more * (window - elapsed);
  }

  lemma Product(x: nat, y: nat)
    ensures 0 <= x * y
  {
  }

  lemma AtLeastTheReference(log: seq<Admission>, key: Key, limit: int, now: int, previous: int, window: int)
    requires 0 < window
    requires var start := Truncate(now, window); Admitted(log, key, start - window, window) <= previous
    ensures var start := Truncate(now, window);
            var effective := Effective(Admitted(log, key, start, window), previous, window, now - start);
            && 0 <= effective
            && (effective < limit ==> RedisAdmits(log, key, limit, now, window))
            && (previous == Admitted(log, key, start - window, window) ==>
                  (effective < limit <==> RedisAdmits(log, key, limit, now, window)))
  {
    var start := Truncate(now, window);
    Aligned(now, window);
    EffectiveGrows(Admitted(log, key, start, window), Admitted(log, key, start - window, window), previous, window, now - start);
  }

  // ---- The log ----

  lemma {:induction false} NoneAdmitted(log: seq<Admission>, key: Key, start: int, window: int)
    requires 0 < window && forall i :: 0 <= i < |log| ==> !InWindow(log[i], key, start, window)
    ensures Admitted(log, key, start, window) == 0
  {
    if log != [] {
      NoneAdmitted(log[..|log| - 1], key, start, window);
    }
  }

  lemma AdmittedGrows(log: seq<Admission>, a: Admission, key: Key, start: int, window: int)
    requires 0 < window
    ensures Admitted(log + [a], key, start, window) ==
            Admitted(log, key, start, window) + if InWindow(a, key, start, window) then 1 else 0
  {
    assert (log + [a])[..|log|] == log;
  }

  lemma PassedGrows(log: seq<Admission>, a: Admission, window: int)
    requires 0 < window && EveryAdmissionPassed(log, window)
    requires RedisAdmits(log, a.key, a.limit, a.time, window)
    ensures EveryAdmissionPassed(log + [a], window)
  {
    forall i | 0 <= i < |log + [a]|
      ensures RedisAdmits((log + [a])[..i], (log + [a])[i].key, (log + [a])[i].limit, (log + [a])[i].time, window)
    {
      assert (log + [a])[..i] == log[..i];
      assert log[..|log|] == log;
    }
  }

  // ---- The invariant ----

  lemma RotationKeepsTracks(m: Maps, log: seq<Admission>, clock: int, key: Key, now: int, k: Key, window: int)
    requires 0 < window && clock <= now && Tracks(m.windows, m.prev, log, clock, k, window)
    ensures var r := Rotate(m, key, Truncate(now, window)); Tracks(r.windows, r.prev, log, now, k, window)
  {
    Aligned(now, window);
    if k == key && k in m.windows && m.windows[k].timestamp != Truncate(now, window) {
      AlignedBefore(m.windows[k].timestamp, now, window);
      NoneAdmitted(log, k, Truncate(now, window), window);
    }
  }

  /** After the rotation the current count is exact; the previous count is at least the
      true one, and equal to it exactly when it is not stale. */
  lemma StoredCounts(m: Maps, log: seq<Admission>, clock: int, key: Key, now: int, window: int)
    requires 0 < window && clock <= now && Tracks(m.windows, m.prev, log, clock, key, window)
    ensures var start := Truncate(now, window);
            var r := Rotate(m, key, start);
            && CurrentCount(r, key, start) == Admitted(log, key, start, window)
            && PreviousCount(r, key) >= Admitted(log, key, start - window, window)
            && (PreviousCount(r, key) == Admitted(log, key, start - window, window) <==> !Stale(m, key, start, window))
  {
    var start := Truncate(now, window);
    var r := Rotate(m, key, start);
    RotationKeepsTracks(m, log, clock, key, now, key, window);
    Aligned(now, window);
    if key !in r.windows {
      NoneAdmitted(log, key, start, window);
      NoneAdmitted(log, key, start - window, window);
    } else if key !in r.prev {
      NoneAdmitted(log, key, start - window, window);
    } else {
      AlignedGap(r.prev[key].timestamp, start, window);
      if r.prev[key].timestamp < start - window {
        NoneAdmitted(log, key, start - window, window);
      }
    }
  }

  /** A stale count does tip the scale: limit 1, one request admitted, and the next at the start of a
      window that is two or more windows later (such as 5 and 40 with windows of 10). The window of
      the first is taken for the one before, and the second is refused. */
  lemma StaleCountRefuses(key: Key, first: int, next: int, window: int)
    requires 0 < window && next % window == 0 && first - first % window <= next - 2 * window
    ensures var start := Maps(map[], map[]);
            var m := AllowMaps(start, key, 1, first, window);
            var log := AllowLog(start, [], key, 1, first, window);
            && log == [Admission(key, first, 1)]
            && Stale(m, key, next, window)
            && !(Weighted(m, key, next, window) < 1)
            && RedisAdmits(log, key, 1, next, window)
  {
    var start := Maps(map[], map[]);
    var m := AllowMaps(start, key, 1, first, window);
    assert Weighted(start, key, first, window) == 0;
    assert m == Maps(map[key := Entry(1, Truncate(first, window))], map[]);
    assert AllowLog(start, [], key, 1, first, window) == [] + [Admission(key, first, 1)];
    assert Rotate(m, key, next).prev[key] == Entry(1, Truncate(first, window));
    assert Effective(0, 1, window, 0) == 1;
    AdmittedGrows([], Admission(key, first, 1), key, next, window);
    AdmittedGrows([], Admission(key, first, 1), key, next - window, window);
  }

  lemma AdmissionKeepsTracks(m: Maps, log: seq<Admission>, key: Key, limit: int, now: int, k: Key, window: int)
    requires 0 < window && Tracks(m.windows, m.prev, log, now, k, window)
    requires key in m.windows ==> m.windows[key].timestamp == Truncate(now, window)
    ensures var r := Increment(m, key, Truncate(now, window));
            Tracks(r.windows, r.prev, log + [Admission(key, now, limit)], now, k, window)
  {
    var a := Admission(key, now, limit);
    var start := Truncate(now, window);
    Aligned(now, window);
    if k in m.windows {
      AdmittedGrows(log, a, k, m.windows[k].timestamp, window);
    } else if k == key {
      NoneAdmitted(log, k, start, window);
      AdmittedGrows(log, a, k, start, window);
    }
    if k in m.prev {
      AdmittedGrows(log, a, k, m.prev[k].timestamp, window);
    }
  }

  lemma CleanupKeepsTracks(windows: map<Key, Entry>, prev: map<Key, Entry>, log: seq<Admission>, clock: int, now: int, k: Key, window: int)
    requires 0 < window && clock <= now && Tracks(windows, prev, log, clock, k, window)
    ensures Tracks(Recent(windows, now, window), Recent(prev, now, window), log, now, k, window)
  {
  }

  /** Allow keeps the invariant, never admits what the Redis check would refuse, and
      decides as the Redis check does exactly when no stale count tips the scale. */
  lemma AllowIsSound(m: Maps, log: seq<Admission>, clock: int, key: Key, limit: int, now: int, window: int)
    requires 0 < window && clock <= now && Sound(m, log, clock, window)
    ensures Sound(AllowMaps(m, key, limit, now, window), AllowLog(m, log, key, limit, now, window), now, window)
    ensures 0 <= Weighted(m, key, now, window)
    ensures Weighted(m, key, now, window) < limit ==> RedisAdmits(log, key, limit, now, window)
    ensures !Stale(m, key, Truncate(now, window), window) ==>
              && (Weighted(m, key, now, window) < limit <==> RedisAdmits(log, key, limit, now, window))
              && var start := Truncate(now, window);
              Weighted(m, key, now, window) == Effective(Admitted(log, key, start, window),
                                                         Admitted(log, key, start - window, window), window, now - start)
  {
    var start := Truncate(now, window);
    var r := Rotate(m, key, start);
    assert Tracks(m.windows, m.prev, log, clock, key, window);
    StoredCounts(m, log, clock, key, now, window);
    AtLeastTheReference(log, key, limit, now, PreviousCount(r, key), window);
    forall k ensures Tracks(r.windows, r.prev, log, now, k, window) {
      RotationKeepsTracks(m, log, clock, key, now, k, window);
    }
    if Weighted(m, key, now, window) < limit {
      PassedGrows(log, Admission(key, now, limit), window);
      var i := Increment(r, key, start);
      forall k ensures Tracks(i.windows, i.prev, log + [Admission(key, now, limit)], now, k, window) {
        AdmissionKeepsTracks(r, log, key, limit, now, k, window);
      }
    }
  }

  /** On any maps: a request is admitted exactly when the count of its window, and the one before weighted by
      what remains of it, stay below the limit. The window before is the one the key was last counted in,
      if that is not the current one. Whatever the answer, that window becomes the previous one; only an
      admission is counted, and other keys keep their entries. */
  lemma AllowsExactlyWhen(m: Maps, log: seq<Admission>, key: Key, limit: int, now: int, window: int)
    requires 0 < window
    ensures var start := now - now % window;
            var kept := key in m.windows && m.windows[key].timestamp == start;
            var moved := key in m.windows && !kept;
            var current := if kept then m.windows[key].count else 0;
            var previous := if moved then m.windows[key].count else if key in m.prev then m.prev[key].count else 0;
            var admitted := current * window + previous * (start + window - now) < limit * window;
            var after := AllowMaps(m, key, limit, now, window);
            && (Weighted(m, key, now, window) < limit <==> admitted)
            && AllowLog(m, log, key, limit, now, window) == (if admitted then log + [Admission(key, now, limit)] else log)
            && (admitted ==> key in after.windows && after.windows[key] == Entry(current + 1, start))
            && (!admitted ==> (key in after.windows <==> key in m.windows))
            && (!admitted && key in m.windows ==> after.windows[key] == Entry(current, start))
            && (moved ==> key in after.prev && after.prev[key] == m.windows[key])
            && (!moved ==> after.prev == m.prev)
            && forall k | k != key ::
                 && (k in after.windows <==> k in m.windows) && (k in m.windows ==> after.windows[k] == m.windows[k])
                 && (k in after.prev <==> k in m.prev) && (k in m.prev ==> after.prev[k] == m.prev[k])
  {
    var start := Truncate(now, window);
    var r := Rotate(m, key, start);
    EffectiveBelow(CurrentCount(r, key, start), PreviousCount(r, key), window, now - start, limit);
  }

  /** The clean-up forgets exactly what is older than two windows. */
  lemma KeepsExactlyRecent(entries: map<Key, Entry>, now: int, window: int, key: Key)
    ensures key in Recent(entries, now, window) <==> key in entries && now <= entries[key].timestamp + 2 * window
    ensures key in Recent(entries, now, window) ==> Recent(entries, now, window)[key] == entries[key]
  {
  }

  lemma CleanupIsSound(m: Maps, log: seq<Admission>, clock: int, now: int, window: int)
    requires 0 < window && clock <= now && Sound(m, log, clock, window)
    ensures Sound(Maps(Recent(m.windows, now, window), Recent(m.prev, now, window)), log, now, window)
  {
    forall k ensures Tracks(Recent(m.windows, now, window), Recent(m.prev, now, window), log, now, k, window) {
      CleanupKeepsTracks(m.windows, m.prev, log, clock, now, k, window);
    }
  }

  // ---- How much the log can hold ----

  ghost predicate LimitedTo(log: seq<Admission>, key: Key, limit: int) {
    forall i :: 0 <= i < |log| && log[i].key == key ==> log[i].limit <= limit
  }

  /** Each admission, the c-th of its window after p in the window before, at e into its
      window, satisfies (c - 1) W + p (W - e) < limit W. */
  lemma AdmissionBound(log: seq<Admission>, i: int, window: int)
    requires 0 < window && EveryAdmissionPassed(log, window) && 0 <= i < |log|
    ensures var a := log[i];
            var start := Truncate(a.time, window);
            var c := Admitted(log[..i + 1], a.key, start, window);
            var p := Admitted(log[..i], a.key, start - window, window);
            && p == Admitted(log[..i + 1], a.key, start - window, window)
            && (c - 1) * window + p * (window - (a.time - start)) < a.limit * window
  {
    var a := log[i];
    var start := Truncate(a.time, window);
    assert log[..i + 1] == log[..i] + [a];
    AdmittedGrows(log[..i], a, a.key, start, window);
    AdmittedGrows(log[..i], a, a.key, start - window, window);
    EffectiveBelow(Admitted(log[..i], a.key, start, window), Admitted(log[..i], a.key, start - window, window),
                   window, a.time - start, a.limit);
  }

  lemma CountBelow(c: int, p: nat, window: int, elapsed: int, limit: int)
    requires 0 < window && 0 <= elapsed < window
    requires (c - 1) * window + p * (window - elapsed) < limit * window
    ensures c <= limit
  {
    Product(p, window - elapsed);
    Less(c - 1, limit, window);
  }

  lemma PassedSoFar(log: seq<Admission>, n: nat, window: int)
    requires 0 < window && EveryAdmissionPassed(log, window) && n <= |log|
    ensures EveryAdmissionPassed(log[..n], window)
  {
    forall i | 0 <= i < n
      ensures RedisAdmits(log[..n][..i], log[..n][i].key, log[..n][i].limit, log[..n][i].time, window)
    {
      assert log[..n][..i] == log[..i];
    }
  }

  /** No aligned window admits more than the limit. */
  lemma {:induction false} AlignedWindowBound(log: seq<Admission>, key: Key, start: int, limit: nat, window: int)
    requires 0 < window && EveryAdmissionPassed(log, window) && LimitedTo(log, key, limit)
    ensures Admitted(log, key, start, window) <= limit
  {
    if log != [] {
      var n := |log| - 1;
      var a := log[n];
      if InWindow(a, key, start, window) {
        AdmissionBound(log, n, window);
        Aligned(a.time, window);
        assert log[..n + 1] == log;
        CountBelow(Admitted(log, key, start, window), Admitted(log[..n], key, start - window, window),
                   window, a.time - start, a.limit);
      } else {
        PassedSoFar(log, n, window);
        AlignedWindowBound(log[..n], key, start, limit, window);
      }
    }
  }

  /** How many requests of the key were admitted after from and not after to. */
  function InSpan(log: seq<Admission>, key: Key, from: int, to: int): nat {
    if log == [] then 0
    else
      InSpan(log[..|log| - 1], key, from, to) +
      if log[|log| - 1].key == key && from < log[|log| - 1].time <= to then 1 else 0
  }

  lemma OneOfTwoWindows(t: int, to: int, window: int)
    requires 0 < window && to - window < t <= to
    ensures Truncate(t, window) == Truncate(to, window) || Truncate(t, window) == Truncate(to, window) - window
  {
    var a, b := Truncate(t, window), Truncate(to, window);
    Aligned(t, window);
    Aligned(to, window);
    AlignedBefore(a, to, window);
    if a < b {
      AlignedGap(a, b, window);
      if a + window < b {
        StepBack(b, window);
        AlignedGap(a, b - window, window);
      }
    }
  }

  lemma StepBack(a: int, window: int)
    requires 0 < window && a % window == 0
    ensures (a - window) % window == 0
  {
    assert a == a / window * window + a % window;
    Multiple(a / window - 1, window);
  }

  lemma {:induction false} SpanIsCovered(log: seq<Admission>, key: Key, to: int, window: int)
    requires 0 < window
    ensures InSpan(log, key, to - window, to) <=
            Admitted(log, key, Truncate(to, window), window) + Admitted(log, key, Truncate(to, window) - window, window)
  {
    if log != [] {
      var n := |log| - 1;
      SpanIsCovered(log[..n], key, to, window);
      var t := log[n].time;
      if to - window < t <= to {
        OneOfTwoWindows(t, to, window);
      }
    }
  }

  /** Any span of one window's length that ends with an admission, at e into its window and
      with p admitted in the window before, holds fewer than limit + 1 + p e / W admissions,
      and never more than twice the limit. */
  lemma SpanBound(log: seq<Admission>, i: int, limit: nat, window: int)
    requires 0 < window && EveryAdmissionPassed(log, window) && 0 <= i < |log| && LimitedTo(log, log[i].key, limit)
    ensures var (key, t) := (log[i].key, log[i].time);
            var start := Truncate(t, window);
            var n := InSpan(log[..i + 1], key, t - window, t);
            && n * window < (limit + 1) * window + Admitted(log[..i + 1], key, start - window, window) * (t - start)
            && n <= 2 * limit
  {
    var (key, t) := (log[i].key, log[i].time);
    var start, upTo := Truncate(t, window), log[..i + 1];
    var c, p := Admitted(upTo, key, start, window), Admitted(upTo, key, start - window, window);
    var n := InSpan(upTo, key, t - window, t);
    hide Admitted, InSpan;
    AdmissionBound(log, i, window);
    SpanIsCovered(upTo, key, t, window);
    PassedSoFar(log, i + 1, window);
    AlignedWindowBound(upTo, key, start, limit, window);
    AlignedWindowBound(upTo, key, start - window, limit, window);
    SpanArithmetic(n, c, p, log[i].limit, limit, window, t - start);
  }

  lemma SpanArithmetic(n: int, c: int, p: int, asked: int, limit: int, window: int, elapsed: int)
    requires 0 < window && n <= c + p && asked <= limit
    requires (c - 1) * window + p * (window - elapsed) < asked * window
    ensures n * window < (limit + 1) * window + p * elapsed
  {
    assert n * window <= (c + p) * window;
    assert asked * window <= limit * window;
    assert p * (window - elapsed) == p * window - p * elapsed;
  }

  lemma InSpanGrows(log: seq<Admission>, a: Admission, key: Key, from: int, to: int)
    ensures InSpan(log + [a], key, from, to) ==
            InSpan(log, key, from, to) + if a.key == key && from < a.time <= to then 1 else 0
  {
    assert (log + [a])[..|log|] == log;
  }

  lemma ThreePass(a: Admission, b: Admission, c: Admission)
    requires (a.time, b.time, c.time) == (8, 9, 15) && a.key == b.key == c.key && a.limit == b.limit == c.limit == 2
    ensures EveryAdmissionPassed([a, b, c], 10)
  {
    assert [a, b, c] == [a, b] + [c] && [a, b] == [a] + [b] && [a] == [] + [a];
    AdmittedGrows([], a, a.key, 0, 10);
    AdmittedGrows([a], b, a.key, 0, 10);
    AdmittedGrows([], a, a.key, 10, 10);
    AdmittedGrows([a], b, a.key, 10, 10);
    PassedGrows([], a, 10);
    PassedGrows([a], b, 10);
    PassedGrows([a, b], c, 10);
  }

  lemma ThreeInSpan(a: Admission, b: Admission, c: Admission, from: int, to: int)
    requires a.key == b.key == c.key && from < a.time <= to && from < b.time <= to && from < c.time <= to
    ensures InSpan([a, b, c], a.key, from, to) == 3
  {
    assert [a, b, c] == [a, b] + [c] && [a, b] == [a] + [b] && [a] == [] + [a];
    InSpanGrows([], a, a.key, from, to);
    InSpanGrows([a], b, a.key, from, to);
    InSpanGrows([a, b], c, a.key, from, to);
  }

  /** The bound for spans cannot be the limit itself: with limit 2 and windows of 10, three
      requests within 7 are admitted. */
  lemma SpanCanExceedLimit(key: Key)
    ensures var log := [Admission(key, 8, 2), Admission(key, 9, 2), Admission(key, 15, 2)];
            EveryAdmissionPassed(log, 10) && InOrder(log, 15) && LimitedTo(log, key, 2) && InSpan(log, key, 5, 15) == 3
  {
    var a, b, c := Admission(key, 8, 2), Admission(key, 9, 2), Admission(key, 15, 2);
    ThreePass(a, b, c);
    ThreeInSpan(a, b, c, 5, 15);
  }
}
