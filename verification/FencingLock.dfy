/** The distributed lock on one key: a counter for fencing tokens, and an entry that
    expires. An acquisition is three steps (INCR, reading the clock, SET NX) between
    which other clients act; all times are on one clock, in milliseconds. */
module FencingLock {
  import opened Optional

  type Owner = int
  type AttemptId = int

  datatype Entry = Entry(owner: Owner, token: int, expires: int)

  datatype Lock = Lock(owner: Owner, token: int, ttl: int, acquiredAt: int)

  /** An acquisition under way. */
  datatype Attempt = Drawn(owner: Owner, token: int, ttl: int)
                   | Stamped(owner: Owner, token: int, ttl: int, at: int)

  datatype Reply = Done | OwnershipMismatch | NotHeld

  const DEFAULT_TTL := 5000

  function Ttl(configured: nat): (ttl: int)
    ensures 0 < ttl && (configured == 0 ==> ttl == 5000) && (configured > 0 ==> ttl == configured)
  {
    if configured == 0 then DEFAULT_TTL else configured
  }

  // ---- The commands and scripts ----

  datatype Store = Store(counter: int, entry: Option<Entry>)

  predicate Live(r: Store, now: int) {
    r.entry.Some? && now < r.entry.value.expires
  }

  predicate Owns(r: Store, lock: Lock, now: int) {
    Live(r, now) && r.entry.value.owner == lock.owner && r.entry.value.token == lock.token
  }

  function SetNX(r: Store, a: Attempt, now: int): Store {
    if Live(r, now) then r else r.(entry := Some(Entry(a.owner, a.token, now + a.ttl)))
  }

  function Release(r: Store, lock: Lock, now: int): Store {
    if Owns(r, lock, now) then r.(entry := None) else r
  }

  function Extend(r: Store, lock: Lock, now: int): Store {
    if Owns(r, lock, now) then r.(entry := Some(r.entry.value.(expires := now + lock.ttl))) else r
  }

  function ReplyTo(r: Store, lock: Lock, now: int): Reply {
    if !Live(r, now) then NotHeld else if Owns(r, lock, now) then Done else OwnershipMismatch
  }

  class RedisLockManager {
    var counter: int
    var entry: Option<Entry>

    function View(): Store
      reads this
    {
      Store(counter, entry)
    }

    constructor ()
      ensures View() == Store(0, None)
    {
      counter, entry := 0, None;
    }

    method DrawToken() returns (token: int)
      modifies this
      ensures token == old(counter) + 1 && View() == old(View()).(counter := token)
    {
      counter := counter + 1;
      token := counter;
    }

    method TrySet(a: Attempt, now: int) returns (lock: Option<Lock>)
      requires a.Stamped?
      modifies this
      ensures View() == SetNX(old(View()), a, now)
      ensures lock == if old(Live(View(), now)) then None else Some(Lock(a.owner, a.token, a.ttl, a.at))
    {
      if entry.Some? && now < entry.value.expires {
        return None;
      }
      entry := Some(Entry(a.owner, a.token, now + a.ttl));
      lock := Some(Lock(a.owner, a.token, a.ttl, a.at));
    }

    method ReleaseLock(lock: Lock, now: int) returns (reply: Reply)
      modifies this
      ensures View() == Release(old(View()), lock, now) && reply == ReplyTo(old(View()), lock, now)
    {
      if entry.None? || entry.value.expires <= now {
        return NotHeld;
      }
      if entry.value.owner == lock.owner && entry.value.token == lock.token {
        entry := None;
        return Done;
      }
      return OwnershipMismatch;
    }

    method ExtendLock(lock: Lock, now: int) returns (reply: Reply)
      modifies this
      ensures View() == Extend(old(View()), lock, now) && reply == ReplyTo(old(View()), lock, now)
    {
      if entry.None? || entry.value.expires <= now {
        return NotHeld;
      }
      if entry.value.owner == lock.owner && entry.value.token == lock.token {
        entry := Some(entry.value.(expires := now + lock.ttl));
        return Done;
      }
      return OwnershipMismatch;
    }
  }

  // ---- What each command does ----

  /** SET NX takes the key exactly when nobody has it, and then for exactly the time to live. */
  lemma SetsExactly(r: Store, a: Attempt, now: int, later: int)
    ensures var after := SetNX(r, a, now);
            && after.counter == r.counter
            && (Live(r, now) ==> after == r)
            && (!Live(r, now) ==>
                  && after.entry.Some? && after.entry.value.owner == a.owner && after.entry.value.token == a.token
                  && (Live(after, later) <==> later < now + a.ttl))
  {
  }

  /** The reply to a release or an extension says how the lock and the entry of the key compare. */
  lemma RepliesExactly(r: Store, lock: Lock, now: int)
    ensures var reply := ReplyTo(r, lock, now);
            && (reply == NotHeld <==> !Live(r, now))
            && (reply == Done <==> Live(r, now) && (r.entry.value.owner, r.entry.value.token) == (lock.owner, lock.token))
            && (reply == OwnershipMismatch <==> Live(r, now) && (r.entry.value.owner, r.entry.value.token) != (lock.owner, lock.token))
  {
  }

  /** A release that is answered with Done frees the key, an extension so answered makes it last the lock's time
      to live from now on; answered with anything else, they change nothing. */
  lemma ReleasesAndExtendsExactly(r: Store, lock: Lock, now: int, later: int)
    ensures var (released, extended) := (Release(r, lock, now), Extend(r, lock, now));
            && released.counter == r.counter && extended.counter == r.counter
            && (ReplyTo(r, lock, now) == Done ==>
                  && !Live(released, later)
                  && (Live(extended, later) <==> later < now + lock.ttl)
                  && extended.entry.Some? && (extended.entry.value.owner, extended.entry.value.token) == (lock.owner, lock.token))
            && (ReplyTo(r, lock, now) != Done ==> released == r && extended == r)
  {
  }

  // ---- Any number of clients ----

  /** granted lists the locks that clients received, in the order of their SET NX;
      released the tokens whose entry a release deleted. */
  datatype Sys = Sys(store: Store, clock: int, attempts: map<AttemptId, Attempt>, granted: seq<Lock>, released: set<int>)

  datatype Step = Incr(id: AttemptId, owner: Owner, ttl: nat, now: int)
                | Stamp(id: AttemptId, now: int)
                | Set(id: AttemptId, replied: bool, now: int)
                | Unlock(held: nat, now: int)
                | Prolong(held: nat, now: int)

  predicate Enabled(s: Sys, step: Step) {
    && s.clock <= step.now
    && match step
       case Incr(id, _, _, _) => id !in s.attempts
       case Stamp(id, _) => id in s.attempts && s.attempts[id].Drawn?
       case Set(id, _, _) => id in s.attempts && s.attempts[id].Stamped?
       case Unlock(held, _) => held < |s.granted|
       case Prolong(held, _) => held < |s.granted|
  }

  function Next(s: Sys, step: Step): Sys
    requires Enabled(s, step)
  {
    var t := s.(clock := step.now);
    match step
    case Incr(id, owner, ttl, _) =>
      var token := s.store.counter + 1;
      t.(store := s.store.(counter := token), attempts := s.attempts[id := Drawn(owner, token, Ttl(ttl))])
    case Stamp(id, now) =>
      var a := s.attempts[id];
      t.(attempts := s.attempts[id := Stamped(a.owner, a.token, a.ttl, now)])
    case Set(id, replied, now) =>
      var a := s.attempts[id];
      var got := replied && !Live(s.store, now);
      t.(store := SetNX(s.store, a, now), attempts := s.attempts - {id},
      granted := if got then s.granted + [Lock(a.owner, a.token, a.ttl, a.at)] else s.granted)
    case Unlock(held, now) =>
      var lock := s.granted[held];
      t.(store := Release(s.store, lock, now),
      released := if Owns(s.store, lock, now) then s.released + {lock.token} else s.released)
    case Prolong(held, now) =>
      t.(store := Extend(s.store, s.granted[held], now))
  }

  predicate Runs(s: Sys, steps: seq<Step>)
    decreases |steps|
  {
    steps == [] || (Enabled(s, steps[0]) && Runs(Next(s, steps[0]), steps[1..]))
  }

  function Run(s: Sys, steps: seq<Step>): Sys
    requires Runs(s, steps)
    decreases |steps|
  {
    if steps == [] then s else Run(Next(s, steps[0]), steps[1..])
  }

  function Start(now: int): Sys {
    Sys(Store(0, None), now, map[], [], {})
  }

  /** The client may still believe to hold its lock: not released, and within the TTL. */
  predicate Held(s: Sys, i: nat)
    requires i < |s.granted|
  {
    var lock := s.granted[i];
    lock.token !in s.released && s.clock < lock.acquiredAt + lock.ttl
  }

  /** The tokens drawn so far, wherever they are now, are all different. */
  ghost predicate TokensApart(s: Sys) {
    && (forall i, j :: 0 <= i < j < |s.granted| ==> s.granted[i].token != s.granted[j].token)
    && (forall a, b | a in s.attempts && b in s.attempts :: s.attempts[a].token == s.attempts[b].token ==> a == b)
    && (forall i, a :: 0 <= i < |s.granted| && a in s.attempts ==> s.granted[i].token != s.attempts[a].token)
    && (s.store.entry.Some? ==> forall a | a in s.attempts :: s.attempts[a].token != s.store.entry.value.token)
  }

  ghost predicate TokensDrawn(s: Sys) {
    && (forall i :: 0 <= i < |s.granted| ==> s.granted[i].token <= s.store.counter)
    && (forall a | a in s.attempts :: s.attempts[a].token <= s.store.counter)
    && (s.store.entry.Some? ==> s.store.entry.value.token <= s.store.counter)
    && (forall t | t in s.released :: t <= s.store.counter && forall a | a in s.attempts :: s.attempts[a].token != t)
  }

  /** A lock that is still held is the one in the store, for at least as long. */
  predicate Backed(s: Sys, i: nat)
    requires i < |s.granted|
  {
    var lock := s.granted[i];
    Held(s, i) ==> Owns(s.store, lock, s.clock) && lock.acquiredAt + lock.ttl <= s.store.entry.value.expires
  }

  ghost predicate Invariant(s: Sys) {
    && TokensApart(s) && TokensDrawn(s)
    && (forall i :: 0 <= i < |s.granted| ==> Backed(s, i))
    && (forall i :: 0 <= i < |s.granted| ==> s.granted[i].acquiredAt <= s.clock)
    && (forall a | a in s.attempts && s.attempts[a].Stamped? :: s.attempts[a].at <= s.clock)
  }

  lemma StepKeepsTokensApart(s: Sys, step: Step)
    requires TokensApart(s) && TokensDrawn(s) && Enabled(s, step)
    ensures TokensApart(Next(s, step))
  {
  }

  lemma StepKeepsTokensDrawn(s: Sys, step: Step)
    requires TokensApart(s) && TokensDrawn(s) && Enabled(s, step)
    ensures TokensDrawn(Next(s, step))
  {
  }

  lemma StepKeepsInvariant(s: Sys, step: Step)
    requires Invariant(s) && Enabled(s, step)
    ensures Invariant(Next(s, step))
  {
    var t := Next(s, step);
    StepKeepsTokensApart(s, step);
    StepKeepsTokensDrawn(s, step);
    forall i | 0 <= i < |t.granted| ensures Backed(t, i) {
      StepKeepsBacked(s, step, i);
    }
  }

  lemma StepKeepsBacked(s: Sys, step: Step, i: nat)
    requires Invariant(s) && Enabled(s, step) && i < |Next(s, step).granted|
    ensures Backed(Next(s, step), i)
  {
    if i < |s.granted| {
      assert Backed(s, i);
    }
  }

  lemma {:induction false} RunKeepsInvariant(s: Sys, steps: seq<Step>)
    requires Invariant(s) && Runs(s, steps)
    ensures Invariant(Run(s, steps))
    decreases |steps|
  {
    if steps != [] {
      StepKeepsInvariant(s, steps[0]);
      RunKeepsInvariant(Next(s, steps[0]), steps[1..]);
    }
  }

  // ---- The main results ----

  /** No two locks are held at the same time, in any run of any number of clients, with
      replies lost and holders extending or releasing when they like. */
  lemma MutualExclusion(now: int, steps: seq<Step>, i: nat, j: nat)
    requires Runs(Start(now), steps)
    requires var s := Run(Start(now), steps); i < |s.granted| && j < |s.granted| && Held(s, i) && Held(s, j)
    ensures i == j
  {
    RunKeepsInvariant(Start(now), steps);
    var s := Run(Start(now), steps);
    assert Backed(s, i) && Backed(s, j);
  }

  /** No two locks ever granted share a token. */
  lemma TokensAreUnique(now: int, steps: seq<Step>, i: nat, j: nat)
    requires Runs(Start(now), steps)
    requires var s := Run(Start(now), steps); i < |s.granted| && j < |s.granted| && s.granted[i].token == s.granted[j].token
    ensures i == j
  {
    RunKeepsInvariant(Start(now), steps);
  }

  lemma {:induction false} RunAppend(s: Sys, steps: seq<Step>, step: Step)
    requires Runs(s, steps) && Enabled(Run(s, steps), step)
    ensures Runs(s, steps + [step]) && Run(s, steps + [step]) == Next(Run(s, steps), step)
    decreases |steps|
  {
    if steps == [] {
      assert [step][1..] == [];
      assert Runs(Next(s, step), []);
      assert steps + [step] == [step];
    } else {
      assert (steps + [step])[0] == steps[0] && (steps + [step])[1..] == steps[1..] + [step];
      RunAppend(Next(s, steps[0]), steps[1..], step);
    }
  }

  /** Until its SET NX an attempt keeps the token it drew; locks granted stay as they are. */
  lemma {:induction false} AttemptKeepsToken(s: Sys, steps: seq<Step>, id: AttemptId)
    requires Runs(s, steps) && id in s.attempts
    requires forall k :: 0 <= k < |steps| ==> !(steps[k].Set? && steps[k].id == id)
    ensures var t := Run(s, steps);
            && id in t.attempts && t.attempts[id].token == s.attempts[id].token
            && s.granted <= t.granted
    decreases |steps|
  {
    if steps != [] {
      AttemptKeepsToken(Next(s, steps[0]), steps[1..], id);
    }
  }

  /** An attempt whose INCR follows a grant gets a larger token than that grant had,
      however long it takes and whatever happens in between. */
  lemma LaterDrawsAreLarger(s: Sys, draw: Step, between: seq<Step>, grab: Step, i: nat)
    requires Invariant(s) && i < |s.granted|
    requires draw.Incr? && Enabled(s, draw) && Runs(Next(s, draw), between) && Enabled(Run(Next(s, draw), between), grab)
    requires grab.Set? && grab.id == draw.id
    requires forall k :: 0 <= k < |between| ==> !(between[k].Set? && between[k].id == draw.id)
    ensures var t := Run(Next(s, draw), between);
            var granted := Next(t, grab).granted;
            && i < |granted| && granted[i] == s.granted[i]
            && (|granted| > |t.granted| ==> granted[i].token < granted[|granted| - 1].token)
  {
    AttemptKeepsToken(Next(s, draw), between, draw.id);
  }

  /** A grant made while an attempt was under way may have the larger token and yet come
      first: exactly then it was made to an attempt that drew later. */
  lemma {:induction false} OvertakenExactlyWhen(s: Sys, steps: seq<Step>, id: AttemptId, i: nat)
    requires Invariant(s) && id in s.attempts && s.attempts[id].token == s.store.counter
    requires Runs(s, steps) && forall k :: 0 <= k < |steps| ==> !(steps[k].Set? && steps[k].id == id)
    requires i < |Run(s, steps).granted|
    ensures var t := Run(s, steps);
            id in t.attempts &&
            (t.attempts[id].token < t.granted[i].token <==>
             |s.granted| <= i && forall a | a in s.attempts :: s.attempts[a].token != t.granted[i].token)
  {
    AttemptKeepsToken(s, steps, id);
    GrantsGrow(s, steps, i);
    RunKeepsInvariant(s, steps);
  }

  /** What is granted after a state has a token drawn after it, or by an attempt under way in it. */
  lemma {:induction false} GrantsGrow(s: Sys, steps: seq<Step>, i: nat)
    requires Runs(s, steps) && i < |Run(s, steps).granted|
    ensures var t := Run(s, steps);
            if i < |s.granted| then t.granted[i] == s.granted[i]
            else s.store.counter < t.granted[i].token || exists a :: a in s.attempts && s.attempts[a].token == t.granted[i].token
    decreases |steps|
  {
    if steps != [] {
      var n := Next(s, steps[0]);
      GrantsGrow(n, steps[1..], i);
      var token := Run(s, steps).granted[i].token;
      if |n.granted| <= i && token <= n.store.counter {
        var a :| a in n.attempts && n.attempts[a].token == token;
        if a !in s.attempts || s.attempts[a].token != token {
          assert steps[0].Incr? && a == steps[0].id;
        }
      }
    }
  }

  lemma TwoUnderWay(s: Sys, a: AttemptId, b: AttemptId) returns (steps: seq<Step>)
    requires a !in s.attempts && b !in s.attempts && a != b
    ensures Runs(s, steps)
    ensures var now, c := s.clock, s.store.counter;
            Run(s, steps) == s.(store := s.store.(counter := c + 2),
            attempts := s.attempts[a := Stamped(1, c + 1, DEFAULT_TTL, now)]
            [b := Stamped(2, c + 2, DEFAULT_TTL, now)])
  {
    var now := s.clock;
    steps := [];
    RunAppend(s, steps, Incr(a, 1, 0, now));
    steps := steps + [Incr(a, 1, 0, now)];
    RunAppend(s, steps, Stamp(a, now));
    steps := steps + [Stamp(a, now)];
    RunAppend(s, steps, Incr(b, 2, 0, now));
    steps := steps + [Incr(b, 2, 0, now)];
    RunAppend(s, steps, Stamp(b, now));
    steps := steps + [Stamp(b, now)];
  }

  lemma Overtake(s: Sys, steps: seq<Step>, a: AttemptId, b: AttemptId, a': Attempt, b': Attempt) returns (all: seq<Step>)
    requires Runs(s, steps) && a != b
    requires var t := Run(s, steps);
             && a in t.attempts && t.attempts[a] == a' && b in t.attempts && t.attempts[b] == b'
             && a'.Stamped? && b'.Stamped? && 0 < b'.ttl && !Live(t.store, t.clock)
    ensures Runs(s, all)
    ensures Run(s, all).granted == Run(s, steps).granted + [Lock(b'.owner, b'.token, b'.ttl, b'.at)]
                                   + [Lock(a'.owner, a'.token, a'.ttl, a'.at)]
  {
    var now, n := Run(s, steps).clock, |Run(s, steps).granted|;
    RunAppend(s, steps, Set(b, true, now));
    all := steps + [Set(b, true, now)];
    RunAppend(s, all, Unlock(n, now));
    all := all + [Unlock(n, now)];
    RunAppend(s, all, Set(a, true, now));
    all := all + [Set(a, true, now)];
  }

  /** Tokens need not rise in the order of the grants: of two overlapping attempts the
      second wins and releases, and the first then gets the lock with the smaller token. */
  lemma OverlapCanLowerTokens(s: Sys, a: AttemptId, b: AttemptId)
    requires !Live(s.store, s.clock) && a !in s.attempts && b !in s.attempts && a != b
    ensures exists steps :: Runs(s, steps) && var g := Run(s, steps).granted;
                                           |g| == |s.granted| + 2 && g[|s.granted|].token > g[|s.granted| + 1].token
  {
    var steps := TwoUnderWay(s, a, b);
    var t := Run(s, steps);
    var all := Overtake(s, steps, a, b, t.attempts[a], t.attempts[b]);
  }

  /** The store has the lock until the given time at least. */
  predicate SafeUntil(s: Sys, i: nat, until: int)
    requires i < |s.granted|
  {
    && s.store.entry.Some? && until <= s.store.entry.value.expires
    && s.store.entry.value.owner == s.granted[i].owner && s.store.entry.value.token == s.granted[i].token
  }

  /** A granted or extended lock stays in the store for its full time to live, whatever other
      clients do, unless its own holder releases it; further extensions only prolong it. */
  lemma {:induction false} StaysUntil(s: Sys, steps: seq<Step>, i: nat, until: int)
    requires Invariant(s) && Runs(s, steps) && i < |s.granted| && SafeUntil(s, i, until)
    requires until <= s.clock + s.granted[i].ttl
    requires forall k :: 0 <= k < |steps| ==> steps[k].now < until && !(steps[k].Unlock? && steps[k].held == i)
    ensures var t := Run(s, steps);
            i < |t.granted| && t.granted[i] == s.granted[i] && SafeUntil(t, i, until)
    decreases |steps|
  {
    if steps != [] {
      assert steps[0].now < until && !(steps[0].Unlock? && steps[0].held == i);
      StepKeepsInvariant(s, steps[0]);
      StaysUntil(Next(s, steps[0]), steps[1..], i, until);
    }
  }

  lemma ExtensionHolds(s: Sys, i: nat, now: int, steps: seq<Step>)
    requires Invariant(s) && i < |s.granted| && s.clock <= now && Owns(s.store, s.granted[i], now)
    requires Runs(Next(s, Prolong(i, now)), steps)
    requires forall k :: 0 <= k < |steps| ==> steps[k].now < now + s.granted[i].ttl && !(steps[k].Unlock? && steps[k].held == i)
    ensures var t := Run(Next(s, Prolong(i, now)), steps);
            && i < |t.granted| && t.granted[i] == s.granted[i]
            && forall later :: later < now + s.granted[i].ttl ==> Owns(t.store, t.granted[i], later)
  {
    StepKeepsInvariant(s, Prolong(i, now));
    StaysUntil(Next(s, Prolong(i, now)), steps, i, now + s.granted[i].ttl);
  }

  /** The lock is not in the store any more, or has expired there. */
  predicate Lost(s: Sys, i: nat)
    requires i < |s.granted|
  {
    !Owns(s.store, s.granted[i], s.clock)
  }

  /** Once lost, a lock is lost for good: whatever its holder sends later, neither a release
      nor an extension changes the entry of whoever holds the key then. */
  lemma {:induction false} LostForGood(s: Sys, steps: seq<Step>, i: nat, later: int)
    requires Invariant(s) && Runs(s, steps) && i < |s.granted| && Lost(s, i)
    requires Run(s, steps).clock <= later
    ensures var t := Run(s, steps);
            && i < |t.granted| && t.granted[i] == s.granted[i]
            && Release(t.store, t.granted[i], later) == t.store
            && Extend(t.store, t.granted[i], later) == t.store
    decreases |steps|
  {
    if steps != [] {
      StepKeepsInvariant(s, steps[0]);
      StaysLost(s, steps[0], i);
      LostForGood(Next(s, steps[0]), steps[1..], i, later);
    }
  }

  lemma StaysLost(s: Sys, step: Step, i: nat)
    requires Invariant(s) && Enabled(s, step) && i < |s.granted| && Lost(s, i)
    ensures i < |Next(s, step).granted| && Next(s, step).granted[i] == s.granted[i] && Lost(Next(s, step), i)
  {
  }
}
