/** Signing keys that are rotated while tokens signed with them are still around: the
    service key manager with its scheduler, and the key rotation manager for user tokens.
    A token is who signed it and from when until when it is valid (nbf and exp, sections
    4.1.5 and 4.1.4 of RFC 7519). Keys are drawn at random; here no key is drawn twice.
    Times are in nanoseconds. */
module KeyRotation {
  import opened Optional

  type Key = int

  const SECOND := 1_000_000_000

  datatype KeyInfo = KeyInfo(key: Key, activatedAt: int)

  datatype Token = Token(key: Key, notBefore: int, expires: int)

  /** Numeric dates of a token are whole seconds, rounded down. */
  function Truncate(t: int): (r: int)
    ensures r <= t < r + SECOND && r % SECOND == 0
  {
    t - t % SECOND
  }

  function Sign(key: Key, asked: int, ttl: int): Token {
    Token(key, Truncate(asked), Truncate(asked + ttl))
  }

  /** A token parses with its own key only, from the second it was asked for in until the one its lifetime ends in. */
  lemma SignsExactly(key: Key, asked: int, ttl: int, other: Key, now: int)
    ensures Parses(Sign(key, asked, ttl), other, now) <==>
            other == key && asked / SECOND * SECOND <= now < (asked + ttl) / SECOND * SECOND
  {
  }

  /** What parsing with a key checks. */
  predicate Parses(token: Token, key: Key, now: int) {
    token.key == key && token.notBefore <= now < token.expires
  }

  // ---- The key manager of the services ----

  datatype Manager = Manager(current: KeyInfo, previous: Option<KeyInfo>)

  function Rotated(m: Manager, key: Key, now: int): Manager {
    Manager(KeyInfo(key, now), Some(m.current))
  }

  function KeysAt(m: Manager, overlap: int, now: int): seq<Key> {
    if m.previous.Some? && now - m.current.activatedAt <= overlap
    then [m.current.key, m.previous.value.key] else [m.current.key]
  }

  predicate Validates(m: Manager, overlap: int, token: Token, now: int) {
    exists key :: key in KeysAt(m, overlap, now) && Parses(token, key, now)
  }

  class KeyManager {
    var currentKey: KeyInfo
    var previousKey: Option<KeyInfo>
    const overlapPeriod: int

    function View(): Manager
      reads this
    {
      Manager(currentKey, previousKey)
    }

    constructor (key: Key, previous: Option<Key>, overlapPeriod: int, interval: int, now: int)
      ensures View() == Manager(KeyInfo(key, now), if previous.Some? then Some(KeyInfo(previous.value, now - interval)) else None)
      ensures this.overlapPeriod == overlapPeriod
    {
      currentKey := KeyInfo(key, now);
      previousKey := if previous.Some? then Some(KeyInfo(previous.value, now - interval)) else None;
      this.overlapPeriod := overlapPeriod;
    }

    method RotateKey(newKey: Key, now: int)
      modifies this
      ensures View() == Rotated(old(View()), newKey, now)
      ensures currentKey == KeyInfo(newKey, now) && previousKey == Some(old(currentKey))
    {
      previousKey := Some(KeyInfo(currentKey.key, currentKey.activatedAt));
      currentKey := KeyInfo(newKey, now);
    }

    /** The issuer reads the clock first and the key later. */
    method IssueToken(asked: int, ttl: int) returns (token: Token)
      ensures token == Sign(View().current.key, asked, ttl)
    {
      token := Sign(currentKey.key, asked, ttl);
    }

    method ValidationKeys(now: int) returns (keys: seq<Key>)
      ensures keys == KeysAt(View(), overlapPeriod, now)
    {
      keys := [currentKey.key];
      if previousKey.Some? {
        var elapsed := now - currentKey.activatedAt;
        if elapsed <= overlapPeriod {
          keys := keys + [previousKey.value.key];
        }
      }
    }

    method ValidateToken(token: Token, now: int) returns (valid: bool)
      ensures valid == Validates(View(), overlapPeriod, token, now)
    {
      var keys := ValidationKeys(now);
      for i := 0 to |keys|
        invariant forall key :: key in keys[..i] ==> !Parses(token, key, now)
      {
        if Parses(token, keys[i], now) {
          assert keys[i] in keys;
          return true;
        }
      }
      assert keys[..|keys|] == keys;
      return false;
    }
  }

  class RotationScheduler {
    const manager: KeyManager
    const interval: int
    var lastRotation: int
    var nextRotation: int

    constructor (manager: KeyManager, interval: int, now: int)
      ensures this.manager == manager && this.interval == interval
      ensures lastRotation == now && nextRotation == now + interval
    {
      this.manager, this.interval := manager, interval;
      lastRotation, nextRotation := now, now + interval;
    }

    /** One turn of the loop; tick is the time the ticker sent. */
    method OnTick(tick: int, newKey: Key, at: int, finished: int) returns (rotated: bool)
      modifies this, manager
      ensures rotated == (old(nextRotation) <= tick)
      ensures manager.View() == if rotated then Rotated(old(manager.View()), newKey, at) else old(manager.View())
      ensures nextRotation == if rotated then finished + interval else old(nextRotation)
      ensures lastRotation == if rotated then finished else old(lastRotation)
    {
      rotated := tick >= nextRotation;
      if rotated {
        Rotate(newKey, at, finished);
      }
    }

    method Rotate(newKey: Key, at: int, finished: int)
      modifies this, manager
      ensures manager.View() == Rotated(old(manager.View()), newKey, at)
      ensures lastRotation == finished && nextRotation == finished + interval
    {
      manager.RotateKey(newKey, at);
      lastRotation := finished;
      nextRotation := finished + interval;
    }
  }

  // ---- Runs ----

  datatype Config = Config(ttl: int, overlap: int, interval: int)

  /** used has every key there ever was; issued every token the key manager's owner signed. */
  datatype Sys = Sys(manager: Manager, next: int, clock: int, used: set<Key>, issued: seq<Token>)

  /** A turn of the scheduler's loop, a forced rotation, the issue of a token (which reads
      the clock before it reads the key), and the passing of time. */
  datatype Step = Tick(tick: int, at: int, finished: int, key: Key)
                | Force(at: int, finished: int, key: Key)
                | Issue(asked: int, at: int)
                | Wait(at: int)

  predicate Enabled(s: Sys, step: Step) {
    && s.clock <= step.at
    && match step
       case Tick(tick, at, finished, key) => tick <= at <= finished && key !in s.used
       case Force(at, finished, key) => at <= finished && key !in s.used
       case Issue(asked, at) => asked <= at
       case Wait(_) => true
  }

  predicate Rotates(s: Sys, step: Step) {
    step.Force? || (step.Tick? && s.next <= step.tick)
  }

  function Next(s: Sys, cfg: Config, step: Step): Sys {
    if Rotates(s, step) then
      Sys(Rotated(s.manager, step.key, step.at), step.finished + cfg.interval, step.at, s.used + {step.key}, s.issued)
    else if step.Issue? then
      s.(clock := step.at, issued := s.issued + [Sign(s.manager.current.key, step.asked, cfg.ttl)])
    else
      s.(clock := step.at)
  }

  predicate Runs(s: Sys, cfg: Config, steps: seq<Step>)
    decreases |steps|
  {
    steps == [] || (Enabled(s, steps[0]) && Runs(Next(s, cfg, steps[0]), cfg, steps[1..]))
  }

  function Run(s: Sys, cfg: Config, steps: seq<Step>): Sys
    decreases |steps|
  {
    if steps == [] then s else Run(Next(s, cfg, steps[0]), cfg, steps[1..])
  }

  /** A key manager and its scheduler, created one after the other. */
  predicate Fresh(s: Sys, cfg: Config) {
    && s.issued == [] && s.manager.current.activatedAt <= s.clock && s.clock + cfg.interval == s.next
    && s.manager.current.key in s.used
    && (s.manager.previous.Some? ==> s.manager.previous.value.key in s.used && s.manager.previous.value.key != s.manager.current.key)
  }

  // ---- No gaps ----

  /** Every token issued and not yet expired validates now. */
  ghost predicate NoGap(s: Sys, cfg: Config) {
    forall i :: 0 <= i < |s.issued| && s.clock < s.issued[i].expires ==>
                  Validates(s.manager, cfg.overlap, s.issued[i], s.clock)
  }

  /** Each rotation comes at least gap after the one before. */
  predicate Spaced(s: Sys, cfg: Config, steps: seq<Step>, gap: int)
    decreases |steps|
  {
    steps == [] ||
    (&& (Rotates(s, steps[0]) ==> s.manager.current.activatedAt + gap <= steps[0].at)
     && Spaced(Next(s, cfg, steps[0]), cfg, steps[1..], gap))
  }

  /** Whose key an issued token has, and how long it can still live. */
  predicate Covered(s: Sys, cfg: Config, token: Token) {
    && token.notBefore <= s.clock
    && (|| token.expires <= s.clock
        || (token.key == s.manager.current.key && token.expires <= s.clock + cfg.ttl)
        || (s.manager.previous.Some? && token.key == s.manager.previous.value.key
            && token.expires <= s.manager.current.activatedAt + cfg.ttl))
  }

  ghost predicate AllCovered(s: Sys, cfg: Config) {
    forall i :: 0 <= i < |s.issued| ==> Covered(s, cfg, s.issued[i])
  }

  lemma CoveredMeansNoGap(s: Sys, cfg: Config)
    requires AllCovered(s, cfg) && cfg.ttl <= cfg.overlap + 1
    ensures NoGap(s, cfg)
  {
    forall i | 0 <= i < |s.issued| && s.clock < s.issued[i].expires
      ensures Validates(s.manager, cfg.overlap, s.issued[i], s.clock)
    {
      var token := s.issued[i];
      assert Covered(s, cfg, token);
      assert Parses(token, token.key, s.clock);
      assert token.key in KeysAt(s.manager, cfg.overlap, s.clock);
    }
  }

  lemma StepKeepsCovered(s: Sys, cfg: Config, step: Step)
    requires AllCovered(s, cfg) && Enabled(s, step)
    requires Rotates(s, step) ==> s.manager.current.activatedAt + cfg.ttl <= step.at
    ensures AllCovered(Next(s, cfg, step), cfg)
  {
    var t := Next(s, cfg, step);
    forall i | 0 <= i < |t.issued| ensures Covered(t, cfg, t.issued[i]) {
      if i < |s.issued| {
        assert Covered(s, cfg, s.issued[i]);
      }
    }
  }

  /** Whoever rotates: with rotations at least gap apart, and ttl no longer than the gap and
      the overlap, every token validates at all times until it expires. */
  lemma {:induction false} NoGapWhenSpaced(s: Sys, cfg: Config, steps: seq<Step>, gap: int)
    requires AllCovered(s, cfg) && Runs(s, cfg, steps) && Spaced(s, cfg, steps, gap)
    requires cfg.ttl <= gap && cfg.ttl <= cfg.overlap + 1
    ensures NoGap(Run(s, cfg, steps), cfg)
    decreases |steps|
  {
    if steps == [] {
      CoveredMeansNoGap(s, cfg);
    } else {
      StepKeepsCovered(s, cfg, steps[0]);
      NoGapWhenSpaced(Next(s, cfg, steps[0]), cfg, steps[1..], gap);
    }
  }

  predicate OnlyScheduled(steps: seq<Step>) {
    forall i :: 0 <= i < |steps| ==> !steps[i].Force?
  }

  /** The scheduler never rotates earlier than an interval after the last rotation. */
  lemma {:induction false} SchedulerSpaces(s: Sys, cfg: Config, steps: seq<Step>)
    requires Runs(s, cfg, steps) && OnlyScheduled(steps) && s.manager.current.activatedAt + cfg.interval <= s.next
    ensures Spaced(s, cfg, steps, cfg.interval)
    decreases |steps|
  {
    if steps != [] {
      assert !steps[0].Force?;
      SchedulerSpaces(Next(s, cfg, steps[0]), cfg, steps[1..]);
    }
  }

  /** No run of the scheduler leaves a gap, exactly when the lifetime of tokens is covered by
      the overlap (up to one nanosecond, as the overlap includes its last instant and the
      lifetime does not) and by the rotation interval. */
  lemma NoGapExactlyWhen(s: Sys, cfg: Config)
    requires Fresh(s, cfg) && 0 <= cfg.overlap && 0 <= cfg.interval && 0 <= cfg.ttl
    ensures (forall steps :: Runs(s, cfg, steps) && OnlyScheduled(steps) ==> NoGap(Run(s, cfg, steps), cfg)) <==>
            cfg.ttl <= cfg.overlap + 1 && cfg.ttl <= cfg.interval
  {
    if cfg.ttl <= cfg.overlap + 1 && cfg.ttl <= cfg.interval {
      forall steps | Runs(s, cfg, steps) && OnlyScheduled(steps) ensures NoGap(Run(s, cfg, steps), cfg) {
        SchedulerSpaces(s, cfg, steps);
        NoGapWhenSpaced(s, cfg, steps, cfg.interval);
      }
    } else if cfg.ttl > cfg.interval {
      var steps := TwoRotations(s, cfg);
    } else {
      var steps := OneRotation(s, cfg);
    }
  }

  /** A time from t on at which a token asked for expires exactly ttl later. */
  function WholeExpiry(t: int, ttl: int): (r: int)
    ensures t <= r && Truncate(r + ttl) == r + ttl
  {
    var e := t + ttl;
    if e % SECOND == 0 then t else t + SECOND - e % SECOND
  }

  ghost function NewKey(used: set<Key>): (key: Key)
    ensures key !in used
  {
    Unused(used, 0);
    var key :| key !in used;
    key
  }

  lemma {:induction false} Unused(used: set<Key>, from: Key)
    ensures exists key :: from <= key && key !in used
    decreases |used|
  {
    if from in used {
      Unused(used - {from}, from + 1);
      var key :| from + 1 <= key && key !in used - {from};
      assert key !in used;
    }
  }

  lemma Unfold(s: Sys, cfg: Config, first: Step, rest: seq<Step>)
    requires Enabled(s, first) && Runs(Next(s, cfg, first), cfg, rest)
    ensures Runs(s, cfg, [first] + rest) && Run(s, cfg, [first] + rest) == Run(Next(s, cfg, first), cfg, rest)
  {
    assert ([first] + rest)[1..] == rest;
  }

  /** The overlap ends before the token does. */
  lemma OneRotation(s: Sys, cfg: Config) returns (steps: seq<Step>)
    requires Fresh(s, cfg) && 0 <= cfg.overlap && 0 <= cfg.interval && cfg.overlap + 1 < cfg.ttl
    ensures Runs(s, cfg, steps) && OnlyScheduled(steps) && !NoGap(Run(s, cfg, steps), cfg)
  {
    var t := WholeExpiry(s.next, cfg.ttl);
    var issue, tick, wait := Issue(t, t), Tick(t, t, t, NewKey(s.used)), Wait(t + cfg.overlap + 1);
    var s1 := Next(s, cfg, issue);
    var s2 := Next(s1, cfg, tick);
    var s3 := Next(s2, cfg, wait);
    Unfold(s2, cfg, wait, []);
    Unfold(s1, cfg, tick, [wait]);
    Unfold(s, cfg, issue, [tick] + [wait]);
    steps := [issue] + ([tick] + [wait]);
    assert s3.issued[0] == Token(s.manager.current.key, Truncate(t), t + cfg.ttl);
    assert KeysAt(s3.manager, cfg.overlap, s3.clock) == [tick.key];
    assert !Validates(s3.manager, cfg.overlap, s3.issued[0], s3.clock);
  }

  /** A second rotation drops the key before the token ends. */
  lemma TwoRotations(s: Sys, cfg: Config) returns (steps: seq<Step>)
    requires Fresh(s, cfg) && 0 <= cfg.interval < cfg.ttl
    ensures Runs(s, cfg, steps) && OnlyScheduled(steps) && !NoGap(Run(s, cfg, steps), cfg)
  {
    var t := WholeExpiry(s.next, cfg.ttl);
    var u := t + cfg.interval;
    var issue, first := Issue(t, t), Tick(t, t, t, NewKey(s.used));
    var s1 := Next(s, cfg, issue);
    var s2 := Next(s1, cfg, first);
    var second := Tick(u, u, u, NewKey(s2.used));
    var s3 := Next(s2, cfg, second);
    Unfold(s2, cfg, second, []);
    Unfold(s1, cfg, first, [second]);
    Unfold(s, cfg, issue, [first] + [second]);
    steps := [issue] + ([first] + [second]);
    assert s3.issued[0] == Token(s.manager.current.key, Truncate(t), t + cfg.ttl);
    assert forall key :: key in KeysAt(s3.manager, cfg.overlap, s3.clock) ==> key == first.key || key == second.key;
    assert !Validates(s3.manager, cfg.overlap, s3.issued[0], s3.clock);
  }

  // ---- Retired keys ----

  /** The key was in use, and now it is two rotations old or rotated out longer ago than the overlap. */
  predicate Retired(s: Sys, cfg: Config, key: Key) {
    && key in s.used && key != s.manager.current.key
    && (s.manager.previous.Some? && s.manager.previous.value.key == key ==>
          cfg.overlap < s.clock - s.manager.current.activatedAt)
  }

  predicate CurrentIsUsed(s: Sys) {
    s.manager.current.key in s.used
  }

  /** A retired key never validates a token again, now or in any later state of any run,
      with forced rotations or without. */
  lemma {:induction false} RetiredForGood(s: Sys, cfg: Config, steps: seq<Step>, token: Token, later: int)
    requires CurrentIsUsed(s) && Retired(s, cfg, token.key) && Runs(s, cfg, steps)
    requires Run(s, cfg, steps).clock <= later
    ensures Retired(Run(s, cfg, steps), cfg, token.key)
    ensures !Validates(Run(s, cfg, steps).manager, cfg.overlap, token, later)
    decreases |steps|
  {
    if steps != [] {
      RetiredForGood(Next(s, cfg, steps[0]), cfg, steps[1..], token, later);
    }
  }

  /** In any reachable state the keys that validate are exactly those not retired. */
  lemma ValidatesExactlyUnretired(s: Sys, cfg: Config, token: Token)
    requires token.key in s.used && token.notBefore <= s.clock < token.expires
    ensures Validates(s.manager, cfg.overlap, token, s.clock) <==> !Retired(s, cfg, token.key)
  {
    var keys := KeysAt(s.manager, cfg.overlap, s.clock);
    if token.key in keys {
      assert Parses(token, token.key, s.clock);
    }
    assert keys[0] == s.manager.current.key;
    assert |keys| == 2 ==> keys[1] == s.manager.previous.value.key;
  }

  // ---- The key rotation manager for user tokens ----

  datatype Verdict = Accepted | NotInitialized | GracePeriodExpired | NoValidKey

  datatype KeyState = KeyState(current: Key, previous: Option<Key>, rotatedAt: int)

  function Verify(state: Option<KeyState>, grace: int, token: Token, now: int): Verdict {
    if state.None? then NotInitialized
    else
      var s := state.value;
      if Parses(token, s.current, now) then Accepted
      else if s.previous.Some? then
        if now - s.rotatedAt <= grace then
          if Parses(token, s.previous.value, now) then Accepted else NoValidKey
        else if token.key == s.previous.value then GracePeriodExpired
        else NoValidKey
      else NoValidKey
  }

  /** The verdict on a token, by which of the two keys parses it and when the last rotation was. */
  lemma VerifiesExactly(state: Option<KeyState>, grace: int, token: Token, now: int)
    ensures var verdict := Verify(state, grace, token, now);
            && (verdict == NotInitialized <==> state == None)
            && (state.Some? ==>
                  var s := state.value;
                  var previous := s.previous.Some? && Parses(token, s.previous.value, now) && now <= s.rotatedAt + grace;
                  var expired := s.previous == Some(token.key) && s.rotatedAt + grace < now;
                  && (verdict == Accepted <==> Parses(token, s.current, now) || previous)
                  && (verdict == GracePeriodExpired <==> !Parses(token, s.current, now) && expired)
                  && (verdict == NoValidKey <==> !Parses(token, s.current, now) && !previous && !expired))
  {
  }

  class KeyRotationManager {
    const gracePeriod: int
    var state: Option<KeyState>

    constructor (gracePeriod: int)
      ensures this.gracePeriod == gracePeriod && state == None
    {
      this.gracePeriod := gracePeriod;
      state := None;
    }

    method Initialize(loaded: Option<KeyState>, key: Key, now: int)
      modifies this
      ensures state == if loaded.Some? then loaded else Some(KeyState(key, None, now))
    {
      if loaded.Some? {
        state := loaded;
        return;
      }
      state := Some(KeyState(key, None, now));
    }

    method Rotate(newKey: Key, now: int)
      requires state.Some?
      modifies this
      ensures state == Some(KeyState(newKey, Some(old(state).value.current), now))
    {
      state := Some(KeyState(newKey, Some(state.value.current), now));
    }

    method SignToken(asked: int, ttl: int) returns (token: Option<Token>)
      ensures token == if state.Some? then Some(Sign(state.value.current, asked, ttl)) else None
    {
      if state.None? {
        return None;
      }
      token := Some(Sign(state.value.current, asked, ttl));
    }

    method VerifyToken(token: Token, now: int) returns (verdict: Verdict)
      ensures verdict == Verify(state, gracePeriod, token, now)
    {
      if state.None? {
        return NotInitialized;
      }
      var s := state.value;
      if Parses(token, s.current, now) {
        return Accepted;
      }
      if s.previous.Some? {
        var timeSinceRotation := now - s.rotatedAt;
        if timeSinceRotation <= gracePeriod {
          if Parses(token, s.previous.value, now) {
            return Accepted;
          }
          return NoValidKey;
        }
        if token.key == s.previous.value {
          return GracePeriodExpired;
        }
      }
      return NoValidKey;
    }
  }

  /** The two managers keep the same keys. */
  predicate SameKeys(s: KeyState, m: Manager) {
    && s.current == m.current.key && s.rotatedAt == m.current.activatedAt
    && s.previous.Some? == m.previous.Some?
    && (s.previous.Some? ==> s.previous.value == m.previous.value.key)
  }

  /** The key rotation manager accepts exactly what the key manager validates when the
      overlap is the grace period, and rotations keep the two in step. So what is proved
      about runs of the one holds for the other, with rotations taken as forced. */
  lemma GraceIsOverlap(s: KeyState, m: Manager, grace: int, token: Token, now: int)
    requires SameKeys(s, m)
    ensures Verify(Some(s), grace, token, now).Accepted? <==> Validates(m, grace, token, now)
    ensures Verify(Some(s), grace, token, now).GracePeriodExpired? <==>
            && s.previous == Some(token.key) && grace < now - s.rotatedAt && !Parses(token, s.current, now)
    ensures forall key :: SameKeys(KeyState(key, Some(s.current), now), Rotated(m, key, now))
  {
    var keys := KeysAt(m, grace, now);
    assert keys[0] == s.current;
    assert |keys| == 2 ==> keys[1] == s.previous.value;
  }
}
