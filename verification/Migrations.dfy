/** The migration runner: pending migrations in the order of their versions, each marked
    dirty and then clean in the tracking table; a failed run is rolled back in reverse.
    The schema is a type parameter; what a migration does to it, and whether it reports
    success, is whatever its functions say. Env names the versions at which the deadline
    has passed or a write to the tracking table fails. */
module Migrations {
  import opened Optional

  datatype Outcome<+S> = Outcome(schema: S, ok: bool)

  datatype Migration<!S> = Migration(version: int, name: string, up: S -> Outcome<S>, down: Option<S -> Outcome<S>>)

  /** table maps each recorded version to its dirty flag. */
  datatype State<+S> = State(schema: S, table: map<int, bool>)

  datatype Env = Env(expired: set<int>, dirtyFails: set<int>, cleanFails: set<int>, removeFails: set<int>, undoFails: set<int>)

  datatype Stop = Finished | TimedOut(version: int) | UpFailed(version: int)
                | DirtyMarkFailed(version: int) | CleanMarkFailed(version: int)
                | NotRegistered(version: int) | NoDown(version: int) | DownFailed(version: int) | RemoveFailed(version: int)

  datatype Result<+S> = Result(state: State<S>, applied: seq<int>, rolledBack: seq<int>, stop: Stop)

  /** SELECT version ... WHERE dirty = false */
  function Clean(table: map<int, bool>): set<int> {
    set v | v in table && !table[v]
  }

  // ---- NewRunner ----

  function Insert<S>(m: Migration<S>, sorted: seq<Migration<S>>): seq<Migration<S>> {
    if sorted == [] || m.version < sorted[0].version then [m] + sorted
    else [sorted[0]] + Insert(m, sorted[1..])
  }

  function SortByVersion<S>(ms: seq<Migration<S>>): seq<Migration<S>> {
    if ms == [] then [] else Insert(ms[0], SortByVersion(ms[1..]))
  }

  ghost predicate Ascending<S(!new)>(ms: seq<Migration<S>>) {
    forall i, j :: 0 <= i < j < |ms| ==> ms[i].version < ms[j].version
  }

  ghost predicate Distinct<S(!new)>(ms: seq<Migration<S>>) {
    forall i, j :: 0 <= i < j < |ms| ==> ms[i].version != ms[j].version
  }

  lemma {:induction false} InsertAdds<S(!new)>(m: Migration<S>, sorted: seq<Migration<S>>)
    ensures multiset(Insert(m, sorted)) == multiset(sorted) + multiset{m}
  {
    if sorted != [] && sorted[0].version <= m.version {
      InsertAdds(m, sorted[1..]);
      assert sorted == [sorted[0]] + sorted[1..];
    }
  }

  lemma {:induction false} InsertSorts<S(!new)>(m: Migration<S>, sorted: seq<Migration<S>>)
    requires Ascending(sorted) && forall k :: k in sorted ==> k.version != m.version
    ensures Ascending(Insert(m, sorted))
  {
    if sorted != [] && sorted[0].version <= m.version {
      InsertSorts(m, sorted[1..]);
      InsertAdds(m, sorted[1..]);
      var rest := Insert(m, sorted[1..]);
      forall j | 0 <= j < |rest| ensures sorted[0].version < rest[j].version {
        assert rest[j] in multiset(rest);
      }
    }
  }

  lemma {:induction false} SortKeeps<S(!new)>(ms: seq<Migration<S>>)
    ensures multiset(SortByVersion(ms)) == multiset(ms)
  {
    if ms != [] {
      assert ms == [ms[0]] + ms[1..];
      SortKeeps(ms[1..]);
      InsertAdds(ms[0], SortByVersion(ms[1..]));
    }
  }

  lemma HeadIsNew<S(!new)>(ms: seq<Migration<S>>, k: Migration<S>)
    requires ms != [] && Distinct(ms) && k in SortByVersion(ms[1..])
    ensures k.version != ms[0].version
  {
    SortKeeps(ms[1..]);
    assert k in multiset(ms[1..]);
    var i :| 0 <= i < |ms[1..]| && ms[1..][i] == k;
    assert ms[i + 1] == k;
  }

  lemma {:induction false} SortAscends<S(!new)>(ms: seq<Migration<S>>)
    requires Distinct(ms)
    ensures Ascending(SortByVersion(ms))
  {
    if ms != [] {
      SortAscends(ms[1..]);
      forall k | k in SortByVersion(ms[1..]) ensures k.version != ms[0].version {
        HeadIsNew(ms, k);
      }
      InsertSorts(ms[0], SortByVersion(ms[1..]));
    }
  }

  /** The runner works on the same migrations in ascending order. */
  lemma SortSorts<S(!new)>(ms: seq<Migration<S>>)
    requires Distinct(ms)
    ensures Ascending(SortByVersion(ms)) && multiset(SortByVersion(ms)) == multiset(ms)
  {
    SortAscends(ms);
    SortKeeps(ms);
  }

  // ---- Up ----

  function Find<S>(ms: seq<Migration<S>>, version: int): Option<Migration<S>> {
    if ms == [] then None
    else if ms[|ms| - 1].version == version then Some(ms[|ms| - 1])
    else Find(ms[..|ms| - 1], version)
  }

  /** Undoes the migrations of this run, last first; what cannot be undone is skipped. */
  function Rollback<S>(s: State<S>, ms: seq<Migration<S>>, env: Env, applied: seq<int>): (State<S>, seq<int>)
    decreases |applied|
  {
    if applied == [] then (s, [])
    else
      var v, rest := applied[|applied| - 1], applied[..|applied| - 1];
      var m := Find(ms, v);
      if m.None? || m.value.down.None? then Rollback(s, ms, env, rest)
      else
        var o := m.value.down.value(s.schema);
        if !o.ok then Rollback(State(o.schema, s.table), ms, env, rest)
        else
          var r := Rollback(State(o.schema, if v in env.undoFails then s.table else s.table - {v}), ms, env, rest);
          (r.0, [v] + r.1)
  }

  function UpFrom<S>(s: State<S>, ms: seq<Migration<S>>, done: set<int>, env: Env, i: nat, applied: seq<int>): Result<S>
    requires i <= |ms|
    decreases |ms| - i
  {
    if i == |ms| then Result(s, applied, [], Finished)
    else
      var m := ms[i];
      var v := m.version;
      if v in done then UpFrom(s, ms, done, env, i + 1, applied)
      else if v in env.expired then
        var r := Rollback(s, ms, env, applied);
        Result(r.0, applied, r.1, TimedOut(v))
      else if v in env.dirtyFails then Result(s, applied, [], DirtyMarkFailed(v))
      else
        var o := m.up(s.schema);
        var marked := s.table[v := true];
        if !o.ok then
          var r := Rollback(State(o.schema, if v in env.removeFails then marked else marked - {v}), ms, env, applied);
          Result(r.0, applied, r.1, UpFailed(v))
        else if v in env.cleanFails then Result(State(o.schema, marked), applied, [], CleanMarkFailed(v))
        else UpFrom(State(o.schema, marked[v := false]), ms, done, env, i + 1, applied + [v])
  }

  function Up<S>(s: State<S>, ms: seq<Migration<S>>, env: Env): Result<S> {
    UpFrom(s, ms, Clean(s.table), env, 0, [])
  }

  // ---- Down ----

  /** versions lists what is still to be looked at, largest first. */
  function DownFrom<S>(s: State<S>, ms: seq<Migration<S>>, versions: seq<int>, steps: int, env: Env, rolledBack: seq<int>): Result<S>
    decreases |versions|
  {
    if versions == [] || steps <= 0 then Result(s, [], rolledBack, Finished)
    else
      var v := versions[0];
      var m := Find(ms, v);
      if m.None? then Result(s, [], rolledBack, NotRegistered(v))
      else if m.value.down.None? then Result(s, [], rolledBack, NoDown(v))
      else
        var o := m.value.down.value(s.schema);
        if !o.ok then Result(State(o.schema, s.table), [], rolledBack, DownFailed(v))
        else if v in env.removeFails then Result(State(o.schema, s.table), [], rolledBack, RemoveFailed(v))
        else DownFrom(State(o.schema, s.table - {v}), ms, versions[1..], steps - 1, env, rolledBack + [v])
  }

  predicate Descending(versions: seq<int>) {
    forall i, j :: 0 <= i < j < |versions| ==> versions[i] > versions[j]
  }

  /** versions is the answer to SELECT version ... WHERE dirty = false, sorted descending. */
  ghost predicate Listing(versions: seq<int>, table: map<int, bool>) {
    Descending(versions) && forall v :: v in versions <==> v in Clean(table)
  }

  class Runner<S(!new)> {
    const migrations: seq<Migration<S>>
    var schema: S
    var table: map<int, bool>

    function View(): State<S>
      reads this
    {
      State(schema, table)
    }

    constructor (migrations: seq<Migration<S>>, s: State<S>)
      ensures this.migrations == SortByVersion(migrations) && View() == s
    {
      this.migrations := SortByVersion(migrations);
      schema, table := s.schema, s.table;
    }

    method MigrateUp(env: Env) returns (applied: seq<int>, rolledBack: seq<int>, stop: Stop)
      modifies this
      ensures Result(View(), applied, rolledBack, stop) == Up(old(View()), migrations, env)
    {
      var done := Clean(table);
      applied, rolledBack := [], [];
      for i := 0 to |migrations|
        invariant rolledBack == []
        invariant UpFrom(View(), migrations, done, env, i, applied) == Up(old(View()), migrations, env)
      {
        var m := migrations[i];
        if m.version in done {
          continue;
        }
        if m.version in env.expired {
          rolledBack := RollbackApplied(env, applied);
          return applied, rolledBack, TimedOut(m.version);
        }
        if m.version in env.dirtyFails {
          return applied, rolledBack, DirtyMarkFailed(m.version);
        }
        table := table[m.version := true];
        var o := m.up(schema);
        schema := o.schema;
        if !o.ok {
          if m.version !in env.removeFails {
            table := table - {m.version};
          }
          rolledBack := RollbackApplied(env, applied);
          return applied, rolledBack, UpFailed(m.version);
        }
        if m.version in env.cleanFails {
          return applied, rolledBack, CleanMarkFailed(m.version);
        }
        table := table[m.version := false];
        applied := applied + [m.version];
      }
      stop := Finished;
    }

    method RollbackApplied(env: Env, applied: seq<int>) returns (rolledBack: seq<int>)
      modifies this
      ensures (View(), rolledBack) == Rollback(old(View()), migrations, env, applied)
    {
      rolledBack := [];
      var i := |applied|;
      assert applied[..i] == applied;
      assert forall r: seq<int> :: rolledBack + r == r;
      while i > 0
        invariant 0 <= i <= |applied|
        invariant var r := Rollback(View(), migrations, env, applied[..i]);
                  (r.0, rolledBack + r.1) == Rollback(old(View()), migrations, env, applied)
      {
        i := i - 1;
        var version := applied[i];
        assert applied[..i + 1][..i] == applied[..i];
        var m := Find(migrations, version);
        if m.None? || m.value.down.None? {
          continue;
        }
        var o := m.value.down.value(schema);
        schema := o.schema;
        if !o.ok {
          continue;
        }
        if version !in env.undoFails {
          table := table - {version};
        }
        ghost var more := Rollback(View(), migrations, env, applied[..i]).1;
        assert rolledBack + ([version] + more) == (rolledBack + [version]) + more;
        rolledBack := rolledBack + [version];
      }
      assert rolledBack + [] == rolledBack;
    }

    /** versions is what the query for the clean versions returned, sorted descending. */
    method MigrateDown(versions: seq<int>, steps: int, env: Env) returns (rolledBack: seq<int>, stop: Stop)
      modifies this
      ensures Result(View(), [], rolledBack, stop) == DownFrom(old(View()), migrations, versions, steps, env, [])
    {
      rolledBack := [];
      var count := 0;
      for i := 0 to |versions|
        invariant DownFrom(View(), migrations, versions[i..], steps - count, env, rolledBack) ==
                  DownFrom(old(View()), migrations, versions, steps, env, [])
      {
        if count >= steps {
          break;
        }
        var version := versions[i];
        assert versions[i..][1..] == versions[i + 1..];
        var m := Find(migrations, version);
        if m.None? {
          return rolledBack, NotRegistered(version);
        }
        if m.value.down.None? {
          return rolledBack, NoDown(version);
        }
        var o := m.value.down.value(schema);
        schema := o.schema;
        if !o.ok {
          return rolledBack, DownFailed(version);
        }
        if version in env.removeFails {
          return rolledBack, RemoveFailed(version);
        }
        table := table - {version};
        rolledBack := rolledBack + [version];
        count := count + 1;
      }
      stop := Finished;
    }
  }

  // ---- Any migrations, inverses of each other or not ----

  /** The migration with a version; of several the last one. */
  lemma {:induction false} FindsExactly<S(!new)>(ms: seq<Migration<S>>, v: int)
    ensures Find(ms, v) == None <==> forall i :: 0 <= i < |ms| ==> ms[i].version != v
    ensures Find(ms, v).Some? ==> exists i :: 0 <= i < |ms| && ms[i] == Find(ms, v).value && ms[i].version == v
                                              && forall j :: i < j < |ms| ==> ms[j].version != v
  {
    if ms != [] {
      var n := |ms| - 1;
      FindsExactly(ms[..n], v);
      assert forall i :: 0 <= i < n ==> ms[..n][i] == ms[i];
      if ms[n].version != v && Find(ms, v).Some? {
        var i :| 0 <= i < n && ms[..n][i] == Find(ms, v).value && ms[..n][i].version == v
                 && forall j :: i < j < n ==> ms[..n][j].version != v;
        forall j | i < j < |ms| ensures ms[j].version != v {
          assert j < n ==> ms[..n][j].version != v;
        }
        assert ms[i] == Find(ms, v).value;
      }
    }
  }

  /** The versions that the first i migrations add to those that are done. */
  function PendingUpTo<S>(ms: seq<Migration<S>>, done: set<int>, i: nat): seq<int>
    requires i <= |ms|
  {
    if i == 0 then []
    else PendingUpTo(ms, done, i - 1) + if ms[i - 1].version in done then [] else [ms[i - 1].version]
  }

  /** The schema and the tracking table when they have all been applied. */
  function AppliedUpTo<S>(s: State<S>, ms: seq<Migration<S>>, done: set<int>, i: nat): State<S>
    requires i <= |ms|
  {
    if i == 0 then s
    else
      var t := AppliedUpTo(s, ms, done, i - 1);
      if ms[i - 1].version in done then t
      else State(ms[i - 1].up(t.schema).schema, t.table[ms[i - 1].version := false])
  }

  /** The i-th migration is done already, or goes through: in time, with both marks, and with success. */
  predicate Passes<S>(s: State<S>, ms: seq<Migration<S>>, done: set<int>, env: Env, i: nat)
    requires i < |ms|
  {
    var v := ms[i].version;
    v in done || (v !in env.expired && v !in env.dirtyFails && v !in env.cleanFails
                  && ms[i].up(AppliedUpTo(s, ms, done, i).schema).ok)
  }

  predicate AllPass<S>(s: State<S>, ms: seq<Migration<S>>, done: set<int>, env: Env, i: nat)
    requires i <= |ms|
  {
    forall k :: 0 <= k < i ==> Passes(s, ms, done, env, k)
  }

  lemma {:induction false} PassingGoOn<S(!new)>(s: State<S>, ms: seq<Migration<S>>, done: set<int>, env: Env, i: nat)
    requires i <= |ms| && AllPass(s, ms, done, env, i)
    ensures UpFrom(s, ms, done, env, 0, []) == UpFrom(AppliedUpTo(s, ms, done, i), ms, done, env, i, PendingUpTo(ms, done, i))
    decreases i
  {
    if i > 0 {
      PassingGoOn(s, ms, done, env, i - 1);
      assert Passes(s, ms, done, env, i - 1);
      var t, v := AppliedUpTo(s, ms, done, i - 1), ms[i - 1].version;
      if v in done {
        assert PendingUpTo(ms, done, i) == PendingUpTo(ms, done, i - 1);
      } else {
        assert t.table[v := true][v := false] == t.table[v := false];
      }
    }
  }

  /** What becomes of a run in state t when the migration does not go through. */
  ghost predicate StopsWith<S(!new)>(r: Result<S>, t: State<S>, ms: seq<Migration<S>>, env: Env, m: Migration<S>) {
    var (v, o) := (m.version, m.up(t.schema));
    if v in env.expired then
      r.stop == TimedOut(v) && (r.state, r.rolledBack) == Rollback(t, ms, env, r.applied)
    else if v in env.dirtyFails then
      r.stop == DirtyMarkFailed(v) && r.state == t && r.rolledBack == []
    else if !o.ok then
      && r.stop == UpFailed(v)
      && (r.state, r.rolledBack) ==
         Rollback(State(o.schema, if v in env.removeFails then t.table[v := true] else t.table - {v}), ms, env, r.applied)
    else
      r.stop == CleanMarkFailed(v) && r.state == State(o.schema, t.table[v := true]) && r.rolledBack == []
  }

  lemma StopsHere<S(!new)>(t: State<S>, ms: seq<Migration<S>>, done: set<int>, env: Env, i: nat, applied: seq<int>)
    requires i < |ms| && ms[i].version !in done
    requires ms[i].version in env.expired + env.dirtyFails + env.cleanFails || !ms[i].up(t.schema).ok
    ensures var r := UpFrom(t, ms, done, env, i, applied); r.applied == applied && StopsWith(r, t, ms, env, ms[i])
  {
    var v := ms[i].version;
    assert t.table[v := true] - {v} == t.table - {v};
  }

  /** Up applies the pending migrations up to the first that does not go through, and says why it did not:
      the deadline is looked at first, then come the mark, the migration itself and the final mark. What was
      applied is rolled back only after a missed deadline or a failed migration, whose mark is removed first. */
  lemma UpStopsExactly<S(!new)>(s: State<S>, ms: seq<Migration<S>>, env: Env, i: nat)
    requires i <= |ms| && AllPass(s, ms, Clean(s.table), env, i) && (i < |ms| ==> !Passes(s, ms, Clean(s.table), env, i))
    ensures var (r, t) := (Up(s, ms, env), AppliedUpTo(s, ms, Clean(s.table), i));
            && r.applied == PendingUpTo(ms, Clean(s.table), i)
            && (if i == |ms| then r.stop == Finished && r.state == t && r.rolledBack == [] else StopsWith(r, t, ms, env, ms[i]))
  {
    PassingGoOn(s, ms, Clean(s.table), env, i);
    if i < |ms| {
      StopsHere(AppliedUpTo(s, ms, Clean(s.table), i), ms, Clean(s.table), env, i, PendingUpTo(ms, Clean(s.table), i));
    }
  }

  /** The schema when the versions from position k on have been tried, the last first. */
  function TriedFrom<S>(x: S, ms: seq<Migration<S>>, applied: seq<int>, k: nat): S
    requires k <= |applied|
    decreases |applied| - k
  {
    if k == |applied| then x
    else
      var y := TriedFrom(x, ms, applied, k + 1);
      var m := Find(ms, applied[k]);
      if m.None? || m.value.down.None? then y else m.value.down.value(y).schema
  }

  /** The k-th version has a Down, and it succeeds when its turn comes. */
  predicate Undone<S>(x: S, ms: seq<Migration<S>>, applied: seq<int>, k: nat)
    requires k < |applied|
  {
    var m := Find(ms, applied[k]);
    m.Some? && m.value.down.Some? && m.value.down.value(TriedFrom(x, ms, applied, k + 1)).ok
  }

  /** The versions that are undone, from the last down to position k. */
  function UndoneFrom<S>(x: S, ms: seq<Migration<S>>, applied: seq<int>, k: nat): seq<int>
    requires k <= |applied|
    decreases |applied| - k
  {
    if k == |applied| then []
    else UndoneFrom(x, ms, applied, k + 1) + if Undone(x, ms, applied, k) then [applied[k]] else []
  }

  lemma {:induction false} TriedFront<S(!new)>(x: S, ms: seq<Migration<S>>, applied: seq<int>, k: nat)
    requires k < |applied|
    ensures var (n, y) := (|applied| - 1, TriedFrom(x, ms, applied, |applied| - 1));
            && TriedFrom(x, ms, applied, k) == TriedFrom(y, ms, applied[..n], k)
            && UndoneFrom(x, ms, applied, k) ==
               (if Undone(x, ms, applied, n) then [applied[n]] else []) + UndoneFrom(y, ms, applied[..n], k)
            && (k < n ==> (Undone(x, ms, applied, k) <==> Undone(y, ms, applied[..n], k)))
    decreases |applied| - k
  {
    var n := |applied| - 1;
    if k < n {
      TriedFront(x, ms, applied, k + 1);
      assert applied[..n][k] == applied[k];
    } else {
      assert UndoneFrom(x, ms, applied, n + 1) == [];
    }
  }

  /** A rollback tries every version, last first, going on after one that has no Down or whose Down fails; it
      reports those that were undone, and removes their records as far as the database does. */
  lemma {:induction false} RollsBackExactly<S(!new)>(s: State<S>, ms: seq<Migration<S>>, env: Env, applied: seq<int>)
    ensures var (t, undone) := Rollback(s, ms, env, applied);
            && t.schema == TriedFrom(s.schema, ms, applied, 0)
            && undone == UndoneFrom(s.schema, ms, applied, 0)
            && t.table == s.table - set v | v in undone && v !in env.undoFails
    decreases |applied|
  {
    if applied == [] {
      assert s.table - (set v | v in [] && v !in env.undoFails) == s.table;
    } else {
      var n := |applied| - 1;
      var v, rest := applied[n], applied[..n];
      var y := TriedFrom(s.schema, ms, applied, n);
      var table := if Undone(s.schema, ms, applied, n) && v !in env.undoFails then s.table - {v} else s.table;
      TriedFront(s.schema, ms, applied, 0);
      RollsBackExactly(State(y, table), ms, env, rest);
      var more := UndoneFrom(y, ms, rest, 0);
      if Undone(s.schema, ms, applied, n) {
        assert forall u :: u in [v] + more <==> u == v || u in more;
        assert table - (set u | u in more && u !in env.undoFails) == s.table - (set u | u in [v] + more && u !in env.undoFails);
      }
    }
  }

  /** The schema after the first k of the versions have been rolled back. */
  function DownBy<S>(x: S, ms: seq<Migration<S>>, versions: seq<int>, k: nat): S
    requires k <= |versions|
  {
    if k == 0 then x
    else
      var y := DownBy(x, ms, versions, k - 1);
      var m := Find(ms, versions[k - 1]);
      if m.None? || m.value.down.None? then y else m.value.down.value(y).schema
  }

  /** The k-th version can be rolled back, and its record removed. */
  predicate Retracts<S>(x: S, ms: seq<Migration<S>>, versions: seq<int>, env: Env, k: nat)
    requires k < |versions|
  {
    var m := Find(ms, versions[k]);
    && m.Some? && m.value.down.Some? && versions[k] !in env.removeFails
    && m.value.down.value(DownBy(x, ms, versions, k)).ok
  }

  lemma {:induction false} RetractingGoesOn<S(!new)>(s: State<S>, ms: seq<Migration<S>>, versions: seq<int>, steps: int, env: Env, k: nat)
    requires k <= |versions| && (0 < k ==> k <= steps) && forall j :: 0 <= j < k ==> Retracts(s.schema, ms, versions, env, j)
    ensures DownFrom(s, ms, versions, steps, env, []) ==
            DownFrom(State(DownBy(s.schema, ms, versions, k), s.table - set v | v in versions[..k]),
                     ms, versions[k..], steps - k, env, versions[..k])
    decreases k
  {
    if k == 0 {
      assert versions[0..] == versions && versions[..0] == [];
      assert s.table - (set v | v in versions[..0]) == s.table;
    } else {
      RetractingGoesOn(s, ms, versions, steps, env, k - 1);
      assert Retracts(s.schema, ms, versions, env, k - 1);
      assert versions[k - 1..][0] == versions[k - 1] && versions[k - 1..][1..] == versions[k..];
      assert versions[..k] == versions[..k - 1] + [versions[k - 1]];
      var before, after := versions[..k - 1], versions[..k];
      assert (s.table - set v | v in before) - {versions[k - 1]} == s.table - set v | v in after;
    }
  }

  /** Down rolls back the listed versions, in that order, up to the number asked for or the first that
      cannot be, and says why it cannot. */
  lemma DownStopsExactly<S(!new)>(s: State<S>, ms: seq<Migration<S>>, versions: seq<int>, steps: int, env: Env, k: nat)
    requires k <= |versions| && (0 < k ==> k <= steps) && forall j :: 0 <= j < k ==> Retracts(s.schema, ms, versions, env, j)
    requires k == |versions| || steps <= k || !Retracts(s.schema, ms, versions, env, k)
    ensures var (r, x) := (DownFrom(s, ms, versions, steps, env, []), DownBy(s.schema, ms, versions, k));
            && r.applied == [] && r.rolledBack == versions[..k]
            && r.state.table == s.table - set v | v in versions[..k]
                                                  && (if k == |versions| || steps <= k then r.stop == Finished && r.state.schema == x
                                                      else
                                                        var (v, m) := (versions[k], Find(ms, versions[k]));
                                                        if m.None? then r.stop == NotRegistered(v) && r.state.schema == x
                                                        else if m.value.down.None? then r.stop == NoDown(v) && r.state.schema == x
                                                        else
                                                          && r.state.schema == m.value.down.value(x).schema
                                                          && r.stop == if m.value.down.value(x).ok then RemoveFailed(v) else DownFailed(v))
  {
    RetractingGoesOn(s, ms, versions, steps, env, k);
    if k < |versions| {
      assert versions[k..][0] == versions[k];
    }
  }

  // ---- What is assumed of migrations ----

  /** A migration that fails leaves the schema alone. */
  ghost predicate FailsCleanly<S(!new)>(m: Migration<S>) {
    forall x :: !m.up(x).ok ==> m.up(x).schema == x
  }

  /** Down exists, succeeds and inverts Up. */
  ghost predicate Invertible<S(!new)>(m: Migration<S>) {
    m.down.Some? && forall x :: m.up(x).ok ==> m.down.value(m.up(x).schema) == Outcome(x, true)
  }

  ghost predicate Reversible<S(!new)>(ms: seq<Migration<S>>) {
    forall i :: 0 <= i < |ms| ==> Invertible(ms[i])
  }

  // ---- The schema along a run ----

  /** The versions are registered, and their migrations, one after the other, succeed on x. */
  predicate Succeed<S>(ms: seq<Migration<S>>, versions: seq<int>, x: S)
    decreases |versions|
  {
    versions == [] ||
    (var n := |versions| - 1;
     var m := Find(ms, versions[n]);
     Succeed(ms, versions[..n], x) && m.Some? && m.value.up(Migrated(ms, versions[..n], x)).ok)
  }

  function Migrated<S>(ms: seq<Migration<S>>, versions: seq<int>, x: S): S
    decreases |versions|
  {
    if versions == [] then x
    else
      var n := |versions| - 1;
      var m := Find(ms, versions[n]);
      var before := Migrated(ms, versions[..n], x);
      if m.None? then before else m.value.up(before).schema
  }

  function Reverse(s: seq<int>): seq<int> {
    if s == [] then [] else [s[|s| - 1]] + Reverse(s[..|s| - 1])
  }

  lemma {:induction false} FindFinds<S(!new)>(ms: seq<Migration<S>>, i: nat)
    requires Ascending(ms) && i < |ms|
    ensures Find(ms, ms[i].version) == Some(ms[i])
  {
    var n := |ms| - 1;
    if i < n {
      assert ms[i].version < ms[n].version;
      FindFinds(ms[..n], i);
    }
  }

  lemma {:induction false} FoundIsThere<S(!new)>(ms: seq<Migration<S>>, v: int)
    ensures Find(ms, v).Some? ==> Find(ms, v).value in ms && Find(ms, v).value.version == v
  {
    if ms != [] {
      FoundIsThere(ms[..|ms| - 1], v);
    }
  }

  lemma FoundIsInvertible<S(!new)>(ms: seq<Migration<S>>, v: int)
    requires Reversible(ms) && Find(ms, v).Some?
    ensures Invertible(Find(ms, v).value)
  {
    FoundIsThere(ms, v);
    var i :| 0 <= i < |ms| && ms[i] == Find(ms, v).value;
    assert Invertible(ms[i]);
  }

  /** Rolling back what succeeded restores the schema and removes exactly those records. */
  lemma {:induction false} RollbackRestores<S(!new)>(s: State<S>, ms: seq<Migration<S>>, env: Env, applied: seq<int>, x: S)
    requires Reversible(ms) && Succeed(ms, applied, x) && s.schema == Migrated(ms, applied, x)
    requires forall v :: v in applied ==> v !in env.undoFails
    ensures Rollback(s, ms, env, applied) == (State(x, s.table - (set v | v in applied)), Reverse(applied))
    decreases |applied|
  {
    if applied == [] {
      assert s.table - (set v | v in applied) == s.table;
    } else {
      var n := |applied| - 1;
      var v, rest := applied[n], applied[..n];
      assert forall u :: u in applied <==> u in rest || u == v;
      FoundIsInvertible(ms, v);
      var before := State(Migrated(ms, rest, x), s.table - {v});
      RollbackRestores(before, ms, env, rest, x);
      assert (s.table - {v}) - (set u | u in rest) == s.table - (set u | u in applied);
    }
  }

  /** In the middle of a run: applied is what this run has applied to s0 so far. */
  ghost predicate Progress<S(!new)>(s0: State<S>, s: State<S>, ms: seq<Migration<S>>, i: nat, applied: seq<int>)
    requires i <= |ms|
  {
    && Succeed(ms, applied, s0.schema) && s.schema == Migrated(ms, applied, s0.schema)
    && Clean(s.table) == Clean(s0.table) + (set v | v in applied)
    && (forall v :: v in applied ==> v !in Clean(s0.table))
    && (forall v :: v in applied <==> exists k :: 0 <= k < i && ms[k].version == v && v !in Clean(s0.table))
    && (forall j, k :: 0 <= j < k < |applied| ==> applied[j] < applied[k])
  }

  predicate RollsBack(stop: Stop) {
    stop.TimedOut? || stop.UpFailed?
  }

  /** What one migration adds to a run. */
  lemma ProgressStep<S(!new)>(s0: State<S>, s: State<S>, ms: seq<Migration<S>>, i: nat, applied: seq<int>)
    requires Ascending(ms) && i < |ms| && Progress(s0, s, ms, i, applied)
    requires ms[i].version !in Clean(s0.table) && ms[i].up(s.schema).ok
    ensures var v := ms[i].version;
            Progress(s0, State(ms[i].up(s.schema).schema, s.table[v := true][v := false]), ms, i + 1, applied + [v])
  {
    var v := ms[i].version;
    var more := applied + [v];
    FindFinds(ms, i);
    assert more[..|applied|] == applied;
    assert forall u :: u in more <==> u in applied || u == v;
    forall j | 0 <= j < |applied| ensures applied[j] < v {
      assert applied[j] in applied;
    }
    forall u ensures u in more <==> exists k :: 0 <= k < i + 1 && ms[k].version == u && u !in Clean(s0.table) {
      if u == v {
        assert ms[i].version == u;
      } else if u in applied {
        var k :| 0 <= k < i && ms[k].version == u;
      }
    }
  }

  lemma ProgressSkip<S(!new)>(s0: State<S>, s: State<S>, ms: seq<Migration<S>>, i: nat, applied: seq<int>)
    requires i < |ms| && Progress(s0, s, ms, i, applied) && ms[i].version in Clean(s0.table)
    ensures Progress(s0, s, ms, i + 1, applied)
  {
    forall v ensures v in applied <==> exists k :: 0 <= k < i + 1 && ms[k].version == v && v !in Clean(s0.table) {
      if v in applied {
        var k :| 0 <= k < i && ms[k].version == v;
      }
    }
  }

  /** What the result of Up means, however it ends. */
  ghost predicate EndsWell<S(!new)>(s0: State<S>, ms: seq<Migration<S>>, r: Result<S>) {
    && (r.stop.Finished? ==> Progress(s0, r.state, ms, |ms|, r.applied))
    && (RollsBack(r.stop) ==>
          && r.state.schema == s0.schema && Clean(r.state.table) == Clean(s0.table)
          && r.rolledBack == Reverse(r.applied))
    && (!RollsBack(r.stop) ==>
          && Clean(r.state.table) == Clean(s0.table) + (set v | v in r.applied)
          && (forall v :: v in r.applied ==> v !in Clean(s0.table)))
  }

  lemma RollbackEndsWell<S(!new)>(s0: State<S>, x: S, table: map<int, bool>, ms: seq<Migration<S>>, env: Env, applied: seq<int>, stop: Stop)
    requires RollsBack(stop) && Reversible(ms) && env.undoFails == {}
    requires Succeed(ms, applied, s0.schema) && x == Migrated(ms, applied, s0.schema)
    requires Clean(table) == Clean(s0.table) + (set v | v in applied)
    requires forall v :: v in applied ==> v !in Clean(s0.table)
    ensures var r := Rollback(State(x, table), ms, env, applied);
            EndsWell(s0, ms, Result(r.0, applied, r.1, stop))
  {
    RollbackRestores(State(x, table), ms, env, applied, s0.schema);
    CleanAfterRollback(s0.table, table, applied);
  }

  /** A pending migration either ends the run well or is added to its progress. */
  lemma PendingMigration<S(!new)>(s0: State<S>, s: State<S>, ms: seq<Migration<S>>, env: Env, i: nat, applied: seq<int>)
    requires Ascending(ms) && Reversible(ms) && env.undoFails == {} && i < |ms| && FailsCleanly(ms[i])
    requires Progress(s0, s, ms, i, applied) && ms[i].version !in Clean(s0.table)
    ensures var (v, o) := (ms[i].version, ms[i].up(s.schema));
            var r := UpFrom(s, ms, Clean(s0.table), env, i, applied);
            if v in env.expired + env.dirtyFails + env.cleanFails || !o.ok then EndsWell(s0, ms, r)
            else
              var t := State(o.schema, s.table[v := true][v := false]);
              && r == UpFrom(t, ms, Clean(s0.table), env, i + 1, applied + [v])
              && Progress(s0, t, ms, i + 1, applied + [v])
  {
    var v := ms[i].version;
    var o, marked := ms[i].up(s.schema), s.table[v := true];
    NotYetApplied(s0, s, ms, i, applied);
    assert Clean(marked) == Clean(s.table) == Clean(marked - {v});
    if v in env.expired {
      RollbackEndsWell(s0, s.schema, s.table, ms, env, applied, TimedOut(v));
    } else if v !in env.dirtyFails {
      if !o.ok {
        RollbackEndsWell(s0, o.schema, if v in env.removeFails then marked else marked - {v}, ms, env, applied, UpFailed(v));
      } else if v !in env.cleanFails {
        ProgressStep(s0, s, ms, i, applied);
      }
    }
  }

  lemma {:induction false} UpEndsWell<S(!new)>(s0: State<S>, s: State<S>, ms: seq<Migration<S>>, env: Env, i: nat, applied: seq<int>)
    requires Ascending(ms) && Reversible(ms) && env.undoFails == {} && i <= |ms|
    requires forall k :: 0 <= k < |ms| ==> FailsCleanly(ms[k])
    requires Progress(s0, s, ms, i, applied)
    ensures EndsWell(s0, ms, UpFrom(s, ms, Clean(s0.table), env, i, applied))
    decreases |ms| - i
  {
    if i < |ms| {
      var v, o := ms[i].version, ms[i].up(s.schema);
      if v in Clean(s0.table) {
        ProgressSkip(s0, s, ms, i, applied);
        UpEndsWell(s0, s, ms, env, i + 1, applied);
      } else {
        PendingMigration(s0, s, ms, env, i, applied);
        if v !in env.expired + env.dirtyFails + env.cleanFails && o.ok {
          UpEndsWell(s0, State(o.schema, s.table[v := true][v := false]), ms, env, i + 1, applied + [v]);
        }
      }
    }
  }

  lemma NotYetApplied<S(!new)>(s0: State<S>, s: State<S>, ms: seq<Migration<S>>, i: nat, applied: seq<int>)
    requires Ascending(ms) && i < |ms| && Progress(s0, s, ms, i, applied) && ms[i].version !in Clean(s0.table)
    ensures ms[i].version !in Clean(s.table)
  {
    forall k | 0 <= k < i ensures ms[k].version != ms[i].version {
    }
  }

  lemma CleanAfterRollback(before: map<int, bool>, table: map<int, bool>, applied: seq<int>)
    requires Clean(table) == Clean(before) + (set v | v in applied)
    requires forall v :: v in applied ==> v !in Clean(before)
    ensures Clean(table - (set v | v in applied)) == Clean(before)
  {
    var left := table - (set v | v in applied);
    forall v ensures v in Clean(left) <==> v in Clean(before) {
      assert v in Clean(left) <==> v in Clean(table) && v !in applied;
    }
  }

  lemma NothingYet<S(!new)>(s: State<S>, ms: seq<Migration<S>>)
    ensures Progress(s, s, ms, 0, [])
  {
  }

  // ---- The main results ----

  /** An Up that is stopped by a failing migration or by the deadline leaves the schema and
      the clean versions as they were; every other unfinished Up keeps what it applied, so
      the clean versions are as before exactly when it rolled back or had applied nothing. */
  lemma UpIsAtomicExactlyWhen<S(!new)>(s: State<S>, ms: seq<Migration<S>>, env: Env)
    requires Ascending(ms) && Reversible(ms) && env.undoFails == {}
    requires forall k :: 0 <= k < |ms| ==> FailsCleanly(ms[k])
    ensures var r := Up(s, ms, env);
            && (RollsBack(r.stop) ==> r.state.schema == s.schema && r.rolledBack == Reverse(r.applied))
            && (Clean(r.state.table) == Clean(s.table) <==> RollsBack(r.stop) || r.applied == [])
  {
    NothingYet(s, ms);
    UpEndsWell(s, s, ms, env, 0, []);
    var r := Up(s, ms, env);
    if !RollsBack(r.stop) && r.applied != [] {
      var v := r.applied[0];
      assert v in r.applied;
      assert v !in Clean(s.table);
      assert v in Clean(r.state.table);
    }
  }

  /** A finished Up has applied exactly the pending migrations in ascending order, and a
      second one, under whatever deadline or failures, changes nothing. */
  lemma SecondUpAppliesNothing<S(!new)>(s: State<S>, ms: seq<Migration<S>>, env: Env, again: Env)
    requires Ascending(ms) && Reversible(ms) && env.undoFails == {}
    requires forall k :: 0 <= k < |ms| ==> FailsCleanly(ms[k])
    requires Up(s, ms, env).stop.Finished?
    ensures var r := Up(s, ms, env);
            && Progress(s, r.state, ms, |ms|, r.applied)
            && Up(r.state, ms, again) == Result(r.state, [], [], Finished)
  {
    NothingYet(s, ms);
    UpEndsWell(s, s, ms, env, 0, []);
    var r := Up(s, ms, env);
    forall k | 0 <= k < |ms| ensures ms[k].version in Clean(r.state.table) {
      if ms[k].version !in Clean(s.table) {
        assert ms[k].version in r.applied;
      }
    }
    NothingPending(r.state, ms, again, 0);
  }

  lemma {:induction false} NothingPending<S(!new)>(s: State<S>, ms: seq<Migration<S>>, env: Env, i: nat)
    requires i <= |ms| && forall k :: 0 <= k < |ms| ==> ms[k].version in Clean(s.table)
    ensures UpFrom(s, ms, Clean(s.table), env, i, []) == Result(s, [], [], Finished)
    decreases |ms| - i
  {
    if i < |ms| {
      NothingPending(s, ms, env, i + 1);
    }
  }

  /** Down on a listing that starts with the reverse of the applied versions undoes them. */
  lemma {:induction false} DownUndoes<S(!new)>(s: State<S>, ms: seq<Migration<S>>, versions: seq<int>, env: Env,
                                               applied: seq<int>, x: S, rolledBack: seq<int>)
    requires Reversible(ms) && env.removeFails == {}
    requires Succeed(ms, applied, x) && s.schema == Migrated(ms, applied, x) && Reverse(applied) <= versions
    ensures DownFrom(s, ms, versions, |applied|, env, rolledBack) ==
            Result(State(x, s.table - (set v | v in applied)), [], rolledBack + Reverse(applied), Finished)
    decreases |applied|
  {
    if applied == [] {
      assert s.table - (set v | v in applied) == s.table;
      assert rolledBack + [] == rolledBack;
    } else {
      var n := |applied| - 1;
      var v, rest := applied[n], applied[..n];
      assert forall u :: u in applied <==> u in rest || u == v;
      FoundIsInvertible(ms, v);
      assert versions[0] == Reverse(applied)[0] == v;
      assert Reverse(applied)[1..] == Reverse(rest);
      assert Reverse(applied) == versions[..|Reverse(applied)|];
      assert Reverse(rest) == versions[1..][..|Reverse(rest)|];
      DownUndoes(State(Migrated(ms, rest, x), s.table - {v}), ms, versions[1..], env, rest, x, rolledBack + [v]);
      assert (s.table - {v}) - (set u | u in rest) == s.table - (set u | u in applied);
      assert (rolledBack + [v]) + Reverse(rest) == rolledBack + Reverse(applied);
    }
  }

  /** Whatever else happens, Down removes from the clean versions a prefix of the listing. */
  lemma {:induction false} DownRemovesPrefix<S(!new)>(s: State<S>, ms: seq<Migration<S>>, versions: seq<int>, steps: int, env: Env, rolledBack: seq<int>)
    returns (n: nat)
    requires Descending(versions) && (forall v :: v in versions ==> v in Clean(s.table))
    ensures n <= |versions| && (0 <= steps ==> n <= steps) && (steps < 0 ==> n == 0)
    ensures Clean(DownFrom(s, ms, versions, steps, env, rolledBack).state.table) == Clean(s.table) - (set v | v in versions[..n])
    decreases |versions|
  {
    n := 0;
    if versions != [] && steps > 0 {
      var v := versions[0];
      var m := Find(ms, v);
      if m.Some? && m.value.down.Some? {
        var o := m.value.down.value(s.schema);
        if o.ok && v !in env.removeFails {
          var t := State(o.schema, s.table - {v});
          forall u | u in versions[1..] ensures u in Clean(t.table) {
            var i :| 0 <= i < |versions[1..]| && versions[1..][i] == u;
            assert versions[0] > versions[i + 1] && versions[i + 1] in versions;
          }
          var k := DownRemovesPrefix(t, ms, versions[1..], steps - 1, env, rolledBack + [v]);
          n := k + 1;
          assert versions[..n] == [v] + versions[1..][..k];
          assert Clean(t.table) == Clean(s.table) - {v};
        }
      }
    }
  }

  /** Every newly applied version is larger than every one applied before. */
  predicate NewerThanAll(applied: seq<int>, before: set<int>) {
    forall i, u :: 0 <= i < |applied| && u in before ==> u < applied[i]
  }

  /** Up and then Down by as many steps restores the clean versions exactly when the new
      versions are larger than all that were applied before; then the schema is restored too. */
  lemma DownUndoesUpExactlyWhen<S(!new)>(s: State<S>, ms: seq<Migration<S>>, env: Env, versions: seq<int>, down: Env)
    requires Ascending(ms) && Reversible(ms) && env.undoFails == {} && down.removeFails == {}
    requires forall k :: 0 <= k < |ms| ==> FailsCleanly(ms[k])
    requires var r := Up(s, ms, env); r.stop.Finished? && Listing(versions, r.state.table)
    ensures var r := Up(s, ms, env);
            var d := DownFrom(r.state, ms, versions, |r.applied|, down, []);
            && (NewerThanAll(r.applied, Clean(s.table)) ==> d.stop.Finished? && d.state.schema == s.schema)
            && (Clean(d.state.table) == Clean(s.table) <==> NewerThanAll(r.applied, Clean(s.table)))
  {
    NothingYet(s, ms);
    UpEndsWell(s, s, ms, env, 0, []);
    var r := Up(s, ms, env);
    var d := DownFrom(r.state, ms, versions, |r.applied|, down, []);
    if NewerThanAll(r.applied, Clean(s.table)) {
      NewestFirst(versions, r.applied, Clean(s.table));
      DownUndoes(r.state, ms, versions, down, r.applied, s.schema, []);
      CleanAfterRollback(s.table, r.state.table, r.applied);
    } else {
      var i, u :| 0 <= i < |r.applied| && u in Clean(s.table) && u >= r.applied[i];
      var n := DownRemovesPrefix(r.state, ms, versions, |r.applied|, down, []);
      OldVersionIsInTheWay(versions, r.applied, Clean(s.table), i, u, n);
    }
  }

  /** Of a descending listing of old and newer versions the first are the newer ones. */
  lemma {:induction false} NewestFirst(versions: seq<int>, applied: seq<int>, before: set<int>)
    requires Descending(versions) && forall v :: v in versions <==> v in before || v in applied
    requires forall j, k :: 0 <= j < k < |applied| ==> applied[j] < applied[k]
    requires NewerThanAll(applied, before)
    ensures Reverse(applied) <= versions
    decreases |applied|
  {
    if applied != [] {
      var n := |applied| - 1;
      var v, rest := applied[n], applied[..n];
      assert v in versions;
      var k :| 0 <= k < |versions| && versions[k] == v;
      assert versions[0] >= versions[k];
      assert versions[0] in versions;
      assert versions[0] <= v;
      forall u ensures u in versions[1..] <==> u in before || u in rest {
        InTail(versions, u);
        InFront(applied, u);
      }
      NewestFirst(versions[1..], rest, before);
      assert versions == [v] + versions[1..];
    }
  }

  lemma InTail(versions: seq<int>, u: int)
    requires versions != [] && Descending(versions)
    ensures u in versions[1..] <==> u in versions && u != versions[0]
  {
    assert versions == [versions[0]] + versions[1..];
  }

  lemma InFront(applied: seq<int>, u: int)
    requires applied != [] && forall j, k :: 0 <= j < k < |applied| ==> applied[j] < applied[k]
    ensures u in applied[..|applied| - 1] <==> u in applied && u != applied[|applied| - 1]
  {
    var n := |applied| - 1;
    assert applied == applied[..n] + [applied[n]];
  }

  /** To remove a new version Down would have to pass, and remove, the old one above it. */
  lemma OldVersionIsInTheWay(versions: seq<int>, applied: seq<int>, before: set<int>, i: nat, u: int, n: nat)
    requires Descending(versions) && forall v :: v in versions <==> v in before || v in applied
    requires (forall v :: v in applied ==> v !in before) && i < |applied| && u in before && u >= applied[i]
    requires n <= |versions|
    ensures before + (set v | v in applied) - (set v | v in versions[..n]) != before
  {
    var left := before + (set v | v in applied) - (set v | v in versions[..n]);
    assert applied[i] in applied;
    if applied[i] in versions[..n] {
      var k :| 0 <= k < n && versions[k] == applied[i];
      assert u in versions;
      var j :| 0 <= j < |versions| && versions[j] == u;
      assert versions[..n][j] == u;
      assert u !in left;
    } else {
      assert applied[i] in left;
    }
  }
}
