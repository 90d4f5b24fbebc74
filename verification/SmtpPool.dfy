/**
  The SMTP connection pool (src/core/mail_proxy/smtp/pool.py).

  Every section that runs under the pool's lock is one function on `Pool`, the value of the
  pool's three dictionaries; the class `SMTPPool` performs these sections in place.  Connecting
  happens outside the lock, so `acquire` is a sequence of sections between which other tasks
  run: `Step` lists the sections and `World` adds what the pool itself does not store, namely
  which connects are under way and which task holds which connection.
 */
module SmtpPool {
  /** "host:port:user". */
  type Key = string

  /** The identity of a live connection object. */
  type Conn = nat

  type Task = nat

  datatype PooledConnection = PooledConnection(smtp: Conn, accountKey: Key, createdAt: int)

  datatype Pool = Pool(idle: map<Key, seq<PooledConnection>>, active: map<Key, int>, tracked: map<Conn, Key>)

  function IdleOf(p: Pool, key: Key): seq<PooledConnection> {
    if key in p.idle then p.idle[key] else []
  }

  function ActiveOf(p: Pool, key: Key): int {
    if key in p.active then p.active[key] else 0
  }

  /** How one pass of the `acquire` loop through the lock ends. */
  datatype Attempt =
    | Took(conn: Conn)      // an idle connection is handed out
    | Dropped(conn: Conn)   // an idle connection was too old or dead; the loop goes round
    | Reserved              // a slot is counted; connecting starts outside the lock
    | Saturated             // the caller waits for a release

  function AcquireResult(p: Pool, key: Key, capacity: int, usable: bool): Attempt {
    if IdleOf(p, key) != [] then
      var c := IdleOf(p, key)[|IdleOf(p, key)| - 1].smtp;
      if usable then Took(c) else Dropped(c)
    else if ActiveOf(p, key) < capacity then Reserved
    else Saturated
  }

  /** `usable` says whether the connection on top of the idle list is young enough and alive. */
  function AfterAcquire(p: Pool, key: Key, capacity: int, usable: bool): Pool {
    match AcquireResult(p, key, capacity, usable)
    case Took(c) =>
      Pool(p.idle[key := IdleOf(p, key)[..|IdleOf(p, key)| - 1]],
           p.active[key := ActiveOf(p, key) + 1],
           p.tracked[c := key])
    case Dropped(_) => p.(idle := p.idle[key := IdleOf(p, key)[..|IdleOf(p, key)| - 1]])
    case Reserved => p.(active := p.active[key := ActiveOf(p, key) + 1])
    case Saturated => p
  }

  function AfterConnect(p: Pool, key: Key, c: Conn): Pool {
    p.(tracked := p.tracked[c := key])
  }

  /** The source reads a missing count as 1 here. */
  function AfterConnectFailure(p: Pool, key: Key): Pool {
    p.(active := p.active[key := (if key in p.active then p.active[key] else 1) - 1])
  }

  /** The count after a release; it is clamped at zero, and a missing count reads as 1. */
  function Released(p: Pool, key: Key): int {
    var n := (if key in p.active then p.active[key] else 1) - 1;
    if n < 0 then 0 else n
  }

  function AfterRelease(p: Pool, c: Conn, alive: bool, now: int): Pool {
    if c !in p.tracked then p
    else
      var key := p.tracked[c];
      Pool(if alive then p.idle[key := IdleOf(p, key) + [PooledConnection(c, key, now)]] else p.idle,
           p.active[key := Released(p, key)],
           p.tracked - {c})
  }

  predicate Stale(conn: PooledConnection, ttl: int, now: int, alive: Conn -> bool) {
    now - conn.createdAt > ttl || !alive(conn.smtp)
  }

  function Survivors(conns: seq<PooledConnection>, ttl: int, now: int, alive: Conn -> bool): seq<PooledConnection> {
    if conns == [] then []
    else
      var last := conns[|conns| - 1];
      Survivors(conns[..|conns| - 1], ttl, now, alive) + (if Stale(last, ttl, now, alive) then [] else [last])
  }

  function AfterCleanup(p: Pool, ttl: int, now: int, alive: Conn -> bool): Pool {
    p.(idle := map key | key in p.idle && Survivors(p.idle[key], ttl, now, alive) != []
                 :: Survivors(p.idle[key], ttl, now, alive))
  }

  // ---------------------------------------------------------------- the class

  class SMTPPool {
    const ttl: int
    const maxPerAccount: int
    var idle: map<Key, seq<PooledConnection>>
    var activeCount: map<Key, int>
    var connectionKeys: map<Conn, Key>

    constructor (ttl: int, maxPerAccount: int)
      ensures this.ttl == ttl && this.maxPerAccount == maxPerAccount
      ensures Value() == Pool(map[], map[], map[])
    {
      this.ttl, this.maxPerAccount := ttl, maxPerAccount;
      idle, activeCount, connectionKeys := map[], map[], map[];
    }

    function Value(): Pool
      reads this
    {
      Pool(idle, activeCount, connectionKeys)
    }

    /** One pass of `acquire` through the lock. */
    method AcquirePass(key: Key, now: int, alive: Conn -> bool) returns (r: Attempt)
      modifies this
      ensures var before := old(Value());
              var usable := IdleOf(before, key) != []
                  && now - IdleOf(before, key)[|IdleOf(before, key)| - 1].createdAt <= ttl
                  && alive(IdleOf(before, key)[|IdleOf(before, key)| - 1].smtp);
              && r == AcquireResult(before, key, maxPerAccount, usable)
              && Value() == AfterAcquire(before, key, maxPerAccount, usable)
    {
      if key in idle && idle[key] != [] {
        var n := |idle[key]| - 1;
        var conn := idle[key][n];
        idle := idle[key := idle[key][..n]];
        if now - conn.createdAt > ttl {
          return Dropped(conn.smtp);
        }
        if !alive(conn.smtp) {
          return Dropped(conn.smtp);
        }
        activeCount := activeCount[key := (if key in activeCount then activeCount[key] else 0) + 1];
        connectionKeys := connectionKeys[conn.smtp := key];
        return Took(conn.smtp);
      }
      var active := if key in activeCount then activeCount[key] else 0;
      if active < maxPerAccount {
        activeCount := activeCount[key := active + 1];
        return Reserved;
      }
      return Saturated;
    }

    method ConnectOk(key: Key, c: Conn)
      modifies this`connectionKeys
      ensures Value() == AfterConnect(old(Value()), key, c)
    {
      connectionKeys := connectionKeys[c := key];
    }

    method ConnectFailed(key: Key)
      modifies this`activeCount
      ensures Value() == AfterConnectFailure(old(Value()), key)
    {
      activeCount := activeCount[key := (if key in activeCount then activeCount[key] else 1) - 1];
    }

    /** Returns whether the connection was tracked; an untracked one is only closed. */
    method Release(c: Conn, alive: bool, now: int) returns (tracked: bool)
      modifies this
      ensures tracked == (c in old(Value()).tracked)
      ensures Value() == AfterRelease(old(Value()), c, alive, now)
    {
      if c !in connectionKeys {
        return false;
      }
      var key := connectionKeys[c];
      connectionKeys := connectionKeys - {c};
      var n := (if key in activeCount then activeCount[key] else 1) - 1;
      activeCount := activeCount[key := if n < 0 then 0 else n];
      if alive {
        if key !in idle {
          idle := idle[key := []];
        }
        idle := idle[key := idle[key] + [PooledConnection(c, key, now)]];
      }
      return true;
    }

    /** The inner loop of `cleanup`. */
    method Healthy(conns: seq<PooledConnection>, now: int, alive: Conn -> bool) returns (valid: seq<PooledConnection>)
      ensures valid == Survivors(conns, ttl, now, alive)
    {
      valid := [];
      for i := 0 to |conns|
        invariant valid == Survivors(conns[..i], ttl, now, alive)
      {
        assert conns[..i + 1][..i] == conns[..i];
        if !(now - conns[i].createdAt > ttl || !alive(conns[i].smtp)) {
          valid := valid + [conns[i]];
        }
      }
      assert conns[..|conns|] == conns;
    }

    method Cleanup(now: int, alive: Conn -> bool)
      modifies this`idle
      ensures Value() == AfterCleanup(old(Value()), ttl, now, alive)
    {
      var todo := idle.Keys;
      ghost var before := idle;
      while todo != {}
        invariant todo <= before.Keys
        invariant forall key :: CleanedUp(before, idle, todo, key, ttl, now, alive)
        decreases todo
      {
        var key :| key in todo;
        assert CleanedUp(before, idle, todo, key, ttl, now, alive);
        var valid := Healthy(idle[key], now, alive);
        ghost var idle0, todo0 := idle, todo;
        idle := if valid == [] then idle - {key} else idle[key := valid];
        todo := todo - {key};
        forall other
          ensures CleanedUp(before, idle, todo, other, ttl, now, alive)
        {
          assert CleanedUp(before, idle0, todo0, other, ttl, now, alive);
        }
      }
      assert idle == AfterCleanup(old(Value()), ttl, now, alive).idle by {
        forall key
          ensures key in idle <==> key in before && Survivors(before[key], ttl, now, alive) != []
          ensures key in idle ==> idle[key] == Survivors(before[key], ttl, now, alive)
        {
          assert CleanedUp(before, idle, {}, key, ttl, now, alive);
        }
      }
    }
  }

  /** While `todo` is still to be looked at: the others' lists are cleaned, or gone. */
  predicate CleanedUp(before: map<Key, seq<PooledConnection>>, idle: map<Key, seq<PooledConnection>>, todo: set<Key>,
                      key: Key, ttl: int, now: int, alive: Conn -> bool) {
    if key in todo then key in before && key in idle && idle[key] == before[key]
    else
      && (key in idle <==> key in before && Survivors(before[key], ttl, now, alive) != [])
      && (key in idle ==> idle[key] == Survivors(before[key], ttl, now, alive))
  }

  // ---------------------------------------------------------------- the step system

  /**
    `pending[key]` counts the connects under way for `key`; `holders[c]` is the set of tasks that
    have been given connection `c` and have not yet given it back; `origin[c]` is the key that
    connection was opened for.
   */
  datatype World = World(
    pool: Pool, pending: map<Key, nat>, holders: map<Conn, set<Task>>, origin: map<Conn, Key>)

  function PendingOf(w: World, key: Key): nat {
    if key in w.pending then w.pending[key] else 0
  }

  function HoldersOf(w: World, c: Conn): set<Task> {
    if c in w.holders then w.holders[c] else {}
  }

  datatype Step =
    | Acquire(task: Task, key: Key, usable: bool)
    | Connected(task: Task, key: Key, conn: Conn)
    | Failed(key: Key)
    | Release(task: Task, conn: Conn, alive: bool, now: int)
    | Cleanup(ttl: int, now: int, health: Conn -> bool)

  predicate Slot(idle: map<Key, seq<PooledConnection>>, key: Key, i: int, conn: PooledConnection) {
    key in idle && 0 <= i < |idle[key]| && idle[key][i] == conn
  }

  ghost predicate IsIdle(p: Pool, c: Conn) {
    exists key, i, conn :: Slot(p.idle, key, i, conn) && conn.smtp == c
  }

  /** A new connection object is none of the live ones; a connect that ends was under way. */
  ghost predicate Enabled(w: World, s: Step) {
    match s
    case Connected(_, key, c) => PendingOf(w, key) > 0 && c !in w.pool.tracked && !IsIdle(w.pool, c)
        && HoldersOf(w, c) == {}
    case Failed(key) => PendingOf(w, key) > 0
    case _ => true
  }

  function Next(w: World, capacity: int, s: Step): World {
    match s
    case Acquire(t, key, usable) =>
      var p := AfterAcquire(w.pool, key, capacity, usable);
      (match AcquireResult(w.pool, key, capacity, usable)
       case Took(c) => World(p, w.pending, w.holders[c := HoldersOf(w, c) + {t}], w.origin)
       case Reserved => World(p, w.pending[key := PendingOf(w, key) + 1], w.holders, w.origin)
       case _ => w.(pool := p))
    case Connected(t, key, c) =>
      World(AfterConnect(w.pool, key, c),
            w.pending[key := if PendingOf(w, key) > 0 then PendingOf(w, key) - 1 else 0],
            w.holders[c := HoldersOf(w, c) + {t}],
            w.origin[c := key])
    case Failed(key) =>
      World(AfterConnectFailure(w.pool, key),
            w.pending[key := if PendingOf(w, key) > 0 then PendingOf(w, key) - 1 else 0],
            w.holders,
            w.origin)
    case Release(t, c, alive, now) =>
      World(AfterRelease(w.pool, c, alive, now), w.pending, w.holders[c := HoldersOf(w, c) - {t}], w.origin)
    case Cleanup(ttl, now, alive) => w.(pool := AfterCleanup(w.pool, ttl, now, alive))
  }

  // ---------------------------------------------------------------- accounting

  function TrackedFor(p: Pool, key: Key): set<Conn> {
    set c | c in p.tracked && p.tracked[c] == key
  }

  /** No connection sits in two idle places, and none is both idle and checked out. */
  ghost predicate Disjoint(p: Pool) {
    && (forall k1, i, c1, k2, j, c2 ::
          Slot(p.idle, k1, i, c1) && Slot(p.idle, k2, j, c2) && c1.smtp == c2.smtp ==> k1 == k2 && i == j)
    && (forall k, i, c :: Slot(p.idle, k, i, c) ==> c.smtp !in p.tracked && c.accountKey == k)
  }

  /** The active count of a key is its checked-out connections plus its connects under way. */
  ghost predicate Counted(w: World) {
    forall key :: ActiveOf(w.pool, key) == |TrackedFor(w.pool, key)| + PendingOf(w, key)
  }

  function Capacity(capacity: int): nat {
    if capacity < 0 then 0 else capacity
  }

  ghost predicate WithinCapacity(p: Pool, capacity: int) {
    forall key :: |IdleOf(p, key)| + ActiveOf(p, key) <= Capacity(capacity)
  }

  ghost predicate Accounted(w: World, capacity: int) {
    Disjoint(w.pool) && Counted(w) && WithinCapacity(w.pool, capacity)
  }

  lemma TrackOneKey(p: Pool, c: Conn, key: Key, p': Pool, k: Key)
    requires c !in p.tracked && p'.tracked == p.tracked[c := key]
    ensures |TrackedFor(p', k)| == |TrackedFor(p, k)| + (if k == key then 1 else 0)
  {
    if k == key {
      assert TrackedFor(p', k) == TrackedFor(p, k) + {c};
    } else {
      assert TrackedFor(p', k) == TrackedFor(p, k);
    }
  }

  lemma TrackOne(p: Pool, c: Conn, key: Key, p': Pool)
    requires c !in p.tracked && p'.tracked == p.tracked[c := key]
    ensures forall k :: |TrackedFor(p', k)| == |TrackedFor(p, k)| + (if k == key then 1 else 0)
  {
    forall k
      ensures |TrackedFor(p', k)| == |TrackedFor(p, k)| + (if k == key then 1 else 0)
    {
      TrackOneKey(p, c, key, p', k);
    }
  }

  lemma UntrackOne(p: Pool, c: Conn, p': Pool)
    requires c in p.tracked && p'.tracked == p.tracked - {c}
    ensures forall k :: |TrackedFor(p', k)| == |TrackedFor(p, k)| - (if k == p.tracked[c] then 1 else 0)
  {
    assert p.tracked == p'.tracked[c := p.tracked[c]];
    TrackOne(p', c, p.tracked[c], p);
  }

  /** The clamp of a release and the defaults for a missing count never take effect. */
  lemma ClampNeverClips(w: World, c: Conn)
    requires Counted(w) && c in w.pool.tracked
    ensures var key := w.pool.tracked[c];
            key in w.pool.active && w.pool.active[key] >= 1 && Released(w.pool, key) == w.pool.active[key] - 1
  {
    var key := w.pool.tracked[c];
    assert c in TrackedFor(w.pool, key);
    assert ActiveOf(w.pool, key) == |TrackedFor(w.pool, key)| + PendingOf(w, key);
  }

  lemma AcquireDisjoint(p: Pool, key: Key, capacity: int, usable: bool)
    requires Disjoint(p)
    ensures Disjoint(AfterAcquire(p, key, capacity, usable))
  {
    var p' := AfterAcquire(p, key, capacity, usable);
    forall k, i, c | Slot(p'.idle, k, i, c)
      ensures Slot(p.idle, k, i, c) && c.smtp !in p'.tracked && c.accountKey == k
    {
      assert Slot(p.idle, k, i, c);
      if IdleOf(p, key) != [] {
        var n := |p.idle[key]| - 1;
        assert Slot(p.idle, key, n, p.idle[key][n]);
      }
    }
  }

  lemma TakeCounted(w: World, capacity: int, t: Task, key: Key)
    requires Counted(w) && Disjoint(w.pool) && IdleOf(w.pool, key) != []
    ensures Counted(Next(w, capacity, Acquire(t, key, true)))
  {
    var idle := IdleOf(w.pool, key);
    assert Slot(w.pool.idle, key, |idle| - 1, idle[|idle| - 1]);
    TrackOne(w.pool, idle[|idle| - 1].smtp, key, Next(w, capacity, Acquire(t, key, true)).pool);
  }

  lemma AcquireCounted(w: World, capacity: int, t: Task, key: Key, usable: bool)
    requires Counted(w) && Disjoint(w.pool)
    ensures Counted(Next(w, capacity, Acquire(t, key, usable)))
  {
    if IdleOf(w.pool, key) != [] && usable {
      TakeCounted(w, capacity, t, key);
    } else {
      var w' := Next(w, capacity, Acquire(t, key, usable));
      ReserveCounts(w, capacity, t, key, usable);
      SameCounted(w, w');
    }
  }

  /** Without a connection to take, a slot and a pending connect are counted together, or nothing is. */
  lemma ReserveCounts(w: World, capacity: int, t: Task, key: Key, usable: bool)
    requires IdleOf(w.pool, key) == [] || !usable
    ensures var w' := Next(w, capacity, Acquire(t, key, usable));
            && w'.pool.tracked == w.pool.tracked
            && forall k :: ActiveOf(w'.pool, k) - ActiveOf(w.pool, k) == PendingOf(w', k) - PendingOf(w, k)
  {
    match AcquireResult(w.pool, key, capacity, usable)
    case Reserved =>
    case Dropped(_) =>
    case Saturated =>
    case Took(_) => assert false;
  }

  lemma SameCounted(w: World, w': World)
    requires Counted(w) && w'.pool.tracked == w.pool.tracked
    requires forall k :: ActiveOf(w'.pool, k) - ActiveOf(w.pool, k) == PendingOf(w', k) - PendingOf(w, k)
    ensures Counted(w')
  {
    SameTracked(w.pool, w'.pool);
  }

  lemma SameTracked(p: Pool, p': Pool)
    requires p'.tracked == p.tracked
    ensures forall k :: TrackedFor(p', k) == TrackedFor(p, k)
  {
  }

  lemma AcquireWithinCapacity(p: Pool, key: Key, capacity: int, usable: bool)
    requires WithinCapacity(p, capacity)
    ensures WithinCapacity(AfterAcquire(p, key, capacity, usable), capacity)
  {
    var p' := AfterAcquire(p, key, capacity, usable);
    forall k
      ensures |IdleOf(p', k)| + ActiveOf(p', k) <= Capacity(capacity)
    {
      assert |IdleOf(p, k)| + ActiveOf(p, k) <= Capacity(capacity);
    }
  }

  lemma ReleaseDisjoint(p: Pool, c: Conn, alive: bool, now: int)
    requires Disjoint(p)
    ensures Disjoint(AfterRelease(p, c, alive, now))
  {
    var p' := AfterRelease(p, c, alive, now);
    forall k, i, d | Slot(p'.idle, k, i, d)
      ensures Slot(p.idle, k, i, d) || (alive && c in p.tracked && k == p.tracked[c] && i == |IdleOf(p, k)|
          && d == PooledConnection(c, k, now))
      ensures d.smtp !in p'.tracked && d.accountKey == k
    {
      if !Slot(p.idle, k, i, d) {
        assert i == |IdleOf(p, k)|;
      }
    }
  }

  lemma ReleaseCounted(w: World, capacity: int, t: Task, c: Conn, alive: bool, now: int)
    requires Counted(w)
    ensures Counted(Next(w, capacity, Release(t, c, alive, now)))
  {
    if c in w.pool.tracked {
      ClampNeverClips(w, c);
      UntrackOne(w.pool, c, Next(w, capacity, Release(t, c, alive, now)).pool);
    }
  }

  lemma ReleaseWithinCapacity(w: World, c: Conn, alive: bool, now: int, capacity: int)
    requires Counted(w) && WithinCapacity(w.pool, capacity)
    ensures WithinCapacity(AfterRelease(w.pool, c, alive, now), capacity)
  {
    if c in w.pool.tracked {
      ClampNeverClips(w, c);
      var p' := AfterRelease(w.pool, c, alive, now);
      forall k
        ensures |IdleOf(p', k)| + ActiveOf(p', k) <= Capacity(capacity)
      {
        assert |IdleOf(w.pool, k)| + ActiveOf(w.pool, k) <= Capacity(capacity);
      }
    }
  }

  lemma ConnectedAccounted(w: World, capacity: int, t: Task, key: Key, c: Conn)
    requires Accounted(w, capacity) && Enabled(w, Connected(t, key, c))
    ensures Accounted(Next(w, capacity, Connected(t, key, c)), capacity)
  {
    TrackOne(w.pool, c, key, Next(w, capacity, Connected(t, key, c)).pool);
  }

  lemma FailedAccounted(w: World, capacity: int, key: Key)
    requires Accounted(w, capacity) && Enabled(w, Failed(key))
    ensures Accounted(Next(w, capacity, Failed(key)), capacity)
  {
    var w' := Next(w, capacity, Failed(key));
    SameTracked(w.pool, w'.pool);
    assert ActiveOf(w.pool, key) == |TrackedFor(w.pool, key)| + PendingOf(w, key);
  }

  /** `kept` are the entries of `conns` at these places, in ascending order. */
  predicate Within(conns: seq<PooledConnection>, kept: seq<PooledConnection>, from: seq<nat>) {
    && |from| == |kept| <= |conns|
    && (forall i :: 0 <= i < |from| ==> from[i] < |conns| && kept[i] == conns[from[i]])
    && (forall i, j :: 0 <= i < j < |from| ==> from[i] < from[j])
  }

  lemma WithinLonger(conns: seq<PooledConnection>, kept: seq<PooledConnection>, from: seq<nat>, c: PooledConnection)
    requires Within(conns, kept, from)
    ensures Within(conns + [c], kept, from) && Within(conns + [c], kept + [c], from + [|conns|])
  {
  }

  /** What cleanup keeps of an idle list stands in it, in the same order and without repeats. */
  lemma {:induction false} SurvivorsWithin(conns: seq<PooledConnection>, ttl: int, now: int, alive: Conn -> bool)
    returns (from: seq<nat>)
    ensures Within(conns, Survivors(conns, ttl, now, alive), from)
  {
    if conns == [] {
      return [];
    }
    var front, last := conns[..|conns| - 1], conns[|conns| - 1];
    from := SurvivorsWithin(front, ttl, now, alive);
    WithinLonger(front, Survivors(front, ttl, now, alive), from, last);
    assert front + [last] == conns;
    if !Stale(last, ttl, now, alive) {
      from := from + [|front|];
    }
  }

  /** Cleanup drops the connections that are too old or dead, and no others. */
  lemma {:induction false} SurvivorsExact(conns: seq<PooledConnection>, ttl: int, now: int, alive: Conn -> bool,
                                          conn: PooledConnection)
    ensures conn in Survivors(conns, ttl, now, alive) <==>
              conn in conns && now - conn.createdAt <= ttl && alive(conn.smtp)
  {
    if conns != [] {
      var n := |conns| - 1;
      SurvivorsExact(conns[..n], ttl, now, alive, conn);
      assert conns == conns[..n] + [conns[n]];
    }
  }

  lemma CleanupDisjoint(p: Pool, ttl: int, now: int, alive: Conn -> bool)
    requires Disjoint(p)
    ensures Disjoint(AfterCleanup(p, ttl, now, alive))
  {
    var p' := AfterCleanup(p, ttl, now, alive);
    forall k1, i, c1, k2, j, c2 | Slot(p'.idle, k1, i, c1) && Slot(p'.idle, k2, j, c2) && c1.smtp == c2.smtp
      ensures k1 == k2 && i == j
    {
      var f1 := SurvivorsWithin(p.idle[k1], ttl, now, alive);
      var f2 := f1;
      if k1 != k2 {
        f2 := SurvivorsWithin(p.idle[k2], ttl, now, alive);
      }
      assert Slot(p.idle, k1, f1[i], c1) && Slot(p.idle, k2, f2[j], c2);
      assert k1 == k2 && f1[i] == f2[j];
    }
    forall k, i, c | Slot(p'.idle, k, i, c)
      ensures c.smtp !in p'.tracked && c.accountKey == k
    {
      var f := SurvivorsWithin(p.idle[k], ttl, now, alive);
      assert Slot(p.idle, k, f[i], c);
    }
  }

  lemma CleanupWithinCapacity(p: Pool, ttl: int, now: int, alive: Conn -> bool, capacity: int)
    requires WithinCapacity(p, capacity)
    ensures WithinCapacity(AfterCleanup(p, ttl, now, alive), capacity)
  {
    forall key
      ensures |IdleOf(AfterCleanup(p, ttl, now, alive), key)| + ActiveOf(p, key) <= Capacity(capacity)
    {
      var f := SurvivorsWithin(IdleOf(p, key), ttl, now, alive);
      assert |IdleOf(p, key)| + ActiveOf(p, key) <= Capacity(capacity);
    }
  }

  /** Every section, run by any task at any moment, keeps the accounting exact. */
  lemma StepAccounted(w: World, capacity: int, s: Step)
    requires Accounted(w, capacity) && Enabled(w, s)
    ensures Accounted(Next(w, capacity, s), capacity)
  {
    match s
    case Acquire(t, key, usable) =>
      AcquireDisjoint(w.pool, key, capacity, usable);
      AcquireCounted(w, capacity, t, key, usable);
      AcquireWithinCapacity(w.pool, key, capacity, usable);
    case Connected(t, key, c) => ConnectedAccounted(w, capacity, t, key, c);
    case Failed(key) => FailedAccounted(w, capacity, key);
    case Release(t, c, alive, now) =>
      ReleaseDisjoint(w.pool, c, alive, now);
      ReleaseCounted(w, capacity, t, c, alive, now);
      ReleaseWithinCapacity(w, c, alive, now, capacity);
    case Cleanup(ttl, now, alive) =>
      CleanupDisjoint(w.pool, ttl, now, alive);
      CleanupWithinCapacity(w.pool, ttl, now, alive, capacity);
      SameTracked(w.pool, Next(w, capacity, s).pool);
  }

  // ---------------------------------------------------------------- single sections, on the dictionaries

  /**
    One pass of acquire.  With an idle connection, the last one leaves the list: handed out and
    counted if it is usable, else dropped.  Without one, a slot is counted exactly when the count is
    below the maximum.  Nothing else changes.
   */
  lemma AcquireOnDictionaries(p: Pool, key: Key, capacity: int, usable: bool)
    ensures var idle, p' := IdleOf(p, key), AfterAcquire(p, key, capacity, usable);
            var attempt := AcquireResult(p, key, capacity, usable);
            && (idle != [] && usable ==>
                  && attempt == Took(idle[|idle| - 1].smtp)
                  && IdleOf(p', key) == idle[..|idle| - 1] && ActiveOf(p', key) == ActiveOf(p, key) + 1
                  && p'.tracked == p.tracked[idle[|idle| - 1].smtp := key])
            && (idle != [] && !usable ==>
                  && attempt == Dropped(idle[|idle| - 1].smtp)
                  && IdleOf(p', key) == idle[..|idle| - 1] && p'.active == p.active && p'.tracked == p.tracked)
            && (idle == [] && ActiveOf(p, key) < capacity ==>
                  && attempt == Reserved && p'.idle == p.idle && p'.tracked == p.tracked
                  && ActiveOf(p', key) == ActiveOf(p, key) + 1)
            && (idle == [] && ActiveOf(p, key) >= capacity ==> attempt == Saturated && p' == p)
            && forall other :: other != key ==>
                 IdleOf(p', other) == IdleOf(p, other) && ActiveOf(p', other) == ActiveOf(p, other)
  {
  }

  /**
    Cleanup: every idle list keeps the connections that are young and alive, in their order, and
    lists left empty go; counts and keys stay.
   */
  lemma CleanupOnDictionaries(p: Pool, ttl: int, now: int, alive: Conn -> bool, key: Key) returns (from: seq<nat>)
    ensures var p' := AfterCleanup(p, ttl, now, alive);
            && p'.active == p.active && p'.tracked == p.tracked
            && Within(IdleOf(p, key), IdleOf(p', key), from)
            && (key in p'.idle <==> IdleOf(p', key) != [])
            && forall conn :: conn in IdleOf(p', key) <==>
                 conn in IdleOf(p, key) && now - conn.createdAt <= ttl && alive(conn.smtp)
  {
    var idle := IdleOf(p, key);
    from := SurvivorsWithin(idle, ttl, now, alive);
    forall conn
      ensures conn in Survivors(idle, ttl, now, alive) <==>
                conn in idle && now - conn.createdAt <= ttl && alive(conn.smtp)
    {
      SurvivorsExact(idle, ttl, now, alive, conn);
    }
  }

  /**
    Release and acquire undo each other: a live connection that is given back is the next one handed
    out for its key, as long as it is not older than the time to live, counted from the release, and
    still alive; otherwise it is dropped.
   */
  lemma ReleasedIsNext(p: Pool, c: Conn, now: int, later: int, ttl: int, alive: Conn -> bool, capacity: int)
    requires c in p.tracked && ActiveOf(p, p.tracked[c]) > 0
    ensures var key, p' := p.tracked[c], AfterRelease(p, c, true, now);
            var idle := IdleOf(p', key);
            && idle == IdleOf(p, key) + [PooledConnection(c, key, now)] && c !in p'.tracked
            && ActiveOf(p', key) == ActiveOf(p, key) - 1
            && var usable := later - idle[|idle| - 1].createdAt <= ttl && alive(idle[|idle| - 1].smtp);
               && AcquireResult(p', key, capacity, usable)
                  == (if later - now <= ttl && alive(c) then Took(c) else Dropped(c))
               && IdleOf(AfterAcquire(p', key, capacity, usable), key) == IdleOf(p, key)
    ensures var key, p' := p.tracked[c], AfterRelease(p, c, false, now);
            p'.idle == p.idle && c !in p'.tracked && ActiveOf(p', key) == ActiveOf(p, key) - 1
  {
    var key := p.tracked[c];
    var idle := IdleOf(AfterRelease(p, c, true, now), key);
    assert idle == IdleOf(p, key) + [PooledConnection(c, key, now)];
    assert idle[..|idle| - 1] == IdleOf(p, key);
  }

  // ---------------------------------------------------------------- ownership

  /** A checked-out connection is held by exactly one task, any other by none. */
  ghost predicate Exclusive(w: World) {
    forall c :: ExclusiveAt(w, c)
  }

  predicate ExclusiveAt(w: World, c: Conn) {
    |HoldersOf(w, c)| == if c in w.pool.tracked then 1 else 0
  }

  /** Connections serve only the key they were opened for. */
  ghost predicate Faithful(w: World) {
    && (forall c :: c in w.pool.tracked ==> c in w.origin && w.origin[c] == w.pool.tracked[c])
    && (forall k, i, c :: Slot(w.pool.idle, k, i, c) ==> c.smtp in w.origin && w.origin[c.smtp] == k)
  }

  /** The releasing task holds the connection, or the connection is not checked out at all. */
  predicate Rightful(w: World, s: Step) {
    s.Release? && s.conn in w.pool.tracked ==> s.task in HoldersOf(w, s.conn)
  }

  /** Sections that hand out and take back nothing leave ownership as it was. */
  lemma KeepsExclusive(w: World, w': World)
    requires Exclusive(w) && w'.holders == w.holders && w'.pool.tracked == w.pool.tracked
    ensures Exclusive(w')
  {
    forall c
      ensures ExclusiveAt(w', c)
    {
      assert ExclusiveAt(w, c);
    }
  }

  lemma AcquireExclusive(w: World, capacity: int, t: Task, key: Key, usable: bool)
    requires Accounted(w, capacity) && Exclusive(w)
    ensures Exclusive(Next(w, capacity, Acquire(t, key, usable)))
  {
    var w' := Next(w, capacity, Acquire(t, key, usable));
    var idle := IdleOf(w.pool, key);
    if idle != [] && usable {
      var c := idle[|idle| - 1].smtp;
      assert Slot(w.pool.idle, key, |idle| - 1, idle[|idle| - 1]);
      assert c !in w.pool.tracked;
      HandedToOne(w, w', c, key, t);
    } else {
      KeepsExclusive(w, w');
    }
  }

  lemma HandedToOne(w: World, w': World, c: Conn, key: Key, t: Task)
    requires Exclusive(w) && c !in w.pool.tracked
    requires w'.pool.tracked == w.pool.tracked[c := key] && w'.holders == w.holders[c := HoldersOf(w, c) + {t}]
    ensures Exclusive(w')
  {
    forall d
      ensures ExclusiveAt(w', d)
    {
      assert ExclusiveAt(w, d);
      if d == c {
        assert HoldersOf(w', c) == {t};
      }
    }
  }

  /**
    Exactly when a release leaves ownership exclusive.  A second release of a connection that
    has since been handed to another task is the case that does not.
   */
  lemma ReleaseExclusiveIff(w: World, capacity: int, t: Task, c: Conn, alive: bool, now: int)
    requires Exclusive(w)
    ensures Exclusive(Next(w, capacity, Release(t, c, alive, now))) <==> Rightful(w, Release(t, c, alive, now))
  {
    var w' := Next(w, capacity, Release(t, c, alive, now));
    forall d | d != c
      ensures ExclusiveAt(w', d)
    {
      assert ExclusiveAt(w, d);
    }
    ReleaseExclusiveAt(w, capacity, t, c, alive, now);
  }

  lemma ReleaseExclusiveAt(w: World, capacity: int, t: Task, c: Conn, alive: bool, now: int)
    requires ExclusiveAt(w, c)
    ensures ExclusiveAt(Next(w, capacity, Release(t, c, alive, now)), c) <==> Rightful(w, Release(t, c, alive, now))
  {
    var holders := HoldersOf(w, c);
    assert HoldersOf(Next(w, capacity, Release(t, c, alive, now)), c) == holders - {t};
    if t in holders {
      assert |holders - {t}| == |holders| - 1;
    } else {
      assert holders - {t} == holders;
    }
  }

  /**
    What goes wrong after a release by a task that is not the holder: the connection is idle
    while its holder still uses it, and the next acquire hands it to a second task.
   */
  lemma RogueReleaseSharesConnection(w: World, capacity: int, rogue: Task, holder: Task, next: Task, c: Conn, now: int)
    requires Accounted(w, capacity) && Exclusive(w)
    requires c in w.pool.tracked && HoldersOf(w, c) == {holder} && rogue != holder && next != holder
    ensures var key := w.pool.tracked[c];
            var w1 := Next(w, capacity, Release(rogue, c, true, now));
            && IsIdle(w1.pool, c) && holder in HoldersOf(w1, c)
            && AcquireResult(w1.pool, key, capacity, true) == Took(c)
            && HoldersOf(Next(w1, capacity, Acquire(next, key, true)), c) == {holder, next}
  {
    var key := w.pool.tracked[c];
    var w1 := Next(w, capacity, Release(rogue, c, true, now));
    assert Slot(w1.pool.idle, key, |IdleOf(w.pool, key)|, PooledConnection(c, key, now));
    assert HoldersOf(w1, c) == {holder};
  }

  lemma CleanupFaithful(w: World, capacity: int, ttl: int, now: int, alive: Conn -> bool)
    requires Faithful(w)
    ensures Faithful(Next(w, capacity, Cleanup(ttl, now, alive)))
  {
    var w' := Next(w, capacity, Cleanup(ttl, now, alive));
    forall k, i, c | Slot(w'.pool.idle, k, i, c)
      ensures c.smtp in w'.origin && w'.origin[c.smtp] == k
    {
      var f := SurvivorsWithin(w.pool.idle[k], ttl, now, alive);
      assert Slot(w.pool.idle, k, f[i], c);
    }
  }

  lemma AcquireFaithful(w: World, capacity: int, t: Task, key: Key, usable: bool)
    requires Faithful(w)
    ensures Faithful(Next(w, capacity, Acquire(t, key, usable)))
  {
    var w' := Next(w, capacity, Acquire(t, key, usable));
    forall k, i, d | Slot(w'.pool.idle, k, i, d)
      ensures d.smtp in w'.origin && w'.origin[d.smtp] == k
    {
      assert Slot(w.pool.idle, k, i, d);
    }
    var idle := IdleOf(w.pool, key);
    assert idle != [] ==> Slot(w.pool.idle, key, |idle| - 1, idle[|idle| - 1]);
  }

  lemma ConnectedFaithful(w: World, capacity: int, t: Task, key: Key, c: Conn)
    requires Faithful(w) && Enabled(w, Connected(t, key, c))
    ensures Faithful(Next(w, capacity, Connected(t, key, c)))
  {
    forall k, i, d | Slot(w.pool.idle, k, i, d)
      ensures d.smtp != c
    {
      assert IsIdle(w.pool, d.smtp);
    }
  }

  lemma ReleaseFaithful(w: World, capacity: int, t: Task, c: Conn, alive: bool, now: int)
    requires Faithful(w)
    ensures Faithful(Next(w, capacity, Release(t, c, alive, now)))
  {
    var w' := Next(w, capacity, Release(t, c, alive, now));
    forall k, i, d | Slot(w'.pool.idle, k, i, d)
      ensures d.smtp in w'.origin && w'.origin[d.smtp] == k
    {
      assert Slot(w.pool.idle, k, i, d) || (c in w.pool.tracked && k == w.pool.tracked[c] && d.smtp == c);
    }
  }

  lemma StepFaithful(w: World, capacity: int, s: Step)
    requires Faithful(w) && Enabled(w, s)
    ensures Faithful(Next(w, capacity, s))
  {
    match s
    case Acquire(t, key, usable) => AcquireFaithful(w, capacity, t, key, usable);
    case Connected(t, key, c) => ConnectedFaithful(w, capacity, t, key, c);
    case Failed(key) =>
    case Release(t, c, alive, now) => ReleaseFaithful(w, capacity, t, c, alive, now);
    case Cleanup(ttl, now, alive) => CleanupFaithful(w, capacity, ttl, now, alive);
  }

  lemma StepExclusive(w: World, capacity: int, s: Step)
    requires Accounted(w, capacity) && Exclusive(w) && Enabled(w, s) && Rightful(w, s)
    ensures Exclusive(Next(w, capacity, s))
  {
    match s
    case Acquire(t, key, usable) => AcquireExclusive(w, capacity, t, key, usable);
    case Connected(t, key, c) => HandedToOne(w, Next(w, capacity, s), c, key, t);
    case Failed(key) => KeepsExclusive(w, Next(w, capacity, s));
    case Release(t, c, alive, now) => ReleaseExclusiveIff(w, capacity, t, c, alive, now);
    case Cleanup(ttl, now, alive) => KeepsExclusive(w, Next(w, capacity, s));
  }

  // ---------------------------------------------------------------- runs

  function Final(w: World, capacity: int, trace: seq<Step>): World
    decreases |trace|
  {
    if trace == [] then w else Final(Next(w, capacity, trace[0]), capacity, trace[1..])
  }

  ghost predicate Possible(w: World, capacity: int, trace: seq<Step>)
    decreases |trace|
  {
    trace == [] || (Enabled(w, trace[0]) && Possible(Next(w, capacity, trace[0]), capacity, trace[1..]))
  }

  /** Every release of a checked-out connection is made by its holder. */
  predicate Disciplined(w: World, capacity: int, trace: seq<Step>)
    decreases |trace|
  {
    trace == [] || (Rightful(w, trace[0]) && Disciplined(Next(w, capacity, trace[0]), capacity, trace[1..]))
  }

  const EMPTY_WORLD := World(Pool(map[], map[], map[]), map[], map[], map[])

  lemma EmptyWorldSound(capacity: int)
    ensures Accounted(EMPTY_WORLD, capacity) && Exclusive(EMPTY_WORLD) && Faithful(EMPTY_WORLD)
  {
    assert forall key :: TrackedFor(EMPTY_WORLD.pool, key) == {};
  }

  lemma {:induction false} RunSound(w: World, capacity: int, trace: seq<Step>)
    requires Possible(w, capacity, trace) && Accounted(w, capacity) && Faithful(w)
    ensures Accounted(Final(w, capacity, trace), capacity) && Faithful(Final(w, capacity, trace))
    ensures Exclusive(w) && Disciplined(w, capacity, trace) ==> Exclusive(Final(w, capacity, trace))
    decreases |trace|
  {
    if trace != [] {
      StepAccounted(w, capacity, trace[0]);
      StepFaithful(w, capacity, trace[0]);
      if Exclusive(w) && Disciplined(w, capacity, trace) {
        StepExclusive(w, capacity, trace[0]);
      }
      RunSound(Next(w, capacity, trace[0]), capacity, trace[1..]);
    }
  }

  /**
    In every interleaving the idle and active connections of a key stay within the maximum, the
    active count is exact, and a connection handed out for a key was opened for that key.
   */
  lemma PoolCapacity(capacity: int, trace: seq<Step>, key: Key)
    requires Possible(EMPTY_WORLD, capacity, trace)
    ensures var w := Final(EMPTY_WORLD, capacity, trace);
            && |IdleOf(w.pool, key)| + ActiveOf(w.pool, key) <= Capacity(capacity)
            && ActiveOf(w.pool, key) == |TrackedFor(w.pool, key)| + PendingOf(w, key)
            && forall usable :: AcquireResult(w.pool, key, capacity, usable).Took? ==>
                 var c := AcquireResult(w.pool, key, capacity, usable).conn;
                 c in w.origin && w.origin[c] == key && c !in w.pool.tracked
  {
    EmptyWorldSound(capacity);
    RunSound(EMPTY_WORLD, capacity, trace);
    var p := Final(EMPTY_WORLD, capacity, trace).pool;
    assert IdleOf(p, key) != [] ==> Slot(p.idle, key, |IdleOf(p, key)| - 1, IdleOf(p, key)[|IdleOf(p, key)| - 1]);
  }

  /**
    While holders alone release, no interleaving gives one connection to two tasks, nor hands
    out or keeps idle a connection some task still holds.
   */
  lemma PoolOwnership(capacity: int, trace: seq<Step>, c: Conn)
    requires Possible(EMPTY_WORLD, capacity, trace) && Disciplined(EMPTY_WORLD, capacity, trace)
    ensures var w := Final(EMPTY_WORLD, capacity, trace);
            && |HoldersOf(w, c)| <= 1
            && (HoldersOf(w, c) != {} <==> c in w.pool.tracked)
            && (IsIdle(w.pool, c) ==> HoldersOf(w, c) == {})
  {
    EmptyWorldSound(capacity);
    RunSound(EMPTY_WORLD, capacity, trace);
    var w := Final(EMPTY_WORLD, capacity, trace);
    assert ExclusiveAt(w, c);
  }

  /** In every world of the trace each connection has one holder if it is checked out, else none. */
  ghost predicate AlwaysExclusive(w: World, capacity: int, trace: seq<Step>)
    decreases |trace|
  {
    Exclusive(w) && (trace == [] || AlwaysExclusive(Next(w, capacity, trace[0]), capacity, trace[1..]))
  }

  /** Exactly the runs in which holders alone release keep ownership exclusive throughout. */
  lemma {:induction false} OwnershipIff(w: World, capacity: int, trace: seq<Step>)
    requires Possible(w, capacity, trace) && Accounted(w, capacity) && Exclusive(w)
    ensures AlwaysExclusive(w, capacity, trace) <==> Disciplined(w, capacity, trace)
    decreases |trace|
  {
    if trace != [] {
      var step := trace[0];
      StepAccounted(w, capacity, step);
      if Rightful(w, step) {
        StepExclusive(w, capacity, step);
        OwnershipIff(Next(w, capacity, step), capacity, trace[1..]);
      } else {
        ReleaseExclusiveIff(w, capacity, step.task, step.conn, step.alive, step.now);
      }
    }
  }

  /**
    A first connection: from an empty pool with a positive maximum, a task reserves a slot, connects,
    and gives back; the connection is then idle under its key, and the next task takes it.
   */
  lemma FirstConnection(capacity: int, t: Task, next: Task, key: Key, c: Conn, now: int)
    requires capacity > 0
    ensures var trace := [Acquire(t, key, false), Connected(t, key, c), Release(t, c, true, now),
                          Acquire(next, key, true)];
            && Possible(EMPTY_WORLD, capacity, trace) && Disciplined(EMPTY_WORLD, capacity, trace)
            && HoldersOf(Final(EMPTY_WORLD, capacity, trace), c) == {next}
            && ActiveOf(Final(EMPTY_WORLD, capacity, trace).pool, key) == 1
  {
    var opening := [Acquire(t, key, false), Connected(t, key, c)];
    var reused := [Release(t, c, true, now), Acquire(next, key, true)];
    var w1 := Next(EMPTY_WORLD, capacity, opening[0]);
    var w2 := Opened(capacity, t, key, c);
    Reused(w2, capacity, t, next, key, c, now);
    OneMoreStep(w1, capacity, opening[1], reused);
    OneMoreStep(EMPTY_WORLD, capacity, opening[0], [opening[1]] + reused);
    assert [opening[0]] + ([opening[1]] + reused)
        == [Acquire(t, key, false), Connected(t, key, c), Release(t, c, true, now), Acquire(next, key, true)];
  }

  lemma Opened(capacity: int, t: Task, key: Key, c: Conn) returns (w: World)
    requires capacity > 0
    ensures var w1 := Next(EMPTY_WORLD, capacity, Acquire(t, key, false));
            && Enabled(EMPTY_WORLD, Acquire(t, key, false)) && Enabled(w1, Connected(t, key, c))
            && w == Next(w1, capacity, Connected(t, key, c))
    ensures w.pool == Pool(map[], map[key := 1], map[c := key]) && HoldersOf(w, c) == {t}
  {
    var w1 := Next(EMPTY_WORLD, capacity, Acquire(t, key, false));
    assert w1 == World(Pool(map[], map[key := 1], map[]), map[key := 1], map[], map[]);
    w := Next(w1, capacity, Connected(t, key, c));
  }

  lemma Reused(w: World, capacity: int, t: Task, next: Task, key: Key, c: Conn, now: int)
    requires w.pool == Pool(map[], map[key := 1], map[c := key]) && HoldersOf(w, c) == {t}
    ensures var trace := [Release(t, c, true, now), Acquire(next, key, true)];
            && Possible(w, capacity, trace) && Disciplined(w, capacity, trace)
            && HoldersOf(Final(w, capacity, trace), c) == {next} && ActiveOf(Final(w, capacity, trace).pool, key) == 1
  {
    var release, acquire := Release(t, c, true, now), Acquire(next, key, true);
    var w1 := Returned(w, capacity, t, key, c, now);
    TakenAgain(w1, capacity, next, key, c, now);
    OneMoreStep(w1, capacity, acquire, []);
    OneMoreStep(w, capacity, release, [acquire]);
    assert [acquire] + [] == [acquire] && [release] + [acquire] == [release, acquire];
  }

  lemma Returned(w: World, capacity: int, t: Task, key: Key, c: Conn, now: int) returns (w': World)
    requires w.pool == Pool(map[], map[key := 1], map[c := key]) && HoldersOf(w, c) == {t}
    ensures w' == Next(w, capacity, Release(t, c, true, now)) && Rightful(w, Release(t, c, true, now))
    ensures w'.pool == Pool(map[key := [PooledConnection(c, key, now)]], map[key := 0], map[])
    ensures HoldersOf(w', c) == {}
  {
    w' := Next(w, capacity, Release(t, c, true, now));
    assert IdleOf(w.pool, key) + [PooledConnection(c, key, now)] == [PooledConnection(c, key, now)];
    assert Released(w.pool, key) == 0;
    assert w.pool.tracked - {c} == map[];
  }

  lemma TakenAgain(w: World, capacity: int, next: Task, key: Key, c: Conn, now: int)
    requires w.pool == Pool(map[key := [PooledConnection(c, key, now)]], map[key := 0], map[]) && HoldersOf(w, c) == {}
    ensures var w' := Next(w, capacity, Acquire(next, key, true));
            HoldersOf(w', c) == {next} && ActiveOf(w'.pool, key) == 1
  {
    assert IdleOf(w.pool, key) == [PooledConnection(c, key, now)];
    assert AcquireResult(w.pool, key, capacity, true) == Took(c);
  }

  lemma OneMoreStep(w: World, capacity: int, step: Step, rest: seq<Step>)
    ensures Enabled(w, step) && Possible(Next(w, capacity, step), capacity, rest) ==>
              Possible(w, capacity, [step] + rest)
    ensures Rightful(w, step) && Disciplined(Next(w, capacity, step), capacity, rest) ==>
              Disciplined(w, capacity, [step] + rest)
    ensures Final(w, capacity, [step] + rest) == Final(Next(w, capacity, step), capacity, rest)
  {
    assert ([step] + rest)[1..] == rest;
  }
}
