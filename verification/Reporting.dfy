/**
  The reporter's cycle (`_process_cycle` in src/core/mail_proxy/reporting/client_reporter.py):
  group the unreported events by tenant, call every tenant that has some, call the idle tenants
  whose time has come, mark what was acknowledged, apply retention.  What a call meets at the
  other end is an answer from outside.
 */
module Reporting {
  import opened Options
  import opened MailStore
  import opened Sequences
  import B = BatchSelection
  import S = SendSystem

  datatype Tenant = Tenant(active: bool, hasUrl: bool)

  /** A call is answered, fails in a way that is caught, or raises through the cycle. */
  datatype Reply = Reached(queued: int, nextSync: Option<int>) | Unreachable | Crashed

  const SYNC_INTERVAL := 300

  /** What a cycle meets: the clock, the tenants, and their answers with and without events. */
  datatype World = World(
    now: int,
    markTs: int,
    tenants: map<B.Owner, Tenant>,
    globalUrl: bool,
    withEvents: B.Owner -> Reply,
    idle: B.Owner -> Reply)

  /** The tenant of an event; messages always have one. */
  function TenantOfEvent(db: Db, k: nat): B.Owner {
    B.Owner(if k < |db.events| && db.events[k].messagePk in db.messages
              then db.messages[db.events[k].messagePk].tenantId else "")
  }

  function Grouped(db: Db, page: seq<nat>): seq<B.Row> {
    seq(|page|, i requires 0 <= i < |page| => B.Row(page[i], TenantOfEvent(db, page[i])))
  }

  /** Whether a tenant's events are sent out at all: to its own URL or to the global one. */
  predicate Callable(w: World, t: B.Owner) {
    t in w.tenants && (w.tenants[t].hasUrl || w.globalUrl)
  }

  predicate Delivers(w: World, t: B.Owner) {
    Callable(w, t) && w.withEvents(t).Reached?
  }

  /** An idle tenant is called when it is active, was not called yet, is wanted, and is due. */
  predicate IdleDue(w: World, lastSync: map<B.Owner, int>, target: Option<B.Owner>, busy: set<B.Owner>,
                    t: B.Owner) {
    && t in w.tenants && w.tenants[t].active && w.tenants[t].hasUrl && t.id != ""
    && t !in busy
    && (target.None? || target.value == t)
    && w.now - (if t in lastSync then lastSync[t] else 0) >= SYNC_INTERVAL
  }

  /** The time a successful call leaves behind; a zero answer counts as none. */
  function Stamp(r: Reply, now: int): int {
    if r.Reached? && r.nextSync.Some? && r.nextSync.value != 0 then r.nextSync.value else now
  }

  function AfterRetention(db: Db, retention: int, now: int): Db {
    if retention <= 0 then db else RemoveFullyReported(db, now - retention, db.messages.Keys)
  }

  class ClientReporter {
    const batchSize: nat
    const retention: int
    var lastSync: map<B.Owner, int>
    var runNowTenant: Option<B.Owner>

    constructor (batchSize: nat, retention: int)
      ensures this.batchSize == batchSize && this.retention == retention
      ensures lastSync == map[] && runNowTenant == None
    {
      this.batchSize, this.retention := batchSize, retention;
      lastSync, runNowTenant := map[], None;
    }

    /** Between cycles no target is being followed. */
    function Value(): Reporter
      reads this
    {
      Reporter(lastSync, runNowTenant, None)
    }

    method Wake(tenant: Option<B.Owner>)
      modifies this
      ensures Value() == AfterTurn(old(Value()), Woken(tenant))
    {
      if tenant.Some? && tenant.value.id != "" {
        lastSync := lastSync[tenant.value := 0];
        runNowTenant := tenant;
      }
    }

    /** One tenant with events: what the call meets, and the state it leaves. */
    method CallTenant(t: B.Owner, w: World) returns (r: Reply)
      modifies this`lastSync
      ensures r == if Callable(w, t) then w.withEvents(t) else Unreachable
      ensures lastSync == if Delivers(w, t) then old(lastSync)[t := Stamp(w.withEvents(t), w.now)] else old(lastSync)
    {
      r := Unreachable;
      if t in w.tenants && (w.tenants[t].hasUrl || w.globalUrl) {
        r := w.withEvents(t);
        if r.Reached? {
          lastSync := lastSync[t := if r.nextSync.Some? && r.nextSync.value != 0 then r.nextSync.value else w.now];
        }
      }
    }

    /** First part: call the tenants that have events.  `ok` is false when a call raised. */
    method CallBusy(db: Db, page: seq<nat>, w: World) returns (ok: bool, acked: seq<nat>)
      modifies this`lastSync
      ensures ok <==> NoCrash(w, B.Owners(Grouped(db, page)))
      ensures ok ==> forall k :: k in acked <==> k in page && Delivers(w, TenantOfEvent(db, k))
      ensures ok ==> lastSync == SyncedBy(old(lastSync), w, B.Owners(Grouped(db, page)))
      ensures exists n :: 0 <= n <= |B.Owners(Grouped(db, page))|
                          && lastSync == SyncedBy(old(lastSync), w, B.Owners(Grouped(db, page))[..n])
    {
      var order, groups := B.GroupByAccount(Grouped(db, page));
      ghost var before := lastSync;
      acked := [];
      for i := 0 to |order|
        invariant NoCrash(w, order[..i])
        invariant forall k :: k in acked <==>
            k in page && TenantOfEvent(db, k) in order[..i] && Delivers(w, TenantOfEvent(db, k))
        invariant lastSync == SyncedBy(before, w, order[..i])
      {
        var t := order[i];
        assert order[..i + 1] == order[..i] + [t] && t in order;
        var r := CallTenant(t, w);
        if r.Crashed? {
          return false, acked;
        }
        if r.Reached? {
          GroupKeys(db, page, t);
          acked := acked + Keys(groups[t]);
        }
      }
      assert order[..|order|] == order;
      CoversPage(db, page);
      ok := true;
    }

    /** Second part: call the idle tenants that are due, in the order of the tenants table. */
    method CallIdle(w: World, target: Option<B.Owner>, busy: set<B.Owner>, listing: seq<B.Owner>)
      returns (ok: bool)
      modifies this`lastSync
      ensures ok <==> NoIdleCrash(old(lastSync), w, target, busy, listing)
      ensures ok ==> lastSync == SyncedIdle(old(lastSync), w, target, busy, listing)
      ensures exists n :: 0 <= n <= |listing| && (ok ==> n == |listing|)
                          && lastSync == SyncedIdle(old(lastSync), w, target, busy, listing[..n])
    {
      ghost var before := lastSync;
      for i := 0 to |listing|
        invariant NoIdleCrash(before, w, target, busy, listing[..i])
        invariant lastSync == SyncedIdle(before, w, target, busy, listing[..i])
      {
        var t := listing[i];
        assert listing[..i + 1][..i] == listing[..i];
        if IdleDue(w, lastSync, target, busy, t) {
          var r := w.idle(t);
          if r.Crashed? {
            CrashPersists(before, w, target, busy, listing, i + 1);
            return false;
          }
          if r.Reached? {
            lastSync := lastSync[t := Stamp(r, w.now)];
          }
        }
      }
      assert listing[..|listing|] == listing;
      ok := true;
    }

    /**
      One cycle.  `listing` is the tenants table in its order.  A call that raises ends the cycle:
      nothing is marked, but the sync times of the calls before it stay.
     */
    method ProcessCycle(store: MailStore, w: World, listing: seq<B.Owner>) returns (ok: bool)
      modifies this, store
      ensures runNowTenant == None
      ensures var db := old(store.Value());
              var page := FetchUnreported(db, batchSize);
              var order := B.Owners(Grouped(db, page));
              var synced := SyncedBy(old(lastSync), w, order);
              && (ok <==> NoCrash(w, order) && NoIdleCrash(synced, w, old(runNowTenant), Elements(order), listing))
              && (exists n :: 0 <= n <= |CycleTurns(w, order, listing)| && (ok ==> n == |CycleTurns(w, order, listing)|)
                    && lastSync == Run(old(Value()), CycleTurns(w, order, listing)[..n]).lastSync)
              && store.Value() == if ok then AfterCycle(db, w, page, retention) else db
    {
      var target := runNowTenant;
      runNowTenant := None;
      var db := store.Value();
      var page := FetchUnreported(db, batchSize);
      ghost var order := B.Owners(Grouped(db, page));
      ghost var turns := CycleTurns(w, order, listing);
      ghost var before := old(Value());
      var acked;
      ok, acked := CallBusy(db, page, w);
      if !ok {
        ghost var n :| 0 <= n <= |order| && lastSync == SyncedBy(before.lastSync, w, order[..n]);
        BusyPart(before, w, order, listing, n);
        assert lastSync == Run(before, turns[..1 + n]).lastSync;
        return;
      }
      ok := CallIdle(w, target, Elements(B.Owners(Grouped(db, page))), listing);
      ghost var synced := SyncedBy(before.lastSync, w, order);
      ghost var m :| 0 <= m <= |listing| && (ok ==> m == |listing|)
                     && lastSync == SyncedIdle(synced, w, target, Elements(order), listing[..m]);
      IdlePart(before, w, order, listing, m);
      assert lastSync == Run(before, turns[..1 + |order| + m]).lastSync;
      if !ok {
        return;
      }
      MarkAndClean(store, db, w, page, acked);
    }

    /** Last part: mark what was acknowledged, then apply retention. */
    method MarkAndClean(store: MailStore, ghost db: Db, w: World, ghost page: seq<nat>, acked: seq<nat>)
      requires store.Value() == db && Elements(acked) == Acked(db, w, page)
      modifies store
      ensures store.Value() == AfterCycle(db, w, page, retention)
    {
      store.MarkReportedRows(acked, w.markTs);
      if retention > 0 {
        store.RemoveFullyReportedRows(w.markTs - retention);
      }
    }
  }

  /** The events of the page that a successful call carried. */
  function Acked(db: Db, w: World, page: seq<nat>): set<nat> {
    set k | k in page && Delivers(w, TenantOfEvent(db, k)) :: k
  }

  function AfterCycle(db: Db, w: World, page: seq<nat>, retention: int): Db {
    AfterRetention(MarkReported(db, Acked(db, w, page), w.markTs), retention, w.markTs)
  }

  /** The sync times after the idle calls. */
  function SyncedIdle(lastSync: map<B.Owner, int>, w: World, target: Option<B.Owner>, busy: set<B.Owner>,
                      listing: seq<B.Owner>): map<B.Owner, int> {
    if listing == [] then lastSync
    else
      var before, t := SyncedIdle(lastSync, w, target, busy, listing[..|listing| - 1]), listing[|listing| - 1];
      if IdleDue(w, before, target, busy, t) && w.idle(t).Reached? then before[t := Stamp(w.idle(t), w.now)] else before
  }

  predicate NoIdleCrash(lastSync: map<B.Owner, int>, w: World, target: Option<B.Owner>, busy: set<B.Owner>,
                        listing: seq<B.Owner>) {
    listing == [] ||
    (var front, t := listing[..|listing| - 1], listing[|listing| - 1];
     && NoIdleCrash(lastSync, w, target, busy, front)
     && !(IdleDue(w, SyncedIdle(lastSync, w, target, busy, front), target, busy, t) && w.idle(t).Crashed?))
  }

  lemma {:induction false} CrashPersists(lastSync: map<B.Owner, int>, w: World, target: Option<B.Owner>,
                                         busy: set<B.Owner>, listing: seq<B.Owner>, n: nat)
    requires n <= |listing| && !NoIdleCrash(lastSync, w, target, busy, listing[..n])
    ensures !NoIdleCrash(lastSync, w, target, busy, listing)
    decreases |listing| - n
  {
    if n == |listing| {
      assert listing[..n] == listing;
    } else {
      assert listing[..n + 1][..n] == listing[..n];
      CrashPersists(lastSync, w, target, busy, listing, n + 1);
    }
  }

  predicate NoCrash(w: World, order: seq<B.Owner>) {
    forall i :: 0 <= i < |order| && Callable(w, order[i]) ==> !w.withEvents(order[i]).Crashed?
  }

  /** The sync times after calling the given tenants in turn. */
  function SyncedBy(lastSync: map<B.Owner, int>, w: World, order: seq<B.Owner>): map<B.Owner, int> {
    if order == [] then lastSync
    else
      var before, t := SyncedBy(lastSync, w, order[..|order| - 1]), order[|order| - 1];
      if Delivers(w, t) then before[t := Stamp(w.withEvents(t), w.now)] else before
  }

  function Keys(rows: seq<B.Row>): seq<nat> {
    seq(|rows|, i requires 0 <= i < |rows| => rows[i].pk)
  }

  lemma {:induction false} CoversPage(db: Db, page: seq<nat>)
    ensures forall k :: k in page ==> TenantOfEvent(db, k) in B.Owners(Grouped(db, page))
    decreases |page|
  {
    if page != [] {
      CoversPage(db, page[..|page| - 1]);
      assert Grouped(db, page)[..|page| - 1] == Grouped(db, page[..|page| - 1]);
    }
  }

  /** The events of a tenant's group are the tenant's events. */
  lemma {:induction false} GroupKeys(db: Db, page: seq<nat>, t: B.Owner)
    ensures forall k :: k in Keys(B.Group(Grouped(db, page), t)) <==> k in page && TenantOfEvent(db, k) == t
    decreases |page|
  {
    if page != [] {
      var front, last := page[..|page| - 1], page[|page| - 1];
      GroupKeys(db, front, t);
      var group := B.Group(Grouped(db, front), t);
      assert Grouped(db, page)[..|page| - 1] == Grouped(db, front);
      assert page == front + [last];
      if TenantOfEvent(db, last) == t {
        assert B.Group(Grouped(db, page), t) == group + [B.Row(last, t)];
        assert Keys(group + [B.Row(last, t)]) == Keys(group) + [last];
      } else {
        assert B.Group(Grouped(db, page), t) == group;
      }
    }
  }

  // ---------------------------------------------------------------- what a cycle promises

  /**
    A completed cycle marks exactly the events whose tenant's call succeeded; every other event
    keeps what it had, and what was eligible and is not marked stays eligible.
   */
  lemma CycleMarksExactlyCarried(db: Db, w: World, limit: nat, retention: int, k: nat)
    requires k < |db.events|
    ensures var page := FetchUnreported(db, limit);
            var db' := AfterCycle(db, w, page, retention);
            && |db'.events| == |db.events|
            && db'.events[k] == (if k in page && Delivers(w, TenantOfEvent(db, k))
                                 then db.events[k].(reportedTs := Some(w.markTs)) else db.events[k])
            && (Eligible(db, k) && k !in Acked(db, w, page) ==> Eligible(db', k))
  {
    var page := FetchUnreported(db, limit);
    var marked := MarkReported(db, Acked(db, w, page), w.markTs);
    if Eligible(db, k) && k !in Acked(db, w, page) && retention > 0 {
      assert Eligible(marked, k);
      RetentionExact(marked, w.markTs - retention, marked.messages.Keys, db.events[k].messagePk);
    }
  }

  lemma FetchAndCall(config: S.Config, s: S.System, limit: nat, ids: set<nat>, run: seq<S.Step>) returns (mid: S.System)
    requires S.KeysSound(s) && ids <= Elements(FetchUnreported(s.db, limit))
    requires run == [S.ReportFetch(limit), S.ReportCall(ids)]
    ensures S.Possible(config, s, run) && mid == S.Final(config, s, run) && S.KeysSound(mid)
    ensures mid.db == s.db && mid.clock == s.clock && mid.acked == ids && mid.delivered == s.delivered + ids
  {
    S.StepKeys(config, s, run[0]);
    S.RunTwo(config, s, run[0], run[1]);
    assert run == [run[0], run[1]];
    mid := S.Final(config, s, run);
    assert {} + ids == ids;
  }

  /** The steps after the calls: the mark, and the DELETE if retention is switched on. */
  function TailSteps(s: S.System, retention: int): seq<S.Step> {
    if retention <= 0 then [S.ReportMark] else [S.ReportMark, S.Retain(s.clock - retention, s.db.messages.Keys)]
  }

  lemma MarkAndRetain(config: S.Config, s: S.System, retention: int, run: seq<S.Step>) returns (final: S.System)
    requires S.KeysSound(s) && run == TailSteps(s, retention)
    ensures S.Possible(config, s, run) && final == S.Final(config, s, run)
    ensures final.db == AfterRetention(MarkReported(s.db, s.acked, s.clock), retention, s.clock)
    ensures final.delivered == s.delivered
  {
    S.StepKeys(config, s, run[0]);
    if retention <= 0 {
      S.RunOne(config, s, run[0]);
      assert run == [run[0]];
    } else {
      S.RunTwo(config, s, run[0], run[1]);
      assert run == [run[0], run[1]];
    }
    final := S.Final(config, s, run);
  }

  lemma CycleRun(config: S.Config, s: S.System, limit: nat, ids: set<nat>, retention: int, head: seq<S.Step>,
                 tail: seq<S.Step>)
    returns (final: S.System)
    requires S.KeysSound(s) && ids <= Elements(FetchUnreported(s.db, limit))
    requires head == [S.ReportFetch(limit), S.ReportCall(ids)] && tail == TailSteps(s, retention)
    ensures S.Possible(config, s, head + tail) && final == S.Final(config, s, head + tail)
    ensures final.db == AfterRetention(MarkReported(s.db, ids, s.clock), retention, s.clock)
    ensures final.delivered == s.delivered + ids
  {
    var mid := FetchAndCall(config, s, limit, ids, head);
    final := MarkAndRetain(config, mid, retention, tail);
    S.RunAppend(config, s, head, tail);
  }

  /** A completed cycle is a run of the step system whose one call carried what was acknowledged. */
  lemma CycleIsARun(config: S.Config, s: S.System, w: World, limit: nat, retention: int) returns (run: seq<S.Step>)
    requires S.Sound(config, s) && w.markTs == s.clock
    ensures S.Possible(config, s, run) && S.Sound(config, S.Final(config, s, run))
    ensures S.Final(config, s, run).db == AfterCycle(s.db, w, FetchUnreported(s.db, limit), retention)
    ensures S.Final(config, s, run).delivered == s.delivered + Acked(s.db, w, FetchUnreported(s.db, limit))
  {
    var ids := Acked(s.db, w, FetchUnreported(s.db, limit));
    var head := [S.ReportFetch(limit), S.ReportCall(ids)];
    var final := CycleRun(config, s, limit, ids, retention, head, TailSteps(s, retention));
    run := head + TailSteps(s, retention);
    S.RunSound(config, s, run);
  }

  /** An event is carried exactly when its message's tenant has a URL or there is a global one, and answers. */
  lemma CarriedOnFields(db: Db, w: World, page: seq<nat>, k: nat)
    requires Eligible(db, k)
    ensures var t := B.Owner(db.messages[db.events[k].messagePk].tenantId);
            k in Acked(db, w, page) <==>
              && k in page && t in w.tenants && (w.tenants[t].hasUrl || w.globalUrl)
              && w.withEvents(t).Reached?
  {
  }

  /**
    What retention removes after a cycle: with a positive period, exactly the processed messages that
    have events, all of them reported longer ago than the period; without, none.
   */
  lemma CycleRemovesExactly(db: Db, w: World, page: seq<nat>, retention: int, pk: Pk)
    requires pk in db.messages
    ensures var db' := AfterCycle(db, w, page, retention);
            pk !in db'.messages <==>
              && retention > 0 && db.messages[pk].smtpTs.Some?
              && (exists k :: 0 <= k < |db'.events| && db'.events[k].messagePk == pk)
              && forall k :: 0 <= k < |db'.events| && db'.events[k].messagePk == pk ==>
                   db'.events[k].reportedTs.Some? && w.markTs - db'.events[k].reportedTs.value > retention
  {
    var marked := MarkReported(db, Acked(db, w, page), w.markTs);
    RetentionExact(marked, w.markTs - retention, marked.messages.Keys, pk);
  }

  // ---------------------------------------------------------------- tenants that never answer

  /** The tables after a number of cycles. */
  function AfterCycles(db: Db, worlds: seq<World>, limit: nat, retention: int): Db {
    if worlds == [] then db
    else
      var before, w := AfterCycles(db, worlds[..|worlds| - 1], limit, retention), worlds[|worlds| - 1];
      AfterCycle(before, w, FetchUnreported(before, limit), retention)
  }

  /** No tenant of a page has a successful call. */
  predicate Silent(db: Db, w: World, page: seq<nat>) {
    forall k :: k in page ==> !Delivers(w, TenantOfEvent(db, k))
  }

  /** A cycle without a successful call leaves the log and the page as they are. */
  lemma SilentCycle(db: Db, w: World, limit: nat, retention: int)
    requires Silent(db, w, FetchUnreported(db, limit))
    ensures var db' := AfterCycle(db, w, FetchUnreported(db, limit), retention);
            && db'.events == db.events && FetchUnreported(db', limit) == FetchUnreported(db, limit)
            && forall k: nat :: Eligible(db, k) ==> TenantOfEvent(db', k) == TenantOfEvent(db, k)
  {
    var page := FetchUnreported(db, limit);
    assert Acked(db, w, page) == {};
    var marked := MarkReported(db, {}, w.markTs);
    assert marked.events == db.events && marked == db;
    var db' := AfterRetention(db, retention, w.markTs);
    forall k: nat
      ensures Eligible(db', k) <==> Eligible(db, k)
    {
      if Eligible(db, k) && retention > 0 {
        RetentionExact(db, w.markTs - retention, db.messages.Keys, db.events[k].messagePk);
      }
    }
    assert UnreportedRanking(db') == UnreportedRanking(db);
  }

  /**
    Reporting can starve: while no tenant with an event on the page has a successful call, every
    cycle fetches the same page, and no event outside it is carried, whoever its tenant is.
   */
  lemma {:induction false} SilentTenantsHoldThePage(db: Db, worlds: seq<World>, limit: nat, retention: int)
    requires forall i :: 0 <= i < |worlds| ==> Silent(db, worlds[i], FetchUnreported(db, limit))
    ensures var db' := AfterCycles(db, worlds, limit, retention);
            && db'.events == db.events && FetchUnreported(db', limit) == FetchUnreported(db, limit)
            && forall k: nat :: Eligible(db, k) ==> Eligible(db', k) && TenantOfEvent(db', k) == TenantOfEvent(db, k)
  {
    if worlds != [] {
      var n := |worlds| - 1;
      SilentTenantsHoldThePage(db, worlds[..n], limit, retention);
      var before := AfterCycles(db, worlds[..n], limit, retention);
      assert Silent(before, worlds[n], FetchUnreported(before, limit)) by {
        FetchUnreportedSpec(db, limit);
        forall k | k in FetchUnreported(db, limit)
          ensures Eligible(db, k)
        {
          var i :| 0 <= i < |FetchUnreported(db, limit)| && FetchUnreported(db, limit)[i] == k;
        }
      }
      SilentCycle(before, worlds[n], limit, retention);
      StillEligible(before, worlds[n], limit, retention);
    }
  }

  lemma StillEligible(db: Db, w: World, limit: nat, retention: int)
    requires Silent(db, w, FetchUnreported(db, limit))
    ensures forall k: nat :: Eligible(db, k) ==> Eligible(AfterCycle(db, w, FetchUnreported(db, limit), retention), k)
  {
    forall k: nat | Eligible(db, k)
      ensures Eligible(AfterCycle(db, w, FetchUnreported(db, limit), retention), k)
    {
      CycleMarksExactlyCarried(db, w, limit, retention, k);
    }
  }

  // ---------------------------------------------------------------- do not disturb

  /**
    What the reporter remembers, all of it in memory: the sync times, the tenant it was told to call
    now, and the one the current cycle is for.
   */
  datatype Reporter = Reporter(lastSync: map<B.Owner, int>, runNow: Option<B.Owner>, target: Option<B.Owner>)

  /** A cycle begins, and turns to one tenant after the other; it is woken; the process restarts. */
  datatype Turn =
    | Begin
    | Busy(world: World, tenant: B.Owner)
    | Idle(world: World, busy: set<B.Owner>, tenant: B.Owner)
    | Woken(target: Option<B.Owner>)
    | Restart

  function AfterTurn(r: Reporter, turn: Turn): Reporter {
    match turn
    case Begin => Reporter(r.lastSync, None, r.runNow)
    case Busy(w, t) =>
      r.(lastSync := if Delivers(w, t) then r.lastSync[t := Stamp(w.withEvents(t), w.now)] else r.lastSync)
    case Idle(w, busy, t) =>
      r.(lastSync := if IdleDue(w, r.lastSync, r.target, busy, t) && w.idle(t).Reached?
                     then r.lastSync[t := Stamp(w.idle(t), w.now)] else r.lastSync)
    case Woken(t) => if Wakes(t) then r.(lastSync := r.lastSync[t.value := 0], runNow := t) else r
    case Restart => Reporter(map[], None, None)
  }

  predicate Wakes(target: Option<B.Owner>) {
    target.Some? && target.value.id != ""
  }

  function Run(r: Reporter, turns: seq<Turn>): Reporter {
    if turns == [] then r else AfterTurn(Run(r, turns[..|turns| - 1]), turns[|turns| - 1])
  }

  function BusyTurns(w: World, order: seq<B.Owner>): (turns: seq<Turn>)
    ensures |turns| == |order|
  {
    seq(|order|, i requires 0 <= i < |order| => Busy(w, order[i]))
  }

  function IdleTurns(w: World, busy: set<B.Owner>, listing: seq<B.Owner>): (turns: seq<Turn>)
    ensures |turns| == |listing|
  {
    seq(|listing|, i requires 0 <= i < |listing| => Idle(w, busy, listing[i]))
  }

  /** A whole cycle. */
  function CycleTurns(w: World, order: seq<B.Owner>, listing: seq<B.Owner>): (turns: seq<Turn>)
    ensures |turns| == 1 + |order| + |listing|
  {
    [Begin] + BusyTurns(w, order) + IdleTurns(w, Elements(order), listing)
  }

  lemma {:induction false} RunConcat(r: Reporter, first: seq<Turn>, second: seq<Turn>)
    ensures Run(r, first + second) == Run(Run(r, first), second)
  {
    if second == [] {
      assert first + second == first;
    } else {
      var n := |second| - 1;
      RunConcat(r, first, second[..n]);
      assert (first + second)[..|first| + n] == first + second[..n];
    }
  }

  lemma {:induction false} BusyRun(r: Reporter, w: World, order: seq<B.Owner>)
    ensures Run(r, BusyTurns(w, order)) == r.(lastSync := SyncedBy(r.lastSync, w, order))
  {
    if order != [] {
      var n := |order| - 1;
      BusyRun(r, w, order[..n]);
      assert BusyTurns(w, order)[..n] == BusyTurns(w, order[..n]);
    }
  }

  lemma {:induction false} IdleRun(r: Reporter, w: World, busy: set<B.Owner>, listing: seq<B.Owner>)
    ensures Run(r, IdleTurns(w, busy, listing)) == r.(lastSync := SyncedIdle(r.lastSync, w, r.target, busy, listing))
  {
    if listing != [] {
      var n := |listing| - 1;
      IdleRun(r, w, busy, listing[..n]);
      assert IdleTurns(w, busy, listing)[..n] == IdleTurns(w, busy, listing[..n]);
    }
  }

  /** The turns of a cycle up to the `n`-th tenant with events, or the `m`-th idle one. */
  lemma BusyPart(r: Reporter, w: World, order: seq<B.Owner>, listing: seq<B.Owner>, n: nat)
    requires n <= |order|
    ensures CycleTurns(w, order, listing)[..1 + n] == [Begin] + BusyTurns(w, order[..n])
    ensures Run(r, CycleTurns(w, order, listing)[..1 + n])
         == Reporter(SyncedBy(r.lastSync, w, order[..n]), None, r.runNow)
  {
    assert CycleTurns(w, order, listing)[..1 + n] == [Begin] + BusyTurns(w, order[..n]);
    RunConcat(r, [Begin], BusyTurns(w, order[..n]));
    assert [Begin][..0] == [];
    assert Run(r, [Begin]) == Reporter(r.lastSync, None, r.runNow);
    BusyRun(Run(r, [Begin]), w, order[..n]);
  }

  lemma IdlePart(r: Reporter, w: World, order: seq<B.Owner>, listing: seq<B.Owner>, m: nat)
    requires m <= |listing|
    ensures var turns := CycleTurns(w, order, listing)[..1 + |order| + m];
            Run(r, turns).lastSync
            == SyncedIdle(SyncedBy(r.lastSync, w, order), w, r.runNow, Elements(order), listing[..m])
  {
    var head := CycleTurns(w, order, listing)[..1 + |order|];
    var tail := IdleTurns(w, Elements(order), listing[..m]);
    assert CycleTurns(w, order, listing)[..1 + |order| + m] == head + tail;
    assert order[..|order|] == order;
    BusyPart(r, w, order, listing, |order|);
    RunConcat(r, head, tail);
    IdleRun(Run(r, head), w, Elements(order), listing[..m]);
  }

  /** The turn calls the tenant. */
  predicate Called(r: Reporter, turn: Turn, t: B.Owner) {
    match turn
    case Busy(w, u) => u == t && Callable(w, t)
    case Idle(w, busy, u) => u == t && IdleDue(w, r.lastSync, r.target, busy, t)
    case _ => false
  }

  predicate CalledDuring(r: Reporter, turns: seq<Turn>, t: B.Owner) {
    exists i :: 0 <= i < |turns| && Called(Run(r, turns[..i]), turns[i], t)
  }

  /** The tenant was woken, or the reporter has forgotten what it answered. */
  predicate Roused(turns: seq<Turn>, t: B.Owner) {
    exists i :: 0 <= i < |turns| && (turns[i].Restart? || (turns[i] == Woken(Some(t)) && t.id != ""))
  }

  /** The tenant has no events, and its turns come before five minutes after time `until` (and after 1970). */
  predicate Quiet(turn: Turn, t: B.Owner, until: int) {
    && (turn.Busy? ==> turn.tenant != t)
    && (turn.Idle? && turn.tenant == t ==> SYNC_INTERVAL <= turn.world.now < until + SYNC_INTERVAL)
  }

  function SyncOf(r: Reporter, t: B.Owner): int {
    if t in r.lastSync then r.lastSync[t] else 0
  }

  /** Until it is called, a tenant has the time it answered, or zero once it was roused. */
  lemma {:induction false} SyncUntilCalled(r: Reporter, turns: seq<Turn>, t: B.Owner)
    requires forall i :: 0 <= i < |turns| ==> Quiet(turns[i], t, SyncOf(r, t))
    requires !CalledDuring(r, turns, t)
    ensures SyncOf(Run(r, turns), t) == if Roused(turns, t) then 0 else SyncOf(r, t)
  {
    if turns != [] {
      var n := |turns| - 1;
      var front := turns[..n];
      assert !CalledDuring(r, front, t) by {
        forall i | 0 <= i < n
          ensures !Called(Run(r, front[..i]), front[i], t)
        {
          assert front[..i] == turns[..i];
        }
      }
      SyncUntilCalled(r, front, t);
      RousedFront(turns, t);
      assert !Called(Run(r, front), turns[n], t);
    }
  }

  lemma RousedFront(turns: seq<Turn>, t: B.Owner)
    requires turns != []
    ensures var last := turns[|turns| - 1];
            Roused(turns, t) <==>
              Roused(turns[..|turns| - 1], t) || last.Restart? || (last == Woken(Some(t)) && t.id != "")
  {
    var front := turns[..|turns| - 1];
    if Roused(front, t) {
      var i :| 0 <= i < |front| && (front[i].Restart? || (front[i] == Woken(Some(t)) && t.id != ""));
      assert turns[i] == front[i];
    }
  }

  /**
    Do not disturb, exactly.  A tenant answered with a time.  Before five minutes after it, and
    while the tenant has no events and is not called, a turn that could call it does so if and only
    if it was woken since, or the process was restarted.
   */
  lemma DoNotDisturbIff(r: Reporter, turns: seq<Turn>, turn: Turn, t: B.Owner)
    requires forall i :: 0 <= i < |turns| ==> Quiet(turns[i], t, SyncOf(r, t))
    requires !CalledDuring(r, turns, t)
    requires turn.Idle? && turn.tenant == t && Quiet(turn, t, SyncOf(r, t))
    requires IdleDue(turn.world, map[], Run(r, turns).target, turn.busy, t)
    ensures Called(Run(r, turns), turn, t) <==> Roused(turns, t)
  {
    SyncUntilCalled(r, turns, t);
  }

  /** So over any number of cycles, and whatever else is woken, it is left alone until then. */
  lemma {:induction false} DoNotDisturb(r: Reporter, turns: seq<Turn>, t: B.Owner)
    requires forall i :: 0 <= i < |turns| ==> Quiet(turns[i], t, SyncOf(r, t))
    requires !Roused(turns, t)
    ensures !CalledDuring(r, turns, t) && SyncOf(Run(r, turns), t) == SyncOf(r, t)
  {
    if turns != [] {
      var n := |turns| - 1;
      var front := turns[..n];
      RousedFront(turns, t);
      DoNotDisturb(r, front, t);
      assert !Called(Run(r, front), turns[n], t);
      forall i | 0 <= i < |turns|
        ensures !Called(Run(r, turns[..i]), turns[i], t)
      {
        if i < n {
          assert turns[..i] == front[..i] && turns[i] == front[i];
          assert !Called(Run(r, front[..i]), front[i], t);
        }
      }
      SyncUntilCalled(r, turns, t);
    }
  }

  /**
    Which turns call a tenant: one with events, if the tenant has a URL or there is a global one; an
    idle one, if the tenant is active with a URL, was not called for events, is wanted, and was last
    called, or asked to be, at least 300 seconds ago.
   */
  lemma CalledOnFields(r: Reporter, turn: Turn, t: B.Owner)
    ensures Called(r, turn, t) <==>
              || (turn.Busy? && turn.tenant == t && t in turn.world.tenants
                  && (turn.world.tenants[t].hasUrl || turn.world.globalUrl))
              || (turn.Idle? && turn.tenant == t && t in turn.world.tenants
                  && turn.world.tenants[t].active && turn.world.tenants[t].hasUrl && t.id != "" && t !in turn.busy
                  && (r.target == None || r.target == Some(t))
                  && turn.world.now - (if t in r.lastSync then r.lastSync[t] else 0) >= 300)
  {
  }

  /** What a call leaves: the time answered, if it is given and not zero, else the time of the call. */
  lemma AnswerSetsSync(r: Reporter, turn: Turn, t: B.Owner)
    requires Called(r, turn, t)
    ensures var reply := if turn.Busy? then turn.world.withEvents(t) else turn.world.idle(t);
            var r' := AfterTurn(r, turn);
            && (reply.Reached? && reply.nextSync.Some? && reply.nextSync.value != 0 ==>
                  SyncOf(r', t) == reply.nextSync.value)
            && (reply.Reached? && (reply.nextSync.None? || reply.nextSync.value == 0) ==>
                  SyncOf(r', t) == turn.world.now)
            && (!reply.Reached? ==> r' == r)
            && forall u :: u != t ==> SyncOf(r', u) == SyncOf(r, u)
  {
  }

  /**
    Do not disturb, from the answer on: a tenant that is called and answers with time `until` is not
    called again before `until` + 300, while it has no events, is not woken and nothing restarts.
   */
  lemma AnsweredTimeIsKept(r: Reporter, turn: Turn, turns: seq<Turn>, t: B.Owner, until: int)
    requires Called(r, turn, t) && until != 0
    requires var reply := if turn.Busy? then turn.world.withEvents(t) else turn.world.idle(t);
             reply.Reached? && reply.nextSync == Some(until)
    requires forall i :: 0 <= i < |turns| ==>
               && !turns[i].Restart? && turns[i] != Woken(Some(t))
               && (turns[i].Busy? ==> turns[i].tenant != t)
               && (turns[i].Idle? && turns[i].tenant == t ==> 300 <= turns[i].world.now < until + 300)
    ensures forall i :: 0 <= i < |turns| ==> !Called(Run(AfterTurn(r, turn), turns[..i]), turns[i], t)
  {
    var answered := AfterTurn(r, turn);
    AnswerSetsSync(r, turn, t);
    assert !Roused(turns, t);
    assert forall i :: 0 <= i < |turns| ==> Quiet(turns[i], t, SyncOf(answered, t));
    DoNotDisturb(answered, turns, t);
  }

  /**
    A wake-up for one tenant makes it due at once, whatever time it answered, and the next cycle is
    for it alone: no other tenant is called without events.
   */
  lemma WokenCycle(r: Reporter, t: B.Owner, w: World, busy: set<B.Owner>, u: B.Owner)
    requires t.id != ""
    ensures var next := AfterTurn(AfterTurn(r, Woken(Some(t))), Begin);
            && next.target == Some(t) && next.runNow == None && SyncOf(next, t) == 0
            && (u != t ==> SyncOf(next, u) == SyncOf(r, u) && !Called(next, Idle(w, busy, u), u))
            && (Called(next, Idle(w, busy, t), t) <==>
                  && t in w.tenants && w.tenants[t].active && w.tenants[t].hasUrl && t !in busy && w.now >= 300)
    ensures AfterTurn(r, Woken(None)) == r
  {
  }

  /** A cycle raises in its first part exactly when a tenant with events that is called answers so. */
  lemma BusyCrashOnFields(w: World, order: seq<B.Owner>)
    ensures !NoCrash(w, order) <==>
              exists t :: t in order && t in w.tenants && (w.tenants[t].hasUrl || w.globalUrl)
                          && w.withEvents(t).Crashed?
  {
    if !NoCrash(w, order) {
      var i :| 0 <= i < |order| && Callable(w, order[i]) && w.withEvents(order[i]).Crashed?;
      assert order[i] in order;
    }
  }
}
