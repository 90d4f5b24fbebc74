/**
  Dispatching one message (`_dispatch_message` and `_send_with_limits` in
  src/core/mail_proxy/smtp/sender.py), on the tables and the limiter.  Building the message,
  resolving the account and SMTP itself are answers from outside.  What one uninterrupted
  dispatch does is then shown to be a run of the interleaved step system.
 */
module Sender {
  import opened Options
  import opened MailStore
  import opened Sequences
  import R = RateLimiting
  import S = SendSystem
  import B = BatchSelection
  import OrderedQuery

  /**
    The server's answer arrives, or the client sees a failure, and then whether the server took
    the message all the same, and the retry delay if one is due.
   */
  datatype SmtpAnswer = Delivered | Failed(taken: bool, delay: Option<int>)

  /**
    Building the message succeeds, fails for a missing field or attachment, which is recorded, or
    raises anything else, such as for headers that are no dictionary, which ends the dispatch.
   */
  datatype Build = Built | Unbuildable | Raised

  /**
    The outside answers one dispatch meets: can the message be built, which account does it
    resolve to, what does SMTP say; and the clock readings along the way.
   */
  datatype Circumstances = Circumstances(
    build: Build,
    account: Option<R.Account>,
    smtp: SmtpAnswer,
    retryPayload: string,
    cycleTs: int,
    checkTs: int,
    doneTs: int)

  /** The event that a dispatch records, if it records one. */
  function Outcome(pk: Pk, c: Circumstances, l: R.Ledger): Option<Event> {
    match c.build
    case Raised => None
    case Unbuildable => Some(Event(pk, Error, c.cycleTs, None, None))
    case Built => Some(SendOutcome(pk, c, l))
  }

  function SendOutcome(pk: Pk, c: Circumstances, l: R.Ledger): Event {
    if c.account.None? then Event(pk, Error, c.checkTs, None, None)
    else match R.Decide(c.account.value, l, c.checkTs)
      case Blocked(until, reject) =>
        if reject then Event(pk, Error, c.checkTs, None, None) else Event(pk, Deferred, c.checkTs, Some(until), None)
      case Granted =>
        match c.smtp
        case Delivered => Event(pk, Sent, c.doneTs, None, None)
        case Failed(_, None) => Event(pk, Error, c.doneTs, None, None)
        case Failed(_, Some(delay)) => Event(pk, Deferred, c.doneTs, Some(c.doneTs + delay), None)
  }

  predicate Reserves(c: Circumstances, l: R.Ledger) {
    c.build.Built? && c.account.Some? && R.Decide(c.account.value, l, c.checkTs).Granted?
  }

  predicate Retries(c: Circumstances, l: R.Ledger) {
    Reserves(c, l) && c.smtp.Failed? && c.smtp.delay.Some?
  }

  function AfterSend(db: Db, pk: Pk, c: Circumstances, l: R.Ledger): Db {
    var stored := if Retries(c, l) then db.(messages := UpdatePayload(db.messages, pk, c.retryPayload)) else db;
    var e := Outcome(pk, c, l);
    if e.Some? then AddEvent(stored, e.value) else stored
  }

  function AfterDispatch(db: Db, pk: Pk, c: Circumstances, l: R.Ledger): Db {
    AfterSend(db.(messages := ClearDeferred(db.messages, pk)), pk, c, l)
  }

  function LedgerAfter(c: Circumstances, l: R.Ledger): R.Ledger {
    if !c.build.Built? || c.account.None? then l
    else
      var checked := R.AfterCheck(c.account.value, l, c.checkTs);
      if !Reserves(c, l) then checked
      else if c.smtp.Delivered? then R.AfterLog(checked, c.doneTs)
      else R.AfterRelease(checked)
  }

  method SendWithLimits(store: MailStore, limiter: R.RateLimiter, pk: Pk, a: R.Account, c: Circumstances)
    requires c.build.Built? && c.account == Some(a)
    modifies store, limiter
    ensures store.Value() == AfterSend(old(store.Value()), pk, c, old(limiter.LedgerOf(a.id)))
    ensures limiter.LedgerOf(a.id) == LedgerAfter(c, old(limiter.LedgerOf(a.id)))
    ensures forall other :: other != a.id ==> limiter.LedgerOf(other) == old(limiter.LedgerOf(other))
  {
    var decision := limiter.CheckAndPlan(a, c.checkTs);
    if decision.Blocked? {
      if decision.reject {
        store.Add(Event(pk, Error, c.checkTs, None, None));
        return;
      }
      store.Add(Event(pk, Deferred, c.checkTs, Some(decision.until), None));
      return;
    }
    if c.smtp.Failed? {
      limiter.ReleaseSlot(a.id);
      if c.smtp.delay.Some? {
        store.UpdatePayloadRow(pk, c.retryPayload);
        store.Add(Event(pk, Deferred, c.doneTs, Some(c.doneTs + c.smtp.delay.value), None));
      } else {
        store.Add(Event(pk, Error, c.doneTs, None, None));
      }
      return;
    }
    store.Add(Event(pk, Sent, c.doneTs, None, None));
    limiter.LogSend(a.id, c.doneTs);
  }

  /** `id` is the account id whose ledger the message counts against. */
  method DispatchMessage(store: MailStore, limiter: R.RateLimiter, pk: Pk, id: string, c: Circumstances)
    requires c.account.Some? ==> c.account.value.id == id
    modifies store, limiter
    ensures store.Value() == AfterDispatch(old(store.Value()), pk, c, old(limiter.LedgerOf(id)))
    ensures limiter.LedgerOf(id) == LedgerAfter(c, old(limiter.LedgerOf(id)))
    ensures forall other :: other != id ==> limiter.LedgerOf(other) == old(limiter.LedgerOf(other))
  {
    store.ClearDeferredRow(pk);
    if c.build.Raised? {
      return;
    }
    if c.build.Unbuildable? {
      store.Add(Event(pk, Error, c.cycleTs, None, None));
      return;
    }
    if c.account.None? {
      store.Add(Event(pk, Error, c.checkTs, None, None));
      return;
    }
    SendWithLimits(store, limiter, pk, c.account.value, c);
  }

  // ---------------------------------------------------------------- what one dispatch does

  /** Whether the mail server ends up with the message, the client knowing it or not. */
  predicate ServerTook(c: Circumstances, l: R.Ledger) {
    Reserves(c, l) && (c.smtp.Delivered? || c.smtp.taken)
  }

  /**
    A dispatch records exactly one event, about its own message, unless building the message raised,
    and then none.  The event is "sent" exactly when the server took the message and its answer
    arrived, and then, and only then, a send is logged.  A reservation never outlives the dispatch.
   */
  lemma DispatchEffect(db: Db, pk: Pk, c: Circumstances, l: R.Ledger)
    requires l.inFlight >= 0
    requires c.account.Some? && !R.Limited(c.account.value) ==> l.inFlight == 0
    ensures var db' := AfterDispatch(db, pk, c, l);
            && |db'.events| == |db.events| + (if c.build.Raised? then 0 else 1)
            && db'.events[..|db.events|] == db.events
            && (!c.build.Raised? ==>
                  && db'.events[|db.events|].messagePk == pk
                  && (db'.events[|db.events|].kind.Sent? <==> ServerTook(c, l) && c.smtp.Delivered?))
            && (c.build.Raised? ==> !ServerTook(c, l))
            && db'.messages.Keys == db.messages.Keys
            && forall q :: q in db.messages && q != pk ==> db'.messages[q] == db.messages[q]
    ensures LedgerAfter(c, l).inFlight == l.inFlight
    ensures c.account.Some? ==>
              var before :=
                if R.Limited(c.account.value) && c.build.Built? then R.Prune(l.history, c.checkTs) else l.history;
              LedgerAfter(c, l).history == before
                  + (if ServerTook(c, l) && c.smtp.Delivered? then [c.doneTs] else [])
  {
  }

  /**
    What becomes of a message whose building raises: it is ready again at once, whatever deferral
    it had, and dispatching it again changes nothing, so it comes back in every cycle.
   */
  lemma RaisedComesBack(db: Db, pk: Pk, c: Circumstances, l: R.Ledger, limit: nat, now: int, f: PriorityFilter,
                        suspended: Suspensions)
    requires c.build.Raised? && pk in db.messages && |db.messages| <= limit
    requires Ready(db.messages[pk].(deferredTs := None), now, f, suspended)
    ensures var db' := AfterDispatch(db, pk, c, l);
            && db'.events == db.events
            && pk in FetchReady(db'.messages, limit, now, f, suspended)
            && forall c': Circumstances, l': R.Ledger :: c'.build.Raised? ==> AfterDispatch(db', pk, c', l') == db'
  {
    var ms := ClearDeferred(db.messages, pk);
    S.SameSize(db.messages, ms);
    S.PendingIsFetched(ms, pk, limit, now, f, suspended);
    assert ClearDeferred(ms, pk) == ms;
  }

  /** The steps of an uninterrupted dispatch up to the server's answer, if it reserves a slot. */
  function HeadSteps(pk: Pk, c: Circumstances): seq<S.Step>
    requires c.account.Some?
  {
    [S.Clear(pk), S.Check(pk, c.account.value.id), S.Tick(c.doneTs)]
  }

  function TailSteps(pk: Pk, c: Circumstances): seq<S.Step> {
    match c.smtp
    case Delivered => [S.SmtpOk(pk), S.RecordSent(pk), S.LogSend(pk)]
    case Failed(taken, None) => [S.SmtpFailed(pk, S.GiveUp, taken), S.Conclude(pk, c.doneTs)]
    case Failed(taken, Some(delay)) =>
      [S.SmtpFailed(pk, S.Retry(c.doneTs + delay), taken), S.StorePayload(pk, c.retryPayload), S.Conclude(pk, c.doneTs)]
  }

  /** The steps that an uninterrupted dispatch takes in the interleaved system. */
  function StepsOf(pk: Pk, c: Circumstances, l: R.Ledger): seq<S.Step> {
    if c.build.Raised? then [S.Clear(pk), S.Abandon(pk, false)]
    else if c.build.Unbuildable? then [S.Clear(pk), S.CannotSend(pk), S.Conclude(pk, c.cycleTs)]
    else if c.account.None? then [S.Clear(pk), S.CannotSend(pk), S.Conclude(pk, c.checkTs)]
    else if !Reserves(c, l) then [S.Clear(pk), S.Check(pk, c.account.value.id), S.Conclude(pk, c.checkTs)]
    else HeadSteps(pk, c) + TailSteps(pk, c)
  }

  /** A dispatch is one acceptance by the server at most, and one exactly when the server took the message. */
  lemma DispatchAcceptances(pk: Pk, c: Circumstances, l: R.Ledger)
    ensures S.Acceptances(StepsOf(pk, c, l), pk) == if ServerTook(c, l) then 1 else 0
  {
    var run := StepsOf(pk, c, l);
    if Reserves(c, l) {
      SkipThree(run, pk);
      assert run[3..] == TailSteps(pk, c);
      TailAcceptances(pk, c);
    } else if c.build.Raised? {
      AcceptancesSkip(run, pk);
      AcceptancesSkip(run[1..], pk);
      assert run[1..][1..] == [];
    } else {
      SkipThree(run, pk);
    }
  }

  lemma SkipThree(run: seq<S.Step>, pk: Pk)
    requires |run| >= 3 && forall i :: 0 <= i < 3 ==> !S.Takes(run[i], pk)
    ensures S.Acceptances(run, pk) == S.Acceptances(run[3..], pk)
  {
    AcceptancesSkip(run, pk);
    AcceptancesSkip(run[1..], pk);
    AcceptancesSkip(run[2..], pk);
    assert run[1..][1..] == run[2..] && run[2..][1..] == run[3..];
  }

  lemma TailAcceptances(pk: Pk, c: Circumstances)
    ensures S.Acceptances(TailSteps(pk, c), pk) == if c.smtp.Delivered? || c.smtp.taken then 1 else 0
  {
    var tail := TailSteps(pk, c);
    AcceptancesSkip(tail[1..], pk);
    assert tail[1..][1..] == tail[2..];
    if |tail| == 3 {
      AcceptancesSkip(tail[2..], pk);
      assert tail[2..][1..] == [];
    } else {
      assert tail[2..] == [];
    }
  }

  lemma AcceptancesSkip(run: seq<S.Step>, pk: Pk)
    requires run != [] && !S.Takes(run[0], pk)
    ensures S.Acceptances(run, pk) == S.Acceptances(run[1..], pk)
  {
  }

  /** The task is ready, the account's limits are those configured, and the clock readings are in order. */
  predicate Fits(config: S.Config, s: S.System, pk: Pk, c: Circumstances) {
    && S.InPhase(s, pk, S.Started)
    && (c.account.Some? ==> config(c.account.value.id) == c.account.value)
    && 0 < c.cycleTs <= c.checkTs == s.clock <= c.doneTs
  }

  /** The ledger a message counts against. */
  function LedgerFor(s: S.System, c: Circumstances): R.Ledger {
    if c.account.Some? then S.BookOf(s, c.account.value.id).ledger else R.Ledger([], 0)
  }

  /** `final` is `s` after the dispatch, done in one go. */
  ghost predicate Reached(s: S.System, pk: Pk, c: Circumstances, final: S.System) {
    && final.db == AfterDispatch(s.db, pk, c, LedgerFor(s, c))
    && LedgerFor(final, c) == LedgerAfter(c, LedgerFor(s, c))
    && final.tasks == s.tasks - {pk}
  }

  lemma RaisedRun(config: S.Config, s: S.System, pk: Pk, c: Circumstances)
    requires S.KeysSound(s) && Fits(config, s, pk, c) && c.build.Raised?
    ensures var run := StepsOf(pk, c, LedgerFor(s, c));
            S.Possible(config, s, run) && Reached(s, pk, c, S.Final(config, s, run))
  {
    S.StepKeys(config, s, S.Clear(pk));
    S.ClearChanges(config, s, pk);
    S.AbandonChanges(config, S.Next(config, s, S.Clear(pk)), pk);
    S.RunTwo(config, s, S.Clear(pk), S.Abandon(pk, false));
  }

  /** One step decides on an event, the next records it. */
  lemma DecideRun(config: S.Config, s: S.System, pk: Pk, decide: S.Step, verdict: S.Verdict, ts: int)
    returns (final: S.System)
    requires S.KeysSound(s) && S.InPhase(s, pk, S.Started) && 0 < ts <= s.clock
    requires decide == S.CannotSend(pk) || (decide.Check? && decide.pk == pk)
    requires S.NextTasks(config, s, decide) == s.tasks[pk := S.Concluding(verdict)]
    ensures S.Possible(config, s, [decide, S.Conclude(pk, ts)])
    ensures final == S.Final(config, s, [decide, S.Conclude(pk, ts)])
    ensures final.db == AddEvent(s.db, S.OutcomeEvent(pk, verdict, ts))
    ensures final.tasks == s.tasks - {pk} && final.books == S.NextBooks(config, s, decide)
  {
    S.StepKeys(config, s, decide);
    S.DecideChanges(config, s, decide);
    var mid := S.Next(config, s, decide);
    S.ConcludeChanges(config, mid, pk, ts);
    S.RunTwo(config, s, decide, S.Conclude(pk, ts));
    final := S.Next(config, mid, S.Conclude(pk, ts));
    assert mid.tasks - {pk} == s.tasks - {pk};
  }

  /** What the tables hold does not matter to a decision. */
  lemma SameDecision(config: S.Config, s: S.System, s': S.System, decide: S.Step)
    requires s' == s.(db := s'.db) && (decide.CannotSend? || decide.Check?) && S.Enabled(s, decide)
    ensures S.Enabled(s', decide) && S.NextTasks(config, s', decide) == S.NextTasks(config, s, decide)
    ensures S.NextBooks(config, s', decide) == S.NextBooks(config, s, decide)
  {
  }

  /** A dispatch that ends without a send. */
  lemma ConcludeRun(config: S.Config, s: S.System, pk: Pk, decide: S.Step, verdict: S.Verdict, ts: int)
    returns (final: S.System)
    requires S.KeysSound(s) && S.InPhase(s, pk, S.Started) && 0 < ts <= s.clock
    requires decide == S.CannotSend(pk) || (decide.Check? && decide.pk == pk)
    requires S.NextTasks(config, s, decide) == s.tasks[pk := S.Concluding(verdict)]
    ensures S.Possible(config, s, [S.Clear(pk), decide, S.Conclude(pk, ts)])
    ensures final == S.Final(config, s, [S.Clear(pk), decide, S.Conclude(pk, ts)])
    ensures final.db == AddEvent(s.db.(messages := ClearDeferred(s.db.messages, pk)), S.OutcomeEvent(pk, verdict, ts))
    ensures final.tasks == s.tasks - {pk} && final.books == S.NextBooks(config, s, decide)
  {
    S.StepKeys(config, s, S.Clear(pk));
    S.ClearChanges(config, s, pk);
    var cleared := S.Next(config, s, S.Clear(pk));
    SameDecision(config, s, cleared, decide);
    final := DecideRun(config, cleared, pk, decide, verdict, ts);
    S.RunCons(config, s, S.Clear(pk), [decide, S.Conclude(pk, ts)]);
    assert [S.Clear(pk)] + [decide, S.Conclude(pk, ts)] == [S.Clear(pk), decide, S.Conclude(pk, ts)];
  }

  lemma UnbuiltRun(config: S.Config, s: S.System, pk: Pk, c: Circumstances)
    requires S.KeysSound(s) && Fits(config, s, pk, c) && (c.build.Unbuildable? || (c.build.Built? && c.account.None?))
    ensures var run := StepsOf(pk, c, LedgerFor(s, c));
            S.Possible(config, s, run) && Reached(s, pk, c, S.Final(config, s, run))
  {
    var ts := if c.build.Built? then c.checkTs else c.cycleTs;
    var final := ConcludeRun(config, s, pk, S.CannotSend(pk), S.GiveUp, ts);
  }

  lemma BlockedRun(config: S.Config, s: S.System, pk: Pk, c: Circumstances)
    requires S.KeysSound(s) && Fits(config, s, pk, c)
    requires c.build.Built? && c.account.Some? && !Reserves(c, LedgerFor(s, c))
    ensures var run := StepsOf(pk, c, LedgerFor(s, c));
            S.Possible(config, s, run) && Reached(s, pk, c, S.Final(config, s, run))
  {
    var decision := R.Decide(c.account.value, LedgerFor(s, c), c.checkTs);
    var verdict := if decision.reject then S.GiveUp else S.Retry(decision.until);
    var final := ConcludeRun(config, s, pk, S.Check(pk, c.account.value.id), verdict, c.checkTs);
  }

  /** The first half of a dispatch that reserves a slot. */
  lemma ReserveRun(config: S.Config, s: S.System, pk: Pk, c: Circumstances) returns (mid: S.System)
    requires S.KeysSound(s) && Fits(config, s, pk, c) && Reserves(c, LedgerFor(s, c))
    ensures S.Possible(config, s, HeadSteps(pk, c)) && mid == S.Final(config, s, HeadSteps(pk, c)) && S.KeysSound(mid)
    ensures mid.db == s.db.(messages := ClearDeferred(s.db.messages, pk)) && mid.clock == c.doneTs
    ensures mid.tasks == s.tasks[pk := S.Holding(c.account.value.id)]
    ensures LedgerFor(mid, c) == R.AfterCheck(c.account.value, LedgerFor(s, c), c.checkTs)
  {
    var check := S.Check(pk, c.account.value.id);
    S.StepKeys(config, s, S.Clear(pk));
    var s1 := S.Next(config, s, S.Clear(pk));
    S.StepKeys(config, s1, check);
    S.RunThree(config, s, S.Clear(pk), s1, check, S.Next(config, s1, check), S.Tick(c.doneTs));
    mid := S.Final(config, s, HeadSteps(pk, c));
  }

  /** What the second half leaves in the tables and in the ledger. */
  function TailDb(db: Db, pk: Pk, c: Circumstances): Db {
    match c.smtp
    case Delivered => AddEvent(db, Event(pk, Sent, c.doneTs, None, None))
    case Failed(_, None) => AddEvent(db, Event(pk, Error, c.doneTs, None, None))
    case Failed(_, Some(delay)) =>
      AddEvent(db.(messages := UpdatePayload(db.messages, pk, c.retryPayload)),
               Event(pk, Deferred, c.doneTs, Some(c.doneTs + delay), None))
  }

  function TailLedger(l: R.Ledger, c: Circumstances): R.Ledger {
    if c.smtp.Delivered? then R.AfterLog(l, c.doneTs) else R.AfterRelease(l)
  }

  ghost predicate TailDone(s: S.System, pk: Pk, c: Circumstances, final: S.System) {
    && final.db == TailDb(s.db, pk, c)
    && LedgerFor(final, c) == TailLedger(LedgerFor(s, c), c)
    && final.tasks == s.tasks - {pk}
  }

  lemma DeliverRun(config: S.Config, s: S.System, pk: Pk, c: Circumstances, run: seq<S.Step>)
    requires S.KeysSound(s) && c.account.Some? && S.InPhase(s, pk, S.Holding(c.account.value.id)) && s.clock == c.doneTs
    requires c.smtp.Delivered? && run == TailSteps(pk, c)
    ensures S.Possible(config, s, run) && TailDone(s, pk, c, S.Final(config, s, run))
  {
    S.StepKeys(config, s, run[0]);
    var s1 := S.Next(config, s, run[0]);
    S.StepKeys(config, s1, run[1]);
    S.RunThree(config, s, run[0], s1, run[1], S.Next(config, s1, run[1]), run[2]);
    assert run == [run[0], run[1], run[2]];
    assert S.Final(config, s, run).tasks == s.tasks - {pk};
  }

  lemma GiveUpRun(config: S.Config, s: S.System, pk: Pk, c: Circumstances, run: seq<S.Step>)
    requires S.KeysSound(s) && c.account.Some? && S.InPhase(s, pk, S.Holding(c.account.value.id))
    requires 0 < s.clock == c.doneTs && c.smtp.Failed? && c.smtp.delay.None? && run == TailSteps(pk, c)
    ensures S.Possible(config, s, run) && TailDone(s, pk, c, S.Final(config, s, run))
  {
    S.StepKeys(config, s, run[0]);
    S.RunTwo(config, s, run[0], run[1]);
    assert run == [run[0], run[1]];
    assert S.Final(config, s, run).tasks == s.tasks - {pk};
  }

  lemma RetryRun(config: S.Config, s: S.System, pk: Pk, c: Circumstances, run: seq<S.Step>)
    requires S.KeysSound(s) && c.account.Some? && S.InPhase(s, pk, S.Holding(c.account.value.id))
    requires 0 < s.clock == c.doneTs && c.smtp.Failed? && c.smtp.delay.Some? && run == TailSteps(pk, c)
    ensures S.Possible(config, s, run) && TailDone(s, pk, c, S.Final(config, s, run))
  {
    S.StepKeys(config, s, run[0]);
    var s1 := S.Next(config, s, run[0]);
    S.StepKeys(config, s1, run[1]);
    S.RunThree(config, s, run[0], s1, run[1], S.Next(config, s1, run[1]), run[2]);
    assert run == [run[0], run[1], run[2]];
    assert S.Final(config, s, run).tasks == s.tasks - {pk};
  }

  lemma TailRun(config: S.Config, s: S.System, pk: Pk, c: Circumstances)
    requires S.KeysSound(s) && c.account.Some? && S.InPhase(s, pk, S.Holding(c.account.value.id))
    requires 0 < s.clock == c.doneTs
    ensures S.Possible(config, s, TailSteps(pk, c)) && TailDone(s, pk, c, S.Final(config, s, TailSteps(pk, c)))
  {
    match c.smtp
    case Delivered => DeliverRun(config, s, pk, c, TailSteps(pk, c));
    case Failed(_, None) => GiveUpRun(config, s, pk, c, TailSteps(pk, c));
    case Failed(_, Some(_)) => RetryRun(config, s, pk, c, TailSteps(pk, c));
  }

  lemma BothHalves(db: Db, pk: Pk, c: Circumstances, l: R.Ledger)
    requires Reserves(c, l)
    ensures AfterDispatch(db, pk, c, l) == TailDb(db.(messages := ClearDeferred(db.messages, pk)), pk, c)
    ensures LedgerAfter(c, l) == TailLedger(R.AfterCheck(c.account.value, l, c.checkTs), c)
  {
  }

  lemma ReservedSteps(pk: Pk, c: Circumstances, l: R.Ledger)
    requires Reserves(c, l)
    ensures StepsOf(pk, c, l) == HeadSteps(pk, c) + TailSteps(pk, c)
  {
  }

  lemma HalvesRun(config: S.Config, s: S.System, pk: Pk, c: Circumstances) returns (mid: S.System, final: S.System)
    requires S.KeysSound(s) && Fits(config, s, pk, c) && Reserves(c, LedgerFor(s, c))
    ensures S.Possible(config, s, HeadSteps(pk, c) + TailSteps(pk, c))
    ensures final == S.Final(config, s, HeadSteps(pk, c) + TailSteps(pk, c))
    ensures TailDone(mid, pk, c, final) && mid.tasks == s.tasks[pk := S.Holding(c.account.value.id)]
    ensures mid.db == s.db.(messages := ClearDeferred(s.db.messages, pk))
    ensures LedgerFor(mid, c) == R.AfterCheck(c.account.value, LedgerFor(s, c), c.checkTs)
  {
    mid := ReserveRun(config, s, pk, c);
    TailRun(config, mid, pk, c);
    S.RunAppend(config, s, HeadSteps(pk, c), TailSteps(pk, c));
    final := S.Final(config, mid, TailSteps(pk, c));
  }

  lemma ReservedRun(config: S.Config, s: S.System, pk: Pk, c: Circumstances)
    requires S.KeysSound(s) && Fits(config, s, pk, c) && Reserves(c, LedgerFor(s, c))
    ensures var run := StepsOf(pk, c, LedgerFor(s, c));
            S.Possible(config, s, run) && Reached(s, pk, c, S.Final(config, s, run))
  {
    ReservedSteps(pk, c, LedgerFor(s, c));
    BothHalves(s.db, pk, c, LedgerFor(s, c));
    var mid, final := HalvesRun(config, s, pk, c);
    assert mid.tasks - {pk} == s.tasks - {pk};
  }

  /**
    What `DispatchMessage` does in one go is a run of the step system: same tables, same ledger,
    task gone.  All that holds in every reachable state therefore holds after it.
   */
  lemma DispatchIsARun(config: S.Config, s: S.System, pk: Pk, c: Circumstances)
    requires S.Sound(config, s) && Fits(config, s, pk, c)
    ensures var run := StepsOf(pk, c, LedgerFor(s, c));
            S.Possible(config, s, run) && Reached(s, pk, c, S.Final(config, s, run))
                && S.Sound(config, S.Final(config, s, run))
  {
    if c.build.Raised? {
      RaisedRun(config, s, pk, c);
    } else if c.build.Unbuildable? || c.account.None? {
      UnbuiltRun(config, s, pk, c);
    } else if !Reserves(c, LedgerFor(s, c)) {
      BlockedRun(config, s, pk, c);
    } else {
      ReservedRun(config, s, pk, c);
    }
    S.RunSound(config, s, StepsOf(pk, c, LedgerFor(s, c)));
  }

  // ---------------------------------------------------------------- order of dispatch

  /** A message as the batch selection sees it. */
  function RowOf(ms: map<Pk, Message>, pk: Pk): B.Row {
    B.Row(pk, B.Owner(if pk in ms && ms[pk].accountId.Some? && ms[pk].accountId.value != ""
                        then ms[pk].accountId.value else "default"))
  }

  function Rows(ms: map<Pk, Message>, pks: seq<Pk>): seq<B.Row> {
    seq(|pks|, i requires 0 <= i < |pks| => RowOf(ms, pks[i]))
  }

  lemma RowsDistinct(ms: map<Pk, Message>, rank: OrderedQuery.Ranking, limit: nat)
    ensures Distinct(Rows(ms, OrderedQuery.Page(rank, limit)))
  {
    OrderedQuery.PageDistinct(rank, limit);
    var page := OrderedQuery.Page(rank, limit);
    forall a, b | 0 <= a < b < |page|
      ensures Rows(ms, page)[a] != Rows(ms, page)[b]
    {
      assert page[a] != page[b];
    }
  }

  /** Of the rows of one owner, those selected rank before those left. */
  lemma SelectedRankFirst(ms: map<Pk, Message>, rank: OrderedQuery.Ranking, limit: nat, size: B.Owner -> int, sent: Pk,
                          left: Pk)
    requires sent in OrderedQuery.Page(rank, limit) && left in OrderedQuery.Page(rank, limit)
    requires RowOf(ms, sent).owner == RowOf(ms, left).owner
    requires var chosen := B.Selected(Rows(ms, OrderedQuery.Page(rank, limit)), size);
             RowOf(ms, sent) in chosen && RowOf(ms, left) !in chosen
    ensures exists i, j :: 0 <= i < j < |OrderedQuery.Page(rank, limit)|
              && OrderedQuery.Page(rank, limit)[i] == sent && OrderedQuery.Page(rank, limit)[j] == left
  {
    var page := OrderedQuery.Page(rank, limit);
    var batch := Rows(ms, page);
    RowsDistinct(ms, rank, limit);
    var i: nat :| i < |page| && page[i] == sent;
    var j: nat :| j < |page| && page[j] == left;
    assert batch[i] == RowOf(ms, sent) && batch[j] == RowOf(ms, left);
    if j < i {
      B.NoOvertaking(batch, size, j, i);
      assert false;
    }
    assert i < j;
  }

  /**
    From a fetched batch each account, "default" where a message names none, sends its most urgent
    messages: a selected one has a smaller priority number than one of the same account that is left
    for a later cycle, or the same and is older, or as old with a smaller key.
   */
  lemma MostUrgentFirst(ms: map<Pk, Message>, limit: nat, now: int, f: PriorityFilter, suspended: Suspensions,
                        size: B.Owner -> int, sent: Pk, left: Pk)
    requires sent in FetchReady(ms, limit, now, f, suspended) && left in FetchReady(ms, limit, now, f, suspended)
    requires sent in ms && left in ms
    requires var a, b := ms[sent].accountId, ms[left].accountId;
             (if a.Some? && a.value != "" then a.value else "default")
             == (if b.Some? && b.value != "" then b.value else "default")
    requires var chosen := B.Selected(Rows(ms, FetchReady(ms, limit, now, f, suspended)), size);
             RowOf(ms, sent) in chosen && RowOf(ms, left) !in chosen
    ensures var a, b := ms[sent], ms[left];
            a.priority < b.priority || (a.priority == b.priority
              && (a.createdAt < b.createdAt || (a.createdAt == b.createdAt && sent < left)))
  {
    var batch := FetchReady(ms, limit, now, f, suspended);
    SelectedRankFirst(ms, ReadyRanking(ms, now, f, suspended), limit, size, sent, left);
    var i, j :| 0 <= i < j < |batch| && batch[i] == sent && batch[j] == left;
    FetchReadyInOrder(ms, limit, now, f, suspended);
  }
}
