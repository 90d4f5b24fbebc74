/**
  The whole sending side as one step system: the dispatcher (src/core/mail_proxy/smtp/sender.py)
  working through a fetched batch in parallel, the rate limiter, submissions that arrive
  meanwhile (src/core/mail_proxy/proxy.py), notices from the bounce and certified-mail
  receivers, the reporter (src/core/mail_proxy/reporting/client_reporter.py), retention and
  deletion by users.

  A step is what happens between two awaits.  Each message of the batch is a task that goes
  through the phases below; tasks interleave freely with each other and with everything else,
  and may end abruptly at any point, and so may the process, which then forgets all but the tables.
 */
module SendSystem {
  import opened Options
  import opened MailStore
  import opened Sequences
  import OrderedQuery
  import R = RateLimiting

  /** The event a task that will not send is about to record. */
  datatype Verdict = GiveUp | Retry(until: int)

  datatype Phase =
    | Started                     // fetched; nothing recorded yet
    | Holding(account: string)    // a slot is reserved; SMTP is under way
    | Accepted(account: string)   // the server took the message; the event is not stored yet
    | Logging(account: string)    // the "sent" event is stored; log_send is still to come
    | Concluding(verdict: Verdict)

  /** A resubmission between reading a row and writing it back; `at` is the log's length at the read. */
  datatype Read = Read(pk: Pk, row: Message, entry: Entry, at: nat)

  /**
    `used` are the message keys ever given out, `page` the events of the reporter's current cycle,
    `acked` those of them a client has acknowledged.  The rest is history that no code stores:
    `delivered` are the events some successful call carried, `orphans` those recorded when their
    message did not exist, `userDeleted` the messages removed on request.  For each account,
    `accepted` are the times since the process started at which the mail server took a message and
    the limiter's slot was kept, `past` the same for the lifetimes of the process before, and
    `unanswered` are the times at which it took one but the client saw a failure.
   */
  datatype System = System(
    db: Db,
    used: set<Pk>,
    clock: int,
    tasks: map<Pk, Phase>,
    books: map<string, R.Book>,
    readRows: map<nat, Read>,
    page: set<nat>,
    acked: set<nat>,
    delivered: set<nat>,
    orphans: set<nat>,
    userDeleted: set<Pk>,
    accepted: map<string, seq<int>>,
    past: seq<Lifetime>,
    unanswered: map<string, seq<int>>)

  datatype Lifetime = Lifetime(accepted: map<string, seq<int>>, ended: int)

  /** The fixed rate-limit record of every account id. */
  type Config = string -> R.Account

  function BookOf(s: System, account: string): R.Book {
    if account in s.books then s.books[account] else R.Opening(0)
  }

  datatype Step =
    | Tick(to: int)
    | Submit(entry: Entry, tenant: Option<string>, uuid: Pk)
    | ReadRow(token: nat, entry: Entry, pk: Pk)
    | WriteRow(token: nat)
    | RejectItem(pk: Pk, ts: int)
    | Notify(pk: Pk, name: string, ts: int)
    | Fetch(limit: nat, now: int, filter: PriorityFilter, suspended: Suspensions,
            chosen: set<Pk>)
    | Clear(pk: Pk)
    | CannotSend(pk: Pk)
    | Check(pk: Pk, account: string)
    | SmtpOk(pk: Pk)
    | SmtpFailed(pk: Pk, verdict: Verdict, taken: bool)   // `taken`: the server has the message all the same
    | StorePayload(pk: Pk, payload: string)
    | Conclude(pk: Pk, ts: int)
    | RecordSent(pk: Pk)
    | LogSend(pk: Pk)
    | Abandon(pk: Pk, taken: bool)
    | ReportFetch(limit: nat)
    | ReportCall(ids: set<nat>)
    | ReportMark
    | Retain(threshold: int, scope: set<Pk>)
    | UserDelete(pk: Pk)
    | Restart   // what the server takes of the sends under way is an `Abandon` each, just before

  predicate InPhase(s: System, pk: Pk, phase: Phase) {
    pk in s.tasks && s.tasks[pk] == phase
  }

  /** No send of the message was recorded since the row was read. */
  predicate Unsent(s: System, r: Read) {
    forall k :: r.at <= k < |s.db.events| && s.db.events[k].messagePk == r.pk ==> !s.db.events[k].kind.Sent?
  }

  /**
    When a step can happen.  A batch is fetched only when the previous one has finished; a row is
    written back only if no send was recorded since it was read.
   */
  predicate Enabled(s: System, step: Step) {
    match step
    case Tick(to) => s.clock <= to
    case Submit(_, _, uuid) => uuid !in s.used
    case ReadRow(token, _, pk) => token !in s.readRows && pk in s.db.messages
    case WriteRow(token) => token in s.readRows && Unsent(s, s.readRows[token])
    case RejectItem(pk, ts) => pk in s.used && 0 < ts <= s.clock
    case Notify(_, _, _) => true
    case Fetch(limit, now, f, suspended, chosen) =>
      && s.tasks == map[]
      && forall pk :: pk in chosen ==> pk in FetchReady(s.db.messages, limit, now, f, suspended)
    case Clear(pk) => InPhase(s, pk, Started)
    case CannotSend(pk) => InPhase(s, pk, Started)
    case Check(pk, _) => InPhase(s, pk, Started)
    case SmtpOk(pk) => pk in s.tasks && s.tasks[pk].Holding?
    case SmtpFailed(pk, _, _) => pk in s.tasks && s.tasks[pk].Holding?
    case StorePayload(pk, _) => pk in s.tasks && s.tasks[pk].Concluding?
    case Conclude(pk, ts) => pk in s.tasks && s.tasks[pk].Concluding? && 0 < ts <= s.clock
    case RecordSent(pk) => pk in s.tasks && s.tasks[pk].Accepted?
    case LogSend(pk) => pk in s.tasks && s.tasks[pk].Logging?
    case Abandon(pk, taken) => pk in s.tasks && (taken ==> s.tasks[pk].Holding?)
    case ReportFetch(_) => true
    case ReportCall(ids) => ids <= s.page
    case ReportMark => true
    case Retain(_, _) => true
    case UserDelete(_) => true
    case Restart => true
  }

  // ---------------------------------------------------------------- what a step does to each part

  function OutcomeEvent(pk: Pk, v: Verdict, ts: int): Event {
    match v
    case GiveUp => Event(pk, Error, ts, None, None)
    case Retry(until) => Event(pk, Deferred, ts, Some(until), None)
  }

  /** The event that a step adds to the log. */
  function Recorded(s: System, step: Step): Option<Event>
    requires Enabled(s, step)
  {
    match step
    case RejectItem(pk, ts) => Some(Event(pk, Error, ts, None, None))
    case Notify(pk, name, ts) => Some(Event(pk, Notice(name), ts, None, None))
    case Conclude(pk, ts) => Some(OutcomeEvent(pk, s.tasks[pk].verdict, ts))
    case RecordSent(pk) => Some(Event(pk, Sent, s.clock, None, None))
    case _ => None
  }

  function NextDb(s: System, step: Step): Db
    requires Unique(s.db.messages) && Enabled(s, step)
  {
    match step
    case Submit(e, tenant, uuid) => s.db.(messages := Submitted(s.db.messages, e, tenant, uuid, s.clock))
    case WriteRow(token) =>
      var r := s.readRows[token];
      s.db.(messages := WriteBack(s.db.messages, r.pk, Overwritten(r.row, r.entry)))
    case Clear(pk) => s.db.(messages := ClearDeferred(s.db.messages, pk))
    case StorePayload(pk, payload) => s.db.(messages := UpdatePayload(s.db.messages, pk, payload))
    case ReportMark => MarkReported(s.db, s.acked, s.clock)
    case Retain(threshold, scope) => RemoveFullyReported(s.db, threshold, scope)
    case UserDelete(pk) => RemoveByPk(s.db, pk)
    case _ => if Recorded(s, step).Some? then AddEvent(s.db, Recorded(s, step).value) else s.db
  }

  function AfterCheck(decision: R.Decision, account: string): Phase {
    match decision
    case Granted => Holding(account)
    case Blocked(until, reject) => Concluding(if reject then GiveUp else Retry(until))
  }

  function NextTasks(config: Config, s: System, step: Step): map<Pk, Phase>
    requires Enabled(s, step)
  {
    match step
    case Fetch(_, _, _, _, chosen) => map pk | pk in chosen :: Started
    case CannotSend(pk) => s.tasks[pk := Concluding(GiveUp)]
    case Check(pk, account) =>
      s.tasks[pk := AfterCheck(R.Decide(config(account), BookOf(s, account).ledger, s.clock), account)]
    case SmtpOk(pk) => s.tasks[pk := Accepted(s.tasks[pk].account)]
    case SmtpFailed(pk, verdict, _) => s.tasks[pk := Concluding(verdict)]
    case RecordSent(pk) => s.tasks[pk := Logging(s.tasks[pk].account)]
    case Conclude(pk, _) => s.tasks - {pk}
    case LogSend(pk) => s.tasks - {pk}
    case Abandon(pk, _) => s.tasks - {pk}
    case Restart => map[]
    case _ => s.tasks
  }

  /** The limiter operation that a step performs, and on which account. */
  function LimiterOp(s: System, step: Step): Option<(string, R.Op)>
    requires Enabled(s, step)
  {
    match step
    case Check(_, account) => Some((account, R.Check(s.clock)))
    case SmtpFailed(pk, _, _) => Some((s.tasks[pk].account, R.Release))
    case LogSend(pk) => Some((s.tasks[pk].account, R.Log(s.clock)))
    case _ => None
  }

  function NextBooks(config: Config, s: System, step: Step): map<string, R.Book>
    requires Enabled(s, step)
  {
    if step.Restart? then map[]
    else
      match LimiterOp(s, step)
      case None => s.books
      case Some((account, op)) => s.books[account := R.Apply(config(account), BookOf(s, account), op)]
  }

  function NextReads(s: System, step: Step): map<nat, Read>
    requires Enabled(s, step)
  {
    match step
    case ReadRow(token, e, pk) => s.readRows[token := Read(pk, s.db.messages[pk], e, |s.db.events|)]
    case WriteRow(token) => s.readRows - {token}
    case Restart => map[]
    case _ => s.readRows
  }

  /** The account on which the server takes a message in this step, its slot being kept. */
  function TakenFor(s: System, step: Step): Option<string>
    requires Enabled(s, step)
  {
    match step
    case SmtpOk(pk) => Some(s.tasks[pk].account)
    case Abandon(pk, taken) => if taken then Some(s.tasks[pk].account) else None
    case _ => None
  }

  /** The account on which the server takes one while the client sees a failure. */
  function UnansweredFor(s: System, step: Step): Option<string>
    requires Enabled(s, step)
  {
    match step
    case SmtpFailed(pk, _, taken) => if taken then Some(s.tasks[pk].account) else None
    case _ => None
  }

  function TimesOf(times: map<string, seq<int>>, account: string): seq<int> {
    if account in times then times[account] else []
  }

  function Noted(times: map<string, seq<int>>, account: Option<string>, clock: int): map<string, seq<int>> {
    if account.None? then times else times[account.value := TimesOf(times, account.value) + [clock]]
  }

  function NextOrphans(s: System, step: Step): set<nat>
    requires Enabled(s, step)
  {
    if Recorded(s, step).Some? && Recorded(s, step).value.messagePk !in s.db.messages then s.orphans + {|s.db.events|}
    else s.orphans
  }

  function NextAcked(s: System, step: Step): set<nat> {
    match step
    case ReportFetch(_) => {}
    case ReportCall(ids) => s.acked + ids
    case ReportMark => {}
    case Restart => {}
    case _ => s.acked
  }

  function NextPage(s: System, step: Step): set<nat> {
    match step
    case ReportFetch(limit) => Elements(FetchUnreported(s.db, limit))
    case Restart => {}
    case _ => s.page
  }

  function Next(config: Config, s: System, step: Step): System
    requires Unique(s.db.messages) && Enabled(s, step)
  {
    System(
      NextDb(s, step),
      if step.Submit? then s.used + {step.uuid} else s.used,
      if step.Tick? then step.to else s.clock,
      NextTasks(config, s, step),
      NextBooks(config, s, step),
      NextReads(s, step),
      NextPage(s, step),
      NextAcked(s, step),
      if step.ReportCall? then s.delivered + step.ids else s.delivered,
      NextOrphans(s, step),
      if step.UserDelete? then s.userDeleted + {step.pk} else s.userDeleted,
      if step.Restart? then map[] else Noted(s.accepted, TakenFor(s, step), s.clock),
      if step.Restart? then s.past + [Lifetime(s.accepted, s.clock)] else s.past,
      Noted(s.unanswered, UnansweredFor(s, step), s.clock))
  }

  // ---------------------------------------------------------------- invariants

  /** Keys are given out once, and the log's status events concern only keys given out. */
  ghost predicate KeysOnce(s: System) {
    && Unique(s.db.messages)
    && s.db.messages.Keys <= s.used
    && s.tasks.Keys <= s.used
    && forall k :: 0 <= k < |s.db.events| && !s.db.events[k].kind.Notice? ==> s.db.events[k].messagePk in s.used
  }

  /** A row that was read is still that message's, if the message is there. */
  predicate ReadSame(s: System, r: Read) {
    && r.pk in s.used
    && (r.pk in s.db.messages ==>
          s.db.messages[r.pk].id == r.row.id && s.db.messages[r.pk].tenantId == r.row.tenantId)
  }

  ghost predicate ReadsSame(s: System) {
    forall t :: t in s.readRows ==> ReadSame(s, s.readRows[t])
  }

  ghost predicate KeysSound(s: System) {
    KeysOnce(s) && ReadsSame(s)
  }

  /** A row that was pending when it was read had no "sent" event then. */
  predicate ReadUnsent(events: seq<Event>, r: Read) {
    r.at <= |events| && (r.row.smtpTs.None? ==> SentCount(events[..r.at], r.pk) == 0)
  }

  ghost predicate ReadsUnsent(s: System) {
    forall t :: t in s.readRows ==> ReadUnsent(s.db.events, s.readRows[t])
  }

  /** A message that is pending, or whose task has not recorded its send, has no "sent" event. */
  predicate SendsSound(s: System, pk: Pk) {
    && SentCount(s.db.events, pk) <= 1
    && (pk in s.db.messages && s.db.messages[pk].smtpTs.None? ==> SentCount(s.db.events, pk) == 0)
    && (pk in s.tasks && !s.tasks[pk].Logging? ==> SentCount(s.db.events, pk) == 0)
  }

  /** A task that has reserved a slot, before and after the server took its message. */
  datatype Stage = Reserving | Handed

  predicate At(phase: Phase, stage: Stage, account: string) {
    match stage
    case Reserving => phase.Holding? && phase.account == account
    case Handed => (phase.Accepted? || phase.Logging?) && phase.account == account
  }

  function TasksAt(tasks: map<Pk, Phase>, stage: Stage, account: string): set<Pk> {
    set pk | pk in tasks && At(tasks[pk], stage, account)
  }

  /**
    Every message the server took is logged, or has a reservation left open for it beside those
    of the tasks still sending.
   */
  predicate Balanced(tasks: map<Pk, Phase>, accepted: seq<int>, b: R.Book, account: string) {
    && |b.full| + |TasksAt(tasks, Handed, account)| <= |accepted|
    && |accepted| - |b.full| + |TasksAt(tasks, Reserving, account)| <= b.open
  }

  /** No window holds more acceptances than logged sends, beyond those not logged yet. */
  ghost predicate Ahead(accepted: seq<int>, full: seq<int>) {
    forall since :: R.CountAfter(accepted, since) <= R.CountAfter(full, since) + |accepted| - |full|
  }

  predicate UpToNow(accepted: seq<int>, clock: int) {
    R.Sorted(accepted) && forall i :: 0 <= i < |accepted| ==> accepted[i] <= clock
  }

  ghost predicate AllFitted(a: R.Account, accepted: seq<int>) {
    forall w: R.Window :: R.EachSendFitted(a, accepted, w)
  }

  ghost predicate AcceptancesSound(a: R.Account, accepted: seq<int>, full: seq<int>, clock: int) {
    UpToNow(accepted, clock) && Ahead(accepted, full) && AllFitted(a, accepted)
  }

  /** An account's book is consistent, and covers every acceptance. */
  ghost predicate BookSound(config: Config, s: System, account: string) {
    && R.Consistent(config(account), BookOf(s, account))
    && BookOf(s, account).clock <= s.clock
    && Balanced(s.tasks, TimesOf(s.accepted, account), BookOf(s, account), account)
    && AcceptancesSound(config(account), TimesOf(s.accepted, account), BookOf(s, account).full, s.clock)
  }

  /** Marked events were delivered; an unmarked one is eligible unless its message is gone. */
  ghost predicate ReportsSound(s: System) {
    && s.acked <= s.delivered
    && (forall k :: 0 <= k < |s.db.events| && s.db.events[k].reportedTs.Some? ==> k in s.delivered)
    && (forall k :: 0 <= k < |s.db.events| && s.db.events[k].reportedTs.None? ==>
          s.db.events[k].messagePk in s.db.messages || s.db.events[k].messagePk in s.userDeleted || k in s.orphans)
  }

  /** In each earlier lifetime, every acceptance fitted the limits as far as that lifetime knew. */
  ghost predicate PastSound(config: Config, past: seq<Lifetime>) {
    forall i, account :: 0 <= i < |past| ==>
        LifetimeSound(config(account), TimesOf(past[i].accepted, account), past[i].ended)
  }

  ghost predicate LifetimeSound(a: R.Account, accepted: seq<int>, ended: int) {
    UpToNow(accepted, ended) && AllFitted(a, accepted)
  }

  ghost predicate Sound(config: Config, s: System) {
    && s.clock > 0
    && KeysSound(s)
    && ReadsUnsent(s)
    && (forall pk :: SendsSound(s, pk))
    && (forall account :: BookSound(config, s, account))
    && PastSound(config, s.past)
    && ReportsSound(s)
  }

  const INITIAL := System(EMPTY_DB, {}, 1, map[], map[], map[], {}, {}, {}, {}, {}, map[], [], map[])

  lemma InitialSound(config: Config)
    ensures Sound(config, INITIAL)
  {
    forall account
      ensures BookSound(config, INITIAL, account)
    {
      NothingBooked(config, INITIAL, account);
    }
  }

  // ---------------------------------------------------------------- keys

  /** Messages keep their ids, so they stay unique. */
  lemma SameIds(ms: map<Pk, Message>, ms': map<Pk, Message>)
    requires Unique(ms) && ms'.Keys <= ms.Keys
    requires forall pk :: pk in ms' ==> ms'[pk].id == ms[pk].id && ms'[pk].tenantId == ms[pk].tenantId
    ensures Unique(ms')
  {
  }

  lemma FetchKeys(s: System, limit: nat, now: int, f: PriorityFilter, suspended: Suspensions, chosen: set<Pk>)
    requires Enabled(s, Fetch(limit, now, f, suspended, chosen))
    ensures forall pk :: pk in chosen ==> pk in s.db.messages && s.db.messages[pk].smtpTs.None?
  {
    FetchReadySpec(s.db.messages, limit, now, f, suspended);
  }

  /** No step changes the id or the tenant of a message, and only a submission adds one. */
  lemma StepIds(s: System, step: Step, pk: Pk)
    requires KeysSound(s) && Enabled(s, step) && pk in NextDb(s, step).messages
    ensures pk in s.db.messages || (step.Submit? && pk == step.uuid)
    ensures pk in s.db.messages ==>
              NextDb(s, step).messages[pk].id == s.db.messages[pk].id
              && NextDb(s, step).messages[pk].tenantId == s.db.messages[pk].tenantId
  {
    if Recorded(s, step).Some? {
      RecordIds(s, Recorded(s, step).value, pk);
    } else {
      match step
      case WriteRow(token) => assert ReadSame(s, s.readRows[token]);
      case _ =>
    }
  }

  lemma RecordIds(s: System, e: Event, pk: Pk)
    requires pk in AddEvent(s.db, e).messages
    ensures pk in s.db.messages
    ensures AddEvent(s.db, e).messages[pk].id == s.db.messages[pk].id
    ensures AddEvent(s.db, e).messages[pk].tenantId == s.db.messages[pk].tenantId
  {
  }

  lemma StepUnique(s: System, step: Step)
    requires KeysSound(s) && Enabled(s, step)
    ensures Unique(NextDb(s, step).messages)
  {
    if !step.Submit? {
      forall pk | pk in NextDb(s, step).messages
        ensures pk in s.db.messages
        ensures NextDb(s, step).messages[pk].id == s.db.messages[pk].id
        ensures NextDb(s, step).messages[pk].tenantId == s.db.messages[pk].tenantId
      {
        StepIds(s, step, pk);
      }
      SameIds(s.db.messages, NextDb(s, step).messages);
    }
  }

  /** The log only grows; old events change in their report time alone, new ones are unreported. */
  lemma StepEvents(s: System, step: Step)
    requires KeysSound(s) && Enabled(s, step)
    ensures var events, events' := s.db.events, NextDb(s, step).events;
            && |events'| == |events| + (if Recorded(s, step).Some? then 1 else 0)
            && (forall k :: 0 <= k < |events| ==> events'[k] == events[k].(reportedTs := events'[k].reportedTs))
            && (Recorded(s, step).Some? ==> events'[|events|] == Recorded(s, step).value)
            && (!step.ReportMark? ==> events <= events')
  {
  }

  lemma StepTaskKeys(config: Config, s: System, step: Step)
    requires KeysSound(s) && Enabled(s, step)
    ensures NextTasks(config, s, step).Keys <= s.used
  {
    match step
    case Fetch(limit, now, f, suspended, chosen) => FetchKeys(s, limit, now, f, suspended, chosen);
    case _ =>
  }

  lemma StepKeysOnce(config: Config, s: System, step: Step)
    requires KeysSound(s) && Enabled(s, step)
    ensures KeysOnce(Next(config, s, step))
    ensures s.used <= Next(config, s, step).used
  {
    var s' := Next(config, s, step);
    StepUnique(s, step);
    StepTaskKeys(config, s, step);
    StepEvents(s, step);
    forall pk | pk in s'.db.messages
      ensures pk in s'.used
    {
      StepIds(s, step, pk);
    }
    forall k | 0 <= k < |s'.db.events| && !s'.db.events[k].kind.Notice?
      ensures s'.db.events[k].messagePk in s'.used
    {
      assert k < |s.db.events| ==> s'.db.events[k].kind == s.db.events[k].kind;
    }
  }

  lemma StepReadSame(config: Config, s: System, step: Step, t: nat)
    requires KeysSound(s) && Enabled(s, step) && t in NextReads(s, step)
    ensures ReadSame(Next(config, s, step), NextReads(s, step)[t])
  {
    var s' := Next(config, s, step);
    var r := NextReads(s, step)[t];
    if t in s.readRows && s.readRows[t] == r {
      assert ReadSame(s, r);
    }
    if r.pk in s'.db.messages {
      StepIds(s, step, r.pk);
    }
  }

  lemma StepKeys(config: Config, s: System, step: Step)
    requires KeysSound(s) && Enabled(s, step)
    ensures KeysSound(Next(config, s, step))
    ensures s.used <= Next(config, s, step).used
  {
    StepKeysOnce(config, s, step);
    var s' := Next(config, s, step);
    forall t | t in s'.readRows
      ensures ReadSame(s', s'.readRows[t])
    {
      StepReadSame(config, s, step, t);
    }
  }

  // ---------------------------------------------------------------- no second send

  lemma {:induction false} NothingSent(events: seq<Event>, pk: Pk)
    requires forall k :: 0 <= k < |events| && events[k].messagePk == pk ==> !events[k].kind.Sent?
    ensures SentCount(events, pk) == 0
  {
    if events != [] {
      NothingSent(events[..|events| - 1], pk);
    }
  }

  lemma {:induction false} NoneSentSince(events: seq<Event>, at: nat, pk: Pk)
    requires at <= |events|
    requires forall k :: at <= k < |events| && events[k].messagePk == pk ==> !events[k].kind.Sent?
    ensures SentCount(events, pk) == SentCount(events[..at], pk)
    decreases |events|
  {
    if at < |events| {
      NoneSentSince(events[..|events| - 1], at, pk);
      assert events[..|events| - 1][..at] == events[..at];
    } else {
      assert events[..at] == events;
    }
  }

  /** The step writes back this message's row, read while it was pending. */
  predicate WritesPending(s: System, step: Step, pk: Pk)
    requires Enabled(s, step)
  {
    step.WriteRow? && s.readRows[step.token].pk == pk && s.readRows[step.token].row.smtpTs.None?
  }

  lemma WrittenUnsent(s: System, step: Step, pk: Pk)
    requires ReadsUnsent(s) && Enabled(s, step) && WritesPending(s, step, pk)
    ensures SentCount(s.db.events, pk) == 0
  {
    var r := s.readRows[step.token];
    assert ReadUnsent(s.db.events, r);
    NoneSentSince(s.db.events, r.at, pk);
  }

  /** Only recording a send adds one to the log. */
  lemma StepSentCount(s: System, step: Step, pk: Pk)
    requires KeysSound(s) && Enabled(s, step)
    ensures SentCount(NextDb(s, step).events, pk)
         == SentCount(s.db.events, pk) + (if step == RecordSent(pk) then 1 else 0)
  {
    var events, events' := s.db.events, NextDb(s, step).events;
    StepEvents(s, step);
    assert events' == events'[..|events|] + events'[|events|..];
    SentCountIgnoresReports(events, events'[..|events|], pk);
    if Recorded(s, step).Some? {
      assert events'[..|events'| - 1] == events'[..|events|];
    } else {
      assert events' == events'[..|events|];
    }
  }

  /**
    A message is pending after a step only if it was, or is new, or its retry was just recorded, or
    its row was read when it was.
   */
  lemma StepPending(s: System, step: Step, pk: Pk)
    requires KeysSound(s) && s.clock > 0 && Enabled(s, step)
    requires pk in NextDb(s, step).messages && NextDb(s, step).messages[pk].smtpTs.None?
    ensures (pk in s.db.messages && s.db.messages[pk].smtpTs.None?) || pk !in s.used
        || (step.Conclude? && step.pk == pk) || WritesPending(s, step, pk)
    ensures step != RecordSent(pk)
  {
    if Recorded(s, step).Some? {
      RecordPending(s.db, Recorded(s, step).value, pk);
    } else {
      match step
      case Submit(e, tenant, uuid) => SubmitKeepsStatus(s.db.messages, e, tenant, uuid, s.clock);
      case _ =>
    }
  }

  lemma RecordPending(db: Db, e: Event, pk: Pk)
    requires pk in AddEvent(db, e).messages && AddEvent(db, e).messages[pk].smtpTs.None?
    ensures pk in db.messages
    ensures db.messages[pk].smtpTs.None? || (e.messagePk == pk && e.kind.Deferred?)
    ensures e.messagePk == pk && e.ts != 0 ==> e.kind.Deferred? || e.kind.Notice?
  {
  }

  /** A task that has not recorded its send did not before, or has just been started. */
  lemma StepWorking(config: Config, s: System, step: Step, pk: Pk)
    requires Enabled(s, step)
    requires pk in NextTasks(config, s, step) && !NextTasks(config, s, step)[pk].Logging?
    ensures (pk in s.tasks && !s.tasks[pk].Logging?) || (pk in s.db.messages && s.db.messages[pk].smtpTs.None?)
    ensures step != RecordSent(pk)
  {
    match step
    case Fetch(limit, now, f, suspended, chosen) => FetchKeys(s, limit, now, f, suspended, chosen);
    case _ =>
  }

  lemma StepSends(config: Config, s: System, step: Step, pk: Pk)
    requires KeysSound(s) && ReadsUnsent(s) && SendsSound(s, pk) && s.clock > 0 && Enabled(s, step)
    ensures SendsSound(Next(config, s, step), pk)
  {
    var db', tasks' := NextDb(s, step), NextTasks(config, s, step);
    StepSentCount(s, step, pk);
    if pk in db'.messages && db'.messages[pk].smtpTs.None? {
      StepPending(s, step, pk);
      if pk !in s.used {
        NothingSent(s.db.events, pk);
      }
      if WritesPending(s, step, pk) {
        WrittenUnsent(s, step, pk);
      }
    }
    if pk in tasks' && !tasks'[pk].Logging? {
      StepWorking(config, s, step, pk);
    }
  }

  lemma ReadUnsentKept(events: seq<Event>, events': seq<Event>, r: Read)
    requires ReadUnsent(events, r) && |events| <= |events'|
    requires forall k :: 0 <= k < |events| ==> events'[k] == events[k].(reportedTs := events'[k].reportedTs)
    ensures ReadUnsent(events', r)
  {
    SentCountIgnoresReports(events[..r.at], events'[..r.at], r.pk);
  }

  lemma StepReads(config: Config, s: System, step: Step)
    requires KeysSound(s) && ReadsUnsent(s) && (forall pk :: SendsSound(s, pk)) && Enabled(s, step)
    ensures ReadsUnsent(Next(config, s, step))
  {
    StepEvents(s, step);
    forall t | t in NextReads(s, step)
      ensures ReadUnsent(NextDb(s, step).events, NextReads(s, step)[t])
    {
      if t in s.readRows && s.readRows[t] == NextReads(s, step)[t] {
        ReadUnsentKept(s.db.events, NextDb(s, step).events, s.readRows[t]);
      } else {
        assert SendsSound(s, step.pk);
        assert s.db.events[..|s.db.events|] == s.db.events;
      }
    }
  }

  // ---------------------------------------------------------------- status

  /** The status read is what the log implied at the read. */
  predicate ReadStatus(events: seq<Event>, r: Read) {
    r.at <= |events| && r.row.smtpTs == StatusOf(events[..r.at], r.pk)
  }

  /** The status column is what the log implies, and every row read was so when it was read. */
  ghost predicate StatusSound(s: System) {
    StatusRefinesLog(s.db) && forall t :: t in s.readRows ==> ReadStatus(s.db.events, s.readRows[t])
  }

  /** A resubmission is written back in time: its message, if it is there, still has the status read. */
  predicate InTime(s: System, step: Step) {
    step.WriteRow? && step.token in s.readRows ==>
      var r := s.readRows[step.token];
      r.at <= |s.db.events| && (r.pk in s.db.messages ==> StillCurrent(s.db.events, r.at, r.pk, r.row.smtpTs))
  }

  lemma ReadStatusKept(events: seq<Event>, events': seq<Event>, r: Read)
    requires ReadStatus(events, r) && |events| <= |events'|
    requires forall k :: 0 <= k < |events| ==> events'[k] == events[k].(reportedTs := events'[k].reportedTs)
    ensures ReadStatus(events', r)
  {
    StatusIgnoresReports(events[..r.at], events'[..r.at], r.pk);
  }

  lemma StepReadStatus(config: Config, s: System, step: Step)
    requires KeysSound(s) && StatusSound(s) && Enabled(s, step)
    ensures forall t :: t in NextReads(s, step) ==> ReadStatus(NextDb(s, step).events, NextReads(s, step)[t])
  {
    StepEvents(s, step);
    forall t | t in NextReads(s, step)
      ensures ReadStatus(NextDb(s, step).events, NextReads(s, step)[t])
    {
      if t in s.readRows && s.readRows[t] == NextReads(s, step)[t] {
        ReadStatusKept(s.db.events, NextDb(s, step).events, s.readRows[t]);
      } else {
        assert s.db.events[..|s.db.events|] == s.db.events;
      }
    }
  }

  /** Exactly when a step keeps the status column what the log implies: unless it writes a row back too late. */
  lemma StepStatusIff(config: Config, s: System, step: Step)
    requires KeysSound(s) && StatusSound(s) && Enabled(s, step)
    ensures StatusRefinesLog(Next(config, s, step).db) <==> InTime(s, step)
    ensures InTime(s, step) ==> StatusSound(Next(config, s, step))
  {
    StepReadStatus(config, s, step);
    if step.WriteRow? {
      WriteStatus(s, step.token);
    } else {
      StepStatus(s, step);
    }
  }

  lemma StepStatus(s: System, step: Step)
    requires KeysSound(s) && StatusRefinesLog(s.db) && Enabled(s, step) && !step.WriteRow?
    ensures StatusRefinesLog(NextDb(s, step))
  {
    if Recorded(s, step).Some? {
      AddEventKeepsStatus(s.db, Recorded(s, step).value);
    } else {
      match step
      case Submit(e, tenant, uuid) =>
        SubmitKeepsStatus(s.db.messages, e, tenant, uuid, s.clock);
        StatusKept(s.db, NextDb(s, step));
      case ReportMark => MarkStatus(s.db, s.acked, s.clock);
      case _ =>
    }
  }

  lemma WriteStatus(s: System, token: nat)
    requires KeysSound(s) && StatusSound(s) && Enabled(s, WriteRow(token))
    ensures StatusRefinesLog(NextDb(s, WriteRow(token))) <==> InTime(s, WriteRow(token))
  {
    var r := s.readRows[token];
    assert ReadStatus(s.db.events, r);
    if r.pk in s.db.messages {
      LateWriteKeepsStatusIff(s.db, r.pk, r.row, r.entry, r.at);
    }
  }

  lemma MarkStatus(db: Db, ids: set<nat>, ts: int)
    requires StatusRefinesLog(db)
    ensures StatusRefinesLog(MarkReported(db, ids, ts))
  {
    forall pk
      ensures StatusOf(MarkReported(db, ids, ts).events, pk) == StatusOf(db.events, pk)
    {
      StatusIgnoresReports(db.events, MarkReported(db, ids, ts).events, pk);
    }
  }

  // ---------------------------------------------------------------- reservations

  lemma DropTask(tasks: map<Pk, Phase>, pk: Pk, stage: Stage, account: string)
    requires pk in tasks
    ensures |TasksAt(tasks - {pk}, stage, account)|
         == |TasksAt(tasks, stage, account)| - (if At(tasks[pk], stage, account) then 1 else 0)
  {
    var others := TasksAt(tasks - {pk}, stage, account);
    if At(tasks[pk], stage, account) {
      assert TasksAt(tasks, stage, account) == others + {pk};
    } else {
      assert TasksAt(tasks, stage, account) == others;
    }
  }

  /** Replacing a task's phase, seen by one account. */
  lemma MoveTask(tasks: map<Pk, Phase>, pk: Pk, phase: Phase, stage: Stage, account: string)
    requires pk in tasks
    ensures |TasksAt(tasks[pk := phase], stage, account)|
         == |TasksAt(tasks, stage, account)|
            - (if At(tasks[pk], stage, account) then 1 else 0) + (if At(phase, stage, account) then 1 else 0)
  {
    assert tasks[pk := phase] - {pk} == tasks - {pk};
    DropTask(tasks, pk, stage, account);
    DropTask(tasks[pk := phase], pk, stage, account);
  }

  lemma HasTask(tasks: map<Pk, Phase>, pk: Pk, stage: Stage, account: string)
    requires pk in tasks && At(tasks[pk], stage, account)
    ensures |TasksAt(tasks, stage, account)| > 0
  {
    assert pk in TasksAt(tasks, stage, account);
  }

  /** The dispatcher keeps the limiter's contract: it settles only what it has reserved. */
  lemma DispatcherSettlesOnlyReserved(config: Config, s: System, step: Step)
    requires Enabled(s, step) && LimiterOp(s, step).Some?
    requires BookSound(config, s, LimiterOp(s, step).value.0)
    ensures R.Allowed(BookOf(s, LimiterOp(s, step).value.0), LimiterOp(s, step).value.1)
  {
    match step
    case Check(_, _) =>
    case SmtpFailed(pk, _, _) => HasTask(s.tasks, pk, Reserving, s.tasks[pk].account);
    case LogSend(pk) => HasTask(s.tasks, pk, Handed, s.tasks[pk].account);
  }

  /** By how much a step changes the number of an account's tasks at a stage. */
  function TaskChange(config: Config, s: System, step: Step, stage: Stage, account: string): int
    requires Enabled(s, step)
  {
    match step
    case Check(pk, target) =>
      if stage.Reserving? && target == account && R.Decide(config(target), BookOf(s, target).ledger, s.clock).Granted?
      then 1 else 0
    case SmtpOk(pk) => if s.tasks[pk].account != account then 0 else if stage.Reserving? then -1 else 1
    case SmtpFailed(pk, _, _) => if stage.Reserving? && s.tasks[pk].account == account then -1 else 0
    case LogSend(pk) => if stage.Handed? && s.tasks[pk].account == account then -1 else 0
    case Abandon(pk, _) => if At(s.tasks[pk], stage, account) then -1 else 0
    case Restart => -|TasksAt(s.tasks, stage, account)|
    case _ => 0
  }

  lemma StepTasks(config: Config, s: System, step: Step, stage: Stage, account: string)
    requires Enabled(s, step)
    ensures |TasksAt(NextTasks(config, s, step), stage, account)|
         == |TasksAt(s.tasks, stage, account)| + TaskChange(config, s, step, stage, account)
  {
    match step
    case Fetch(_, _, _, _, chosen) =>
      assert TasksAt(NextTasks(config, s, step), stage, account) == {} == TasksAt(s.tasks, stage, account);
    case CannotSend(pk) => MoveTask(s.tasks, pk, Concluding(GiveUp), stage, account);
    case Check(pk, target) => MoveTask(s.tasks, pk, NextTasks(config, s, step)[pk], stage, account);
    case SmtpOk(pk) => MoveTask(s.tasks, pk, Accepted(s.tasks[pk].account), stage, account);
    case SmtpFailed(pk, verdict, _) => MoveTask(s.tasks, pk, Concluding(verdict), stage, account);
    case RecordSent(pk) => MoveTask(s.tasks, pk, Logging(s.tasks[pk].account), stage, account);
    case Conclude(pk, _) => DropTask(s.tasks, pk, stage, account);
    case LogSend(pk) => DropTask(s.tasks, pk, stage, account);
    case Abandon(pk, _) => DropTask(s.tasks, pk, stage, account);
    case Restart => assert TasksAt(NextTasks(config, s, step), stage, account) == {};
    case _ =>
  }

  /** A step's effect on one account's book. */
  function NextBook(config: Config, s: System, step: Step, account: string): R.Book
    requires Enabled(s, step)
  {
    var op := LimiterOp(s, step);
    if step.Restart? then R.Opening(0)
    else if op.Some? && op.value.0 == account then R.Apply(config(account), BookOf(s, account), op.value.1)
    else BookOf(s, account)
  }

  lemma StepBook(config: Config, s: System, step: Step, account: string)
    requires Unique(s.db.messages) && Enabled(s, step)
    ensures BookOf(Next(config, s, step), account) == NextBook(config, s, step, account)
  {
  }

  function NextAccepted(s: System, step: Step, account: string): seq<int>
    requires Enabled(s, step)
  {
    if step.Restart? then []
    else TimesOf(s.accepted, account) + (if TakenFor(s, step) == Some(account) then [s.clock] else [])
  }

  lemma StepAccepted(config: Config, s: System, step: Step, account: string)
    requires Unique(s.db.messages) && Enabled(s, step)
    ensures TimesOf(Next(config, s, step).accepted, account) == NextAccepted(s, step, account)
  {
  }

  /** The step checks the limits of an account, or settles one of its reservations. */
  predicate Books(s: System, step: Step, account: string)
    requires Enabled(s, step)
  {
    LimiterOp(s, step).Some? && LimiterOp(s, step).value.0 == account
  }

  lemma StepBalanced(config: Config, s: System, step: Step, account: string)
    requires Enabled(s, step)
    requires Balanced(s.tasks, TimesOf(s.accepted, account), BookOf(s, account), account)
    ensures Balanced(NextTasks(config, s, step), NextAccepted(s, step, account), NextBook(config, s, step, account),
                     account)
  {
    StepTasks(config, s, step, Reserving, account);
    StepTasks(config, s, step, Handed, account);
    if Books(s, step, account) {
      BookedBalanced(config, s, step, account);
    }
  }

  /** Tasks and reservations of an account change together. */
  lemma BookedBalanced(config: Config, s: System, step: Step, account: string)
    requires Enabled(s, step) && Books(s, step, account)
    requires Balanced(s.tasks, TimesOf(s.accepted, account), BookOf(s, account), account)
    ensures var b, b' := BookOf(s, account), NextBook(config, s, step, account);
            var reserved := TaskChange(config, s, step, Reserving, account);
            && NextAccepted(s, step, account) == TimesOf(s.accepted, account)
            && |b'.full| + TaskChange(config, s, step, Handed, account) == |b.full|
            && b'.open - reserved + |b'.full| >= b.open + |b.full|
  {
    match step
    case Check(pk, target) =>
    case SmtpFailed(pk, _, _) => HasTask(s.tasks, pk, Reserving, account);
    case LogSend(pk) => HasTask(s.tasks, pk, Handed, account);
  }

  /** Acceptances stay ahead of the log by those not logged yet, whichever of the two grows. */
  lemma AheadAfterTaking(accepted: seq<int>, full: seq<int>, clock: int)
    requires Ahead(accepted, full)
    ensures Ahead(accepted + [clock], full)
  {
    forall since
      ensures R.CountAfter(accepted + [clock], since) <= R.CountAfter(full, since) + |accepted + [clock]| - |full|
    {
      R.CountAppend(accepted, [clock], since);
      assert R.CountAfter([clock], since) <= 1;
    }
  }

  lemma AheadAfterLogging(accepted: seq<int>, full: seq<int>, clock: int)
    requires Ahead(accepted, full) && UpToNow(accepted, clock) && |full| < |accepted|
    ensures Ahead(accepted, full + [clock])
  {
    forall since
      ensures R.CountAfter(accepted, since) <= R.CountAfter(full + [clock], since) + |accepted| - |full + [clock]|
    {
      R.CountAppend(full, [clock], since);
      if since < clock {
        assert [clock][..0] == [];
        assert R.CountAfter([clock], since) == 1;
      } else {
        R.CountNone(accepted, since);
      }
    }
  }

  /** The reservation that a task holds leaves room, in every window, for what the server takes. */
  lemma TakingFits(a: R.Account, accepted: seq<int>, b: R.Book, clock: int)
    requires R.WithinLimits(a, b) && b.clock <= clock && Ahead(accepted, b.full) && AllFitted(a, accepted)
    requires |accepted| - |b.full| < b.open
    ensures AllFitted(a, accepted + [clock])
  {
    forall w: R.Window
      ensures R.EachSendFitted(a, accepted + [clock], w)
    {
      assert R.HasRoom(a, b, w) && R.EachSendFitted(a, accepted, w);
      R.CountMonotone(b.full, b.clock - R.Seconds(w), clock - R.Seconds(w));
      R.CountAppend(accepted, [clock], clock - R.Seconds(w));
      assert R.CountAfter([clock], clock - R.Seconds(w)) <= 1;
      assert R.CountAfter(accepted, clock - R.Seconds(w))
             <= R.CountAfter(b.full, clock - R.Seconds(w)) + |accepted| - |b.full|;
      R.LogKeepsFit(a, accepted, clock, w);
    }
  }

  lemma TakenAcceptances(a: R.Account, accepted: seq<int>, b: R.Book, clock: int)
    requires R.WithinLimits(a, b) && b.clock <= clock && |accepted| - |b.full| < b.open
    requires AcceptancesSound(a, accepted, b.full, clock)
    ensures AcceptancesSound(a, accepted + [clock], b.full, clock)
  {
    AheadAfterTaking(accepted, b.full, clock);
    TakingFits(a, accepted, b, clock);
    R.SortedAppend(accepted, clock);
  }

  lemma LoggedAcceptances(a: R.Account, accepted: seq<int>, full: seq<int>, clock: int)
    requires AcceptancesSound(a, accepted, full, clock) && |full| < |accepted|
    ensures AcceptancesSound(a, accepted, full + [clock], clock)
  {
    AheadAfterLogging(accepted, full, clock);
  }

  lemma LaterAcceptances(a: R.Account, accepted: seq<int>, full: seq<int>, clock: int, later: int)
    requires AcceptancesSound(a, accepted, full, clock) && clock <= later
    ensures AcceptancesSound(a, accepted, full, later)
  {
  }

  lemma StepTaken(config: Config, s: System, step: Step, account: string)
    requires Enabled(s, step) && TakenFor(s, step) == Some(account)
    requires Balanced(s.tasks, TimesOf(s.accepted, account), BookOf(s, account), account)
    ensures |TimesOf(s.accepted, account)| - |BookOf(s, account).full| < BookOf(s, account).open
    ensures NextBook(config, s, step, account) == BookOf(s, account)
  {
    match step
    case SmtpOk(pk) => HasTask(s.tasks, pk, Reserving, account);
    case Abandon(pk, _) => HasTask(s.tasks, pk, Reserving, account);
  }

  lemma StepLogged(config: Config, s: System, step: Step, account: string)
    requires Enabled(s, step) && !step.Restart? && TakenFor(s, step) != Some(account)
    requires Balanced(s.tasks, TimesOf(s.accepted, account), BookOf(s, account), account)
    ensures NextAccepted(s, step, account) == TimesOf(s.accepted, account)
    ensures var full, full' := BookOf(s, account).full, NextBook(config, s, step, account).full;
            full' == full || (full' == full + [s.clock] && |full| < |TimesOf(s.accepted, account)|)
  {
    if step.LogSend? && s.tasks[step.pk].account == account {
      HasTask(s.tasks, step.pk, Handed, account);
    }
  }

  lemma StepAcceptances(config: Config, s: System, step: Step, account: string)
    requires Enabled(s, step) && !step.Restart? && BookSound(config, s, account)
    ensures AcceptancesSound(config(account), NextAccepted(s, step, account), NextBook(config, s, step, account).full,
                             s.clock)
  {
    var accepted, b := TimesOf(s.accepted, account), BookOf(s, account);
    if TakenFor(s, step) == Some(account) {
      StepTaken(config, s, step, account);
      TakenAcceptances(config(account), accepted, b, s.clock);
    } else {
      StepLogged(config, s, step, account);
      if NextBook(config, s, step, account).full != b.full {
        LoggedAcceptances(config(account), accepted, b.full, s.clock);
      }
    }
  }

  lemma StepLedger(config: Config, s: System, step: Step, account: string)
    requires Enabled(s, step) && !step.Restart? && BookSound(config, s, account)
    ensures R.Consistent(config(account), NextBook(config, s, step, account))
    ensures NextBook(config, s, step, account).clock <= s.clock
  {
    var op := LimiterOp(s, step);
    if op.Some? && op.value.0 == account {
      DispatcherSettlesOnlyReserved(config, s, step);
      R.StepConsistent(config(account), BookOf(s, account), op.value.1);
    }
  }

  lemma NothingBooked(config: Config, s: System, account: string)
    requires s.clock > 0 && s.tasks == map[] && s.books == map[] && s.accepted == map[]
    ensures BookSound(config, s, account)
  {
    R.OpeningConsistent(config(account), 0);
    assert TasksAt(map[], Reserving, account) == {} && TasksAt(map[], Handed, account) == {};
  }

  lemma StepPast(config: Config, s: System, step: Step)
    requires Unique(s.db.messages) && PastSound(config, s.past) && Enabled(s, step)
    requires forall account :: BookSound(config, s, account)
    ensures PastSound(config, Next(config, s, step).past)
  {
    if step.Restart? {
      forall account
        ensures LifetimeSound(config(account), TimesOf(s.accepted, account), s.clock)
      {
        assert BookSound(config, s, account);
      }
    }
  }

  lemma StepBooks(config: Config, s: System, step: Step, account: string)
    requires KeysSound(s) && s.clock > 0 && Enabled(s, step) && BookSound(config, s, account)
    ensures BookSound(config, Next(config, s, step), account)
  {
    if step.Restart? {
      NothingBooked(config, Next(config, s, step), account);
      return;
    }
    StepLedger(config, s, step, account);
    StepBalanced(config, s, step, account);
    StepAcceptances(config, s, step, account);
    StepBook(config, s, step, account);
    StepAccepted(config, s, step, account);
    LaterAcceptances(config(account), NextAccepted(s, step, account), NextBook(config, s, step, account).full,
                     s.clock, Next(config, s, step).clock);
  }

  // ---------------------------------------------------------------- reports

  /** Which messages are gone after a step: those gone before, deleted by users, or fully reported. */
  lemma StepRemoves(s: System, step: Step, pk: Pk)
    requires KeysSound(s) && Enabled(s, step) && pk in s.db.messages && pk !in NextDb(s, step).messages
    ensures step == UserDelete(pk) || (step.Retain? && FullyReportedBefore(s.db, pk, step.threshold))
  {
    if step.Retain? {
      RemovableIff(s.db, pk, step.threshold);
    } else if !step.UserDelete? {
      StepKeepsMessages(s, step);
    }
  }

  lemma StepKeepsMessages(s: System, step: Step)
    requires Unique(s.db.messages) && Enabled(s, step) && !step.Retain? && !step.UserDelete?
    ensures s.db.messages.Keys <= NextDb(s, step).messages.Keys
  {
    if Recorded(s, step).Some? {
      RecordKeys(s.db, Recorded(s, step).value);
    } else {
      match step
      case Submit(_, _, _) =>
      case ReportMark =>
      case _ =>
    }
  }

  lemma RecordKeys(db: Db, e: Event)
    ensures AddEvent(db, e).messages.Keys == db.messages.Keys
  {
  }

  lemma StepReported(s: System, step: Step, k: nat)
    requires KeysSound(s) && ReportsSound(s) && Enabled(s, step)
    requires k < |NextDb(s, step).events| && NextDb(s, step).events[k].reportedTs.Some?
    ensures k in s.delivered
  {
    StepEvents(s, step);
    if k < |s.db.events| {
      if step.ReportMark? {
        assert k in s.acked || s.db.events[k].reportedTs.Some?;
      } else {
        assert NextDb(s, step).events[k] == s.db.events[k];
      }
    }
  }

  lemma StepUnreported(config: Config, s: System, step: Step, k: nat)
    requires KeysSound(s) && ReportsSound(s) && Enabled(s, step)
    requires k < |NextDb(s, step).events| && NextDb(s, step).events[k].reportedTs.None?
    ensures var s' := Next(config, s, step);
            var pk := s'.db.events[k].messagePk;
            pk in s'.db.messages || pk in s'.userDeleted || k in s'.orphans
  {
    StepEvents(s, step);
    var pk := NextDb(s, step).events[k].messagePk;
    if k < |s.db.events| {
      assert s.db.events[k].messagePk == pk;
      assert s.db.events[k].reportedTs.None? by {
        if step.ReportMark? {
          assert k !in s.acked;
        }
      }
    }
    if pk in s.db.messages && pk !in NextDb(s, step).messages {
      StepRemoves(s, step, pk);
      assert step.Retain? ==> k < |s.db.events|;
    }
  }

  lemma StepReports(config: Config, s: System, step: Step)
    requires KeysSound(s) && ReportsSound(s) && Enabled(s, step)
    ensures ReportsSound(Next(config, s, step))
  {
    var s' := Next(config, s, step);
    forall k | 0 <= k < |s'.db.events| && s'.db.events[k].reportedTs.Some?
      ensures k in s'.delivered
    {
      StepReported(s, step, k);
    }
    forall k | 0 <= k < |s'.db.events| && s'.db.events[k].reportedTs.None?
      ensures s'.db.events[k].messagePk in s'.db.messages || s'.db.events[k].messagePk in s'.userDeleted
          || k in s'.orphans
    {
      StepUnreported(config, s, step, k);
    }
  }

  // ---------------------------------------------------------------- every step, every run

  lemma StepSound(config: Config, s: System, step: Step)
    requires Sound(config, s) && Enabled(s, step)
    ensures Sound(config, Next(config, s, step))
  {
    StepKeys(config, s, step);
    StepReads(config, s, step);
    StepReports(config, s, step);
    StepPast(config, s, step);
    forall pk
      ensures SendsSound(Next(config, s, step), pk)
    {
      StepSends(config, s, step, pk);
    }
    forall account
      ensures BookSound(config, Next(config, s, step), account)
    {
      StepBooks(config, s, step, account);
    }
  }

  ghost predicate Possible(config: Config, s: System, run: seq<Step>)
    decreases |run|
  {
    run == [] ||
    (Unique(s.db.messages) && Enabled(s, run[0]) && Possible(config, Next(config, s, run[0]), run[1..]))
  }

  ghost function Final(config: Config, s: System, run: seq<Step>): System
    requires Possible(config, s, run)
    decreases |run|
  {
    if run == [] then s else Final(config, Next(config, s, run[0]), run[1..])
  }

  lemma {:induction false} RunSound(config: Config, s: System, run: seq<Step>)
    requires Sound(config, s) && Possible(config, s, run)
    ensures Sound(config, Final(config, s, run))
    decreases |run|
  {
    if run != [] {
      StepSound(config, s, run[0]);
      RunSound(config, Next(config, s, run[0]), run[1..]);
    }
  }

  // ---------------------------------------------------------------- composing runs

  lemma RunCons(config: Config, s: System, step: Step, rest: seq<Step>)
    requires Unique(s.db.messages) && Enabled(s, step) && Possible(config, Next(config, s, step), rest)
    ensures Possible(config, s, [step] + rest)
    ensures Final(config, s, [step] + rest) == Final(config, Next(config, s, step), rest)
  {
    assert ([step] + rest)[1..] == rest;
  }

  /** Two runs, one after the other. */
  lemma {:induction false} RunAppend(config: Config, s: System, first: seq<Step>, second: seq<Step>)
    requires Possible(config, s, first) && Possible(config, Final(config, s, first), second)
    ensures Possible(config, s, first + second)
    ensures Final(config, s, first + second) == Final(config, Final(config, s, first), second)
    decreases |first|
  {
    if first == [] {
      assert first + second == second;
    } else {
      var next, rest := Next(config, s, first[0]), first[1..];
      assert Final(config, s, first) == Final(config, next, rest);
      RunAppend(config, next, rest, second);
      RunCons(config, s, first[0], rest + second);
      ConsAppend(first, second);
    }
  }

  lemma ConsAppend(first: seq<Step>, second: seq<Step>)
    requires first != []
    ensures first + second == [first[0]] + (first[1..] + second)
  {
  }

  /** One step as a run. */
  lemma RunOne(config: Config, s: System, step: Step)
    requires KeysSound(s) && Enabled(s, step)
    ensures Possible(config, s, [step]) && Final(config, s, [step]) == Next(config, s, step)
    ensures KeysSound(Next(config, s, step))
  {
    StepKeys(config, s, step);
    RunCons(config, s, step, []);
  }

  lemma RunTwo(config: Config, s: System, a: Step, b: Step)
    requires KeysSound(s) && Enabled(s, a)
    requires KeysSound(Next(config, s, a)) && Enabled(Next(config, s, a), b)
    ensures Possible(config, s, [a, b]) && Final(config, s, [a, b]) == Next(config, Next(config, s, a), b)
    ensures KeysSound(Final(config, s, [a, b]))
  {
    RunOne(config, Next(config, s, a), b);
    RunCons(config, s, a, [b]);
    assert [a] + [b] == [a, b];
  }

  lemma RunThree(config: Config, s: System, a: Step, s1: System, b: Step, s2: System, c: Step)
    requires KeysSound(s) && Enabled(s, a) && s1 == Next(config, s, a)
    requires KeysSound(s1) && Enabled(s1, b) && s2 == Next(config, s1, b)
    requires KeysSound(s2) && Enabled(s2, c)
    ensures Possible(config, s, [a, b, c]) && Final(config, s, [a, b, c]) == Next(config, s2, c)
    ensures KeysSound(Next(config, s2, c))
  {
    RunTwo(config, s1, b, c);
    RunCons(config, s, a, [b, c]);
    assert [a] + [b, c] == [a, b, c];
  }

  // ---------------------------------------------------------------- what single steps change

  lemma ClearChanges(config: Config, s: System, pk: Pk)
    requires Unique(s.db.messages) && InPhase(s, pk, Started)
    ensures Next(config, s, Clear(pk)) == s.(db := s.db.(messages := ClearDeferred(s.db.messages, pk)))
  {
  }

  lemma DecideChanges(config: Config, s: System, step: Step)
    requires Unique(s.db.messages) && Enabled(s, step) && (step.CannotSend? || step.Check?)
    ensures Next(config, s, step) == s.(tasks := NextTasks(config, s, step), books := NextBooks(config, s, step))
  {
  }

  lemma ConcludeChanges(config: Config, s: System, pk: Pk, ts: int)
    requires Unique(s.db.messages) && Enabled(s, Conclude(pk, ts))
    ensures Next(config, s, Conclude(pk, ts))
         == s.(db := AddEvent(s.db, OutcomeEvent(pk, s.tasks[pk].verdict, ts)), tasks := s.tasks - {pk},
               orphans := NextOrphans(s, Conclude(pk, ts)))
  {
  }

  lemma AbandonChanges(config: Config, s: System, pk: Pk)
    requires Unique(s.db.messages) && Enabled(s, Abandon(pk, false))
    ensures Next(config, s, Abandon(pk, false)) == s.(tasks := s.tasks - {pk})
  {
  }

  // ---------------------------------------------------------------- the main results

  /** No run records two "sent" events for one message. */
  lemma NoMessageSentTwice(config: Config, run: seq<Step>, pk: Pk)
    requires Possible(config, INITIAL, run)
    ensures SentCount(Final(config, INITIAL, run).db.events, pk) <= 1
  {
    InitialSound(config);
    RunSound(config, INITIAL, run);
    assert SendsSound(Final(config, INITIAL, run), pk);
  }

  /**
    In every run, in every window of each of an account's limits, the messages that the mail server
    took in one lifetime of the process stay within the limit, and so do the sends that are logged;
    tasks of one batch overlap, and any of them may stop before it logs its send or settles its
    reservation.  What the server took while the client saw a failure is not counted: its slot is
    given back.
   */
  lemma NoAccountOverLimit(config: Config, run: seq<Step>, account: string, w: R.Window, t: int)
    requires Possible(config, INITIAL, run) && R.Limit(config(account), w).Some?
    ensures var s := Final(config, INITIAL, run);
            var limit := R.Limit(config(account), w).value;
            && R.SendsInWindow(TimesOf(s.accepted, account), t, w) <= limit
            && R.SendsInWindow(BookOf(s, account).full, t, w) <= limit
            && forall i :: 0 <= i < |s.past| ==>
                 R.SendsInWindow(TimesOf(s.past[i].accepted, account), t, w) <= limit
  {
    InitialSound(config);
    RunSound(config, INITIAL, run);
    var s := Final(config, INITIAL, run);
    assert BookSound(config, s, account);
    R.WindowBound(config(account), BookOf(s, account).full, w, t);
    R.WindowBound(config(account), TimesOf(s.accepted, account), w, t);
    forall i | 0 <= i < |s.past|
      ensures R.SendsInWindow(TimesOf(s.past[i].accepted, account), t, w) <= R.Limit(config(account), w).value
    {
      PastWindow(config, s.past, i, account, w, t);
    }
  }

  /** The same bound on the account's columns, in any minute, hour or day. */
  lemma NoColumnExceeded(config: Config, run: seq<Step>, account: string, t: int)
    requires Possible(config, INITIAL, run)
    ensures var sends := TimesOf(Final(config, INITIAL, run).accepted, account);
            var a := config(account);
            && (a.limitPerMinute.Some? && a.limitPerMinute.value > 0 ==>
                  R.CountAfter(sends, t - 60) - R.CountAfter(sends, t) <= a.limitPerMinute.value)
            && (a.limitPerHour.Some? && a.limitPerHour.value > 0 ==>
                  R.CountAfter(sends, t - 3600) - R.CountAfter(sends, t) <= a.limitPerHour.value)
            && (a.limitPerDay.Some? && a.limitPerDay.value > 0 ==>
                  R.CountAfter(sends, t - 86400) - R.CountAfter(sends, t) <= a.limitPerDay.value)
  {
    var sends := TimesOf(Final(config, INITIAL, run).accepted, account);
    forall w: R.Window | R.Limit(config(account), w).Some?
      ensures R.SendsInWindow(sends, t, w) <= R.Limit(config(account), w).value
    {
      NoAccountOverLimit(config, run, account, w, t);
    }
    R.BoundOnColumns(config(account), sends, t);
  }

  lemma PastWindow(config: Config, past: seq<Lifetime>, i: nat, account: string, w: R.Window, t: int)
    requires PastSound(config, past) && i < |past| && R.Limit(config(account), w).Some?
    ensures var sends := R.SendsInWindow(TimesOf(past[i].accepted, account), t, w);
            && 0 <= sends <= R.Limit(config(account), w).value
            && (past[i].ended <= t - R.Seconds(w) ==> sends == 0)
  {
    var accepted := TimesOf(past[i].accepted, account);
    assert LifetimeSound(config(account), accepted, past[i].ended);
    R.WindowBound(config(account), accepted, w, t);
    if past[i].ended <= t - R.Seconds(w) {
      R.CountNone(accepted, t - R.Seconds(w));
    }
  }

  /** The acceptances of all earlier lifetimes in one window. */
  function PastSends(past: seq<Lifetime>, account: string, t: int, w: R.Window): int {
    if past == [] then 0
    else
      var n := |past| - 1;
      PastSends(past[..n], account, t, w) + R.SendsInWindow(TimesOf(past[n].accepted, account), t, w)
  }

  function RestartsAfter(past: seq<Lifetime>, since: int): nat {
    if past == [] then 0
    else RestartsAfter(past[..|past| - 1], since) + (if past[|past| - 1].ended > since then 1 else 0)
  }

  lemma PastFront(config: Config, past: seq<Lifetime>)
    requires PastSound(config, past) && past != []
    ensures PastSound(config, past[..|past| - 1])
  {
    var front := past[..|past| - 1];
    forall i, account | 0 <= i < |front|
      ensures LifetimeSound(config(account), TimesOf(front[i].accepted, account), front[i].ended)
    {
      assert LifetimeSound(config(account), TimesOf(past[i].accepted, account), past[i].ended);
    }
  }

  lemma {:induction false} PastBound(config: Config, past: seq<Lifetime>, account: string, w: R.Window, t: int,
                                     limit: nat)
    requires PastSound(config, past) && R.Limit(config(account), w) == Some(limit)
    ensures PastSends(past, account, t, w) <= limit * RestartsAfter(past, t - R.Seconds(w))
  {
    if past != [] {
      PastFront(config, past);
      PastBound(config, past[..|past| - 1], account, w, t, limit);
      PastWindow(config, past, |past| - 1, account, w, t);
      OneMore(limit, RestartsAfter(past[..|past| - 1], t - R.Seconds(w)));
    }
  }

  lemma OneMore(limit: nat, n: nat)
    ensures limit * (n + 1) == limit * n + limit
  {
  }

  /**
    Across lifetimes: the limiter remembers nothing of an earlier one, so in any window the server
    may take the limit once more for every restart since the window began, and no more.
   */
  lemma RestartsMultiplyLimit(config: Config, run: seq<Step>, account: string, w: R.Window, t: int)
    requires Possible(config, INITIAL, run) && R.Limit(config(account), w).Some?
    ensures var s := Final(config, INITIAL, run);
            PastSends(s.past, account, t, w) + R.SendsInWindow(TimesOf(s.accepted, account), t, w)
            <= R.Limit(config(account), w).value * (RestartsAfter(s.past, t - R.Seconds(w)) + 1)
  {
    NoAccountOverLimit(config, run, account, w, t);
    InitialSound(config);
    RunSound(config, INITIAL, run);
    var limit := R.Limit(config(account), w).value;
    R.LimitPositive(config(account), w);
    PastBound(config, Final(config, INITIAL, run).past, account, w, t, limit);
    OneMore(limit, RestartsAfter(Final(config, INITIAL, run).past, t - R.Seconds(w)));
  }

  /** After a restart every account may send at once, whatever it sent before. */
  lemma RestartForgetsSends(config: Config, s: System, account: string)
    requires KeysSound(s)
    ensures R.Decide(config(account), BookOf(Next(config, s, Restart), account).ledger, s.clock).Granted?
  {
    R.GrantedIff(config(account), R.Ledger([], 0), s.clock);
    forall w: R.Window
      ensures R.Limit(config(account), w).Some? ==> R.Limit(config(account), w).value > 0
    {
      R.LimitPositive(config(account), w);
    }
  }

  /**
    Why those are not counted: after such a failure the limiter decides as before, so of two
    messages that one free slot was for, the server takes both at one moment.
   */
  lemma UnansweredFreesItsSlot(config: Config, s: System, p: Pk, q: Pk, account: string, verdict: Verdict,
                              run: seq<Step>)
    requires KeysSound(s) && p != q && InPhase(s, p, Started) && InPhase(s, q, Started)
    requires R.Limited(config(account)) && BookOf(s, account).ledger.inFlight >= 0
    requires R.Decide(config(account), BookOf(s, account).ledger, s.clock).Granted?
    requires run == [Check(p, account), SmtpFailed(p, verdict, true)] + [Check(q, account), SmtpOk(q)]
    ensures Possible(config, s, run)
    ensures TimesOf(Final(config, s, run).unanswered, account) == TimesOf(s.unanswered, account) + [s.clock]
    ensures TimesOf(Final(config, s, run).accepted, account) == TimesOf(s.accepted, account) + [s.clock]
  {
    R.ReleasedGrantRepeats(config(account), BookOf(s, account).ledger, s.clock);
    var mid := FailsUnanswered(config, s, p, account, verdict, run[..2]);
    TakesAnswered(config, mid, q, account, run[2..]);
    RunAppend(config, s, run[..2], run[2..]);
    assert run == run[..2] + run[2..];
  }

  lemma FailsUnanswered(config: Config, s: System, p: Pk, account: string, verdict: Verdict, run: seq<Step>)
    returns (s': System)
    requires KeysSound(s) && InPhase(s, p, Started)
    requires R.Decide(config(account), BookOf(s, account).ledger, s.clock).Granted?
    requires run == [Check(p, account), SmtpFailed(p, verdict, true)]
    ensures Possible(config, s, run) && s' == Final(config, s, run) && KeysSound(s') && s'.clock == s.clock
    ensures BookOf(s', account).ledger
        == R.AfterRelease(R.AfterCheck(config(account), BookOf(s, account).ledger, s.clock))
    ensures s'.tasks == s.tasks[p := Concluding(verdict)] && s'.accepted == s.accepted
    ensures TimesOf(s'.unanswered, account) == TimesOf(s.unanswered, account) + [s.clock]
  {
    StepKeys(config, s, run[0]);
    RunTwo(config, s, run[0], run[1]);
    assert run == [run[0], run[1]];
    s' := Final(config, s, run);
  }

  lemma TakesAnswered(config: Config, s: System, q: Pk, account: string, run: seq<Step>)
    requires KeysSound(s) && InPhase(s, q, Started)
    requires R.Decide(config(account), BookOf(s, account).ledger, s.clock).Granted?
    requires run == [Check(q, account), SmtpOk(q)]
    ensures Possible(config, s, run) && Final(config, s, run).unanswered == s.unanswered
    ensures TimesOf(Final(config, s, run).accepted, account) == TimesOf(s.accepted, account) + [s.clock]
  {
    StepKeys(config, s, run[0]);
    RunTwo(config, s, run[0], run[1]);
    assert run == [run[0], run[1]];
  }

  /** Every row is written back in time. */
  ghost predicate AllInTime(config: Config, s: System, run: seq<Step>)
    requires Possible(config, s, run)
    decreases |run|
  {
    run == [] || (InTime(s, run[0]) && AllInTime(config, Next(config, s, run[0]), run[1..]))
  }

  /** In every state of the run the status column is what the log implies. */
  ghost predicate StatusHolds(config: Config, s: System, run: seq<Step>)
    requires Possible(config, s, run)
    decreases |run|
  {
    StatusRefinesLog(s.db) && (run == [] || StatusHolds(config, Next(config, s, run[0]), run[1..]))
  }

  /** Exactly the runs in which no row is written back too late keep the status column right throughout. */
  lemma {:induction false} StatusHoldsIff(config: Config, s: System, run: seq<Step>)
    requires KeysSound(s) && StatusSound(s) && Possible(config, s, run)
    ensures StatusHolds(config, s, run) <==> AllInTime(config, s, run)
    ensures AllInTime(config, s, run) ==> StatusRefinesLog(Final(config, s, run).db)
    decreases |run|
  {
    if run != [] {
      StepKeys(config, s, run[0]);
      StepStatusIff(config, s, run[0]);
      if InTime(s, run[0]) {
        StatusHoldsIff(config, Next(config, s, run[0]), run[1..]);
      }
    }
  }

  /** So from an empty system the latest effective event decides the status. */
  lemma StatusAlwaysRefinesLog(config: Config, run: seq<Step>, pk: Pk)
    requires Possible(config, INITIAL, run) && AllInTime(config, INITIAL, run)
    requires pk in Final(config, INITIAL, run).db.messages
    ensures var db := Final(config, INITIAL, run).db;
            db.messages[pk].smtpTs == StatusOf(db.events, pk)
  {
    StatusHoldsIff(config, INITIAL, run);
  }

  /**
    Reporting is at least once: a marked event was carried by a successful call, and an event no
    call has carried is still eligible for a report, unless a user deleted its message or it was
    recorded when its message was already gone.
   */
  lemma ReportedAtLeastOnce(config: Config, run: seq<Step>, k: nat)
    requires Possible(config, INITIAL, run) && k < |Final(config, INITIAL, run).db.events|
    ensures var s := Final(config, INITIAL, run);
            && (s.db.events[k].reportedTs.Some? ==> k in s.delivered)
            && (k !in s.delivered ==> Eligible(s.db, k) || s.db.events[k].messagePk in s.userDeleted || k in s.orphans)
  {
    InitialSound(config);
    RunSound(config, INITIAL, run);
  }

  /** What comes from outside: a notice is logged as it is, a deleted message goes and no other does. */
  lemma OutsideSteps(config: Config, s: System, pk: Pk, name: string, ts: int)
    requires Unique(s.db.messages)
    ensures Next(config, s, Notify(pk, name, ts)).db
         == Db(s.db.messages, s.db.events + [Event(pk, Notice(name), ts, None, None)])
    ensures var s' := Next(config, s, UserDelete(pk));
            && s'.db.events == s.db.events && pk !in s'.db.messages && s'.userDeleted == s.userDeleted + {pk}
            && forall q :: q in s.db.messages && q != pk ==>
                 q in s'.db.messages && s'.db.messages[q] == s.db.messages[q]
  {
  }

  /**
    What the history holds, step by step: an event is an orphan exactly when its message was not there
    when it was recorded, a message counts as deleted by users exactly when one deleted it, and an
    event as delivered exactly when a call carried it.
   */
  lemma HistoryExact(config: Config, s: System, step: Step, k: nat, pk: Pk)
    requires KeysSound(s) && Enabled(s, step)
    ensures var s' := Next(config, s, step);
            && (k in s'.orphans <==>
                  || k in s.orphans
                  || (k == |s.db.events| < |s'.db.events| && s'.db.events[k].messagePk !in s.db.messages))
            && (pk in s'.userDeleted <==> pk in s.userDeleted || step == UserDelete(pk))
            && (k in s'.delivered <==> k in s.delivered || (step.ReportCall? && k in step.ids))
  {
    StepEvents(s, step);
  }

  /** The server's acceptances are noted at their time, for the task's account, also when the task stops then. */
  lemma AcceptanceIsNoted(config: Config, s: System, step: Step, account: string)
    requires Unique(s.db.messages) && Enabled(s, step) && !step.Restart?
    ensures var taken := (step.SmtpOk? || (step.Abandon? && step.taken)) && s.tasks[step.pk] == Holding(account);
            TimesOf(Next(config, s, step).accepted, account)
            == TimesOf(s.accepted, account) + (if taken then [s.clock] else [])
    ensures var lost := step.SmtpFailed? && step.taken && s.tasks[step.pk] == Holding(account);
            TimesOf(Next(config, s, step).unanswered, account)
            == TimesOf(s.unanswered, account) + (if lost then [s.clock] else [])
  {
  }

  /** A restart keeps the tables and the clock and forgets everything else but the history. */
  lemma RestartKeepsTables(config: Config, s: System)
    requires Unique(s.db.messages)
    ensures var s' := Next(config, s, Restart);
            && s'.db == s.db && s'.clock == s.clock && s'.used == s.used
            && s'.tasks == map[] && s'.books == map[] && s'.readRows == map[] && s'.page == {} && s'.acked == {}
            && s'.delivered == s.delivered && s'.unanswered == s.unanswered && s'.accepted == map[]
            && s'.past == s.past + [Lifetime(s.accepted, s.clock)]
  {
  }

  /**
    A resubmission in two steps, with a notice about its message in between: the row gets the entry's
    fields and stays pending.
   */
  lemma ResubmittedInTwoSteps(config: Config, s: System, token: nat, e: Entry, pk: Pk, run: seq<Step>)
    requires KeysSound(s) && token !in s.readRows && pk in s.db.messages && s.db.messages[pk].smtpTs.None?
    requires run == [ReadRow(token, e, pk), Notify(pk, "bounce", s.clock), WriteRow(token)]
    ensures Possible(config, s, run)
    ensures var m := Final(config, s, run).db.messages;
            && m.Keys == s.db.messages.Keys
            && m[pk] == s.db.messages[pk].(accountId := e.accountId, priority := e.priority, payload := e.payload,
                                           batchCode := e.batchCode, deferredTs := e.deferredTs)
            && forall q :: q in s.db.messages && q != pk ==> m[q] == s.db.messages[q]
  {
    StepKeys(config, s, run[0]);
    var s1 := Next(config, s, run[0]);
    StepKeys(config, s1, run[1]);
    RunThree(config, s, run[0], s1, run[1], Next(config, s1, run[1]), run[2]);
    assert run == [run[0], run[1], run[2]];
  }

  /** A message once removed never returns under its key, so its later events are never reported. */
  lemma {:induction false} GoneForGood(config: Config, s: System, run: seq<Step>, pk: Pk)
    requires Sound(config, s) && Possible(config, s, run) && pk in s.used && pk !in s.db.messages
    ensures pk !in Final(config, s, run).db.messages
    ensures forall k: nat :: k < |Final(config, s, run).db.events| ==>
              Final(config, s, run).db.events[k].messagePk == pk ==> !Eligible(Final(config, s, run).db, k)
    decreases |run|
  {
    if run != [] {
      StepSound(config, s, run[0]);
      StepKeys(config, s, run[0]);
      if pk in NextDb(s, run[0]).messages {
        StepIds(s, run[0], pk);
      }
      GoneForGood(config, Next(config, s, run[0]), run[1..], pk);
    }
  }

  // ---------------------------------------------------------------- what the mail server saw

  predicate InHand(tasks: map<Pk, Phase>, pk: Pk) {
    pk in tasks && tasks[pk].Accepted?
  }

  /** The server takes the message, whether or not the client learns of it. */
  predicate Takes(step: Step, pk: Pk) {
    match step
    case SmtpOk(q) => q == pk
    case SmtpFailed(q, _, taken) => q == pk && taken
    case Abandon(q, taken) => q == pk && taken
    case _ => false
  }

  /**
    An acceptance is lost: the client sees a failure although the server has the message, or the
    task ends, alone or with the process, after the server took it and before that is recorded.
   */
  predicate Loses(s: System, step: Step, pk: Pk) {
    match step
    case SmtpFailed(q, _, taken) => q == pk && taken
    case Abandon(q, taken) => q == pk && (taken || InHand(s.tasks, pk))
    case Restart => InHand(s.tasks, pk)
    case _ => false
  }

  /** How often the server takes a message in a run. */
  function Acceptances(run: seq<Step>, pk: Pk): nat {
    if run == [] then 0 else (if Takes(run[0], pk) then 1 else 0) + Acceptances(run[1..], pk)
  }

  ghost function Losses(config: Config, s: System, run: seq<Step>, pk: Pk): nat
    requires Possible(config, s, run)
    decreases |run|
  {
    if run == [] then 0
    else (if Loses(s, run[0], pk) then 1 else 0) + Losses(config, Next(config, s, run[0]), run[1..], pk)
  }

  function Known(s: System, pk: Pk): nat {
    SentCount(s.db.events, pk) + (if InHand(s.tasks, pk) then 1 else 0)
  }

  /** An acceptance is in hand from the server's answer until it is recorded or its task ends. */
  lemma StepInHand(config: Config, s: System, step: Step, pk: Pk)
    requires Enabled(s, step)
    ensures InHand(NextTasks(config, s, step), pk) <==>
              step == SmtpOk(pk) ||
              (InHand(s.tasks, pk) && step != RecordSent(pk) && !(step.Abandon? && step.pk == pk) && !step.Restart?)
    ensures Takes(step, pk) ==> !InHand(s.tasks, pk)
    ensures step == RecordSent(pk) ==> InHand(s.tasks, pk)
  {
  }

  /** Every acceptance by the server is recorded once, still in hand, or lost. */
  lemma {:induction false} AcceptancesAccounted(config: Config, s: System, run: seq<Step>, pk: Pk)
    requires Sound(config, s) && Possible(config, s, run)
    ensures Known(Final(config, s, run), pk) + Losses(config, s, run, pk) == Known(s, pk) + Acceptances(run, pk)
    decreases |run|
  {
    if run != [] {
      StepSound(config, s, run[0]);
      StepSentCount(s, run[0], pk);
      StepInHand(config, s, run[0], pk);
      AcceptancesAccounted(config, Next(config, s, run[0]), run[1..], pk);
    }
  }

  /** The server takes a message at most once more than its acceptance was lost. */
  lemma ServerTakesOncePlusLosses(config: Config, run: seq<Step>, pk: Pk)
    requires Possible(config, INITIAL, run)
    ensures Acceptances(run, pk) <= 1 + Losses(config, INITIAL, run, pk)
  {
    InitialSound(config);
    AcceptancesAccounted(config, INITIAL, run, pk);
    RunSound(config, INITIAL, run);
    assert SendsSound(Final(config, INITIAL, run), pk);
  }

  /** Any sending task may stop right after the server took its message, which is then lost to the client. */
  lemma SendingMayStopTaken(config: Config, s: System, pk: Pk)
    requires Unique(s.db.messages) && pk in s.tasks && s.tasks[pk].Holding?
    ensures Enabled(s, Abandon(pk, true)) && Takes(Abandon(pk, true), pk) && Loses(s, Abandon(pk, true), pk)
    ensures var s' := Next(config, s, Abandon(pk, true));
            && pk !in s'.tasks && s'.db == s.db
            && BookOf(s', s.tasks[pk].account) == BookOf(s, s.tasks[pk].account)
  {
  }

  /** After its task ended too early, a message is fetched again, though the server has it. */
  lemma LostAcceptanceIsFetchedAgain(config: Config, s: System, pk: Pk, limit: nat, now: int, f: PriorityFilter,
                                     suspended: Suspensions)
    requires KeysSound(s) && InHand(s.tasks, pk) && s.tasks.Keys == {pk}
    requires pk in FetchReady(s.db.messages, limit, now, f, suspended)
    ensures var abandon, fetch := Abandon(pk, false), Fetch(limit, now, f, suspended, {pk});
            && Enabled(s, abandon) && Loses(s, abandon, pk)
            && Enabled(Next(config, s, abandon), fetch)
            && InPhase(Next(config, Next(config, s, abandon), fetch), pk, Started)
  {
    assert s.tasks - {pk} == map[];
  }

  /**
    A send that times out after the server took the message and is to be retried: once its time
    has come and nothing holds it back, it is fetched, and so sent, again.
   */
  lemma TimedOutSendIsRepeated(config: Config, s: System, pk: Pk, until: int, limit: nat, f: PriorityFilter,
                               suspended: Suspensions, run: seq<Step>)
    requires KeysSound(s) && s.clock > 0 && s.tasks.Keys == {pk} && s.tasks[pk].Holding? && pk in s.db.messages
    requires |s.db.messages| <= limit && Selects(f, s.db.messages[pk].priority)
    requires Ready(s.db.messages[pk].(deferredTs := None, smtpTs := None), until, f, suspended)
    requires run == [SmtpFailed(pk, Retry(until), true), Conclude(pk, s.clock), Fetch(limit, until, f, suspended, {pk})]
    ensures Possible(config, s, run) && Acceptances(run, pk) == 1
    ensures InPhase(Final(config, s, run), pk, Started)
  {
    var s2 := TimedOut(config, s, pk, until, run[0], run[1]);
    PendingIsFetched(s2.db.messages, pk, limit, until, f, suspended);
    StepKeys(config, s, run[0]);
    StepKeys(config, Next(config, s, run[0]), run[1]);
    RunThree(config, s, run[0], Next(config, s, run[0]), run[1], s2, run[2]);
    assert run == [run[0], run[1], run[2]];
    ThreeAcceptances(run, pk);
  }

  lemma ThreeAcceptances(run: seq<Step>, pk: Pk)
    requires |run| == 3 && Takes(run[0], pk) && !Takes(run[1], pk) && !Takes(run[2], pk)
    ensures Acceptances(run, pk) == 1
  {
    assert run[1..][1..] == run[2..] && run[2..][1..] == [];
    assert Acceptances(run[2..], pk) == 0;
    assert Acceptances(run[1..], pk) == 0;
  }

  lemma TimedOut(config: Config, s: System, pk: Pk, until: int, fail: Step, conclude: Step) returns (s': System)
    requires KeysSound(s) && s.clock > 0 && s.tasks.Keys == {pk} && s.tasks[pk].Holding? && pk in s.db.messages
    requires fail == SmtpFailed(pk, Retry(until), true) && conclude == Conclude(pk, s.clock)
    ensures Enabled(s, fail) && Enabled(Next(config, s, fail), conclude)
    ensures s' == Next(config, Next(config, s, fail), conclude)
    ensures s'.tasks == map[] && s'.db.messages.Keys == s.db.messages.Keys
    ensures s'.db.messages[pk] == s.db.messages[pk].(deferredTs := Some(until), smtpTs := None)
    ensures |s'.db.messages| == |s.db.messages|
  {
    var mid := Next(config, s, fail);
    assert mid.tasks == s.tasks[pk := Concluding(Retry(until))];
    s' := Retried(config, mid, pk, until, conclude);
  }

  lemma Retried(config: Config, s: System, pk: Pk, until: int, conclude: Step) returns (s': System)
    requires Unique(s.db.messages) && s.clock > 0 && s.tasks == map[pk := Concluding(Retry(until))]
    requires pk in s.db.messages && conclude == Conclude(pk, s.clock)
    ensures Enabled(s, conclude) && s' == Next(config, s, conclude)
    ensures s'.tasks == map[] && s'.db.messages.Keys == s.db.messages.Keys
    ensures s'.db.messages[pk] == s.db.messages[pk].(deferredTs := Some(until), smtpTs := None)
    ensures |s'.db.messages| == |s.db.messages|
  {
    s' := Next(config, s, conclude);
    SameSize(s.db.messages, s'.db.messages);
  }

  lemma SameSize(ms: map<Pk, Message>, ms': map<Pk, Message>)
    requires ms.Keys == ms'.Keys
    ensures |ms| == |ms'|
  {
    assert |ms| == |ms.Keys| && |ms'| == |ms'.Keys|;
  }

  lemma PendingIsFetched(ms: map<Pk, Message>, pk: Pk, limit: nat, now: int, f: PriorityFilter, suspended: Suspensions)
    requires pk in ms && |ms| <= limit && Ready(ms[pk], now, f, suspended)
    ensures pk in FetchReady(ms, limit, now, f, suspended)
  {
    var ranking := ReadyRanking(ms, now, f, suspended);
    assert ranking.Keys <= ms.Keys;
    OrderedQuery.SubsetCount(ranking.Keys, ms.Keys);
    OrderedQuery.PageComplete(ranking, limit, pk);
  }
}
