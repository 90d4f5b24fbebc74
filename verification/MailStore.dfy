/**
  The message queue and its event log (src/core/mail_proxy/entities/message/table.py and
  src/core/mail_proxy/entities/message_event/table.py), on the record and trigger mechanism of
  src/sql/table.py.

  `Db` is the value of the two tables.  Events carry an autoincremented key and are never
  deleted, so an event's key is its place in the log.  The functions say what each table
  operation does; the class `MailStore` performs them in place.
 */
module MailStore {
  import opened Options
  import opened Sequences
  import OrderedQuery
  import BatchSuspension
  import Text

  /** A message's UUID, read as a number. */
  type Pk = nat

  datatype Message = Message(
    id: string,
    tenantId: string,
    accountId: Option<string>,
    priority: int,
    payload: string,
    batchCode: Option<string>,
    createdAt: int,
    deferredTs: Option<int>,
    smtpTs: Option<int>)

  /** Bounces and certified-mail receipts are `Notice`s. */
  datatype Kind = Sent | Error | Deferred | Notice(name: string)

  /** `deferUntil` is the "deferred_ts" entry of the event's metadata. */
  datatype Event = Event(messagePk: Pk, kind: Kind, ts: int, deferUntil: Option<int>, reportedTs: Option<int>)

  datatype Db = Db(messages: map<Pk, Message>, events: seq<Event>)

  const EMPTY_DB := Db(map[], [])

  // ---------------------------------------------------------------- single rows

  /** `async with record(pk)`: a missing row is left missing. */
  function SetDeferred(ms: map<Pk, Message>, pk: Pk, ts: int): map<Pk, Message> {
    if pk in ms then ms[pk := ms[pk].(deferredTs := Some(ts), smtpTs := None)] else ms
  }

  function ClearDeferred(ms: map<Pk, Message>, pk: Pk): map<Pk, Message> {
    if pk in ms then ms[pk := ms[pk].(deferredTs := None)] else ms
  }

  /** `mark_sent` and `mark_error` write the same columns. */
  function MarkProcessed(ms: map<Pk, Message>, pk: Pk, ts: int): map<Pk, Message> {
    if pk in ms then ms[pk := ms[pk].(smtpTs := Some(ts), deferredTs := None)] else ms
  }

  function UpdatePayload(ms: map<Pk, Message>, pk: Pk, payload: string): map<Pk, Message> {
    if pk in ms then ms[pk := ms[pk].(payload := payload)] else ms
  }

  /** `trigger_on_inserted`: a zero timestamp is falsy and triggers nothing. */
  function Triggered(ms: map<Pk, Message>, e: Event): map<Pk, Message> {
    if e.ts == 0 then ms
    else match e.kind
      case Sent => MarkProcessed(ms, e.messagePk, e.ts)
      case Error => MarkProcessed(ms, e.messagePk, e.ts)
      case Deferred => SetDeferred(ms, e.messagePk, if e.deferUntil.Some? then e.deferUntil.value else e.ts)
      case Notice(_) => ms
  }

  function AddEvent(db: Db, e: Event): Db {
    Db(Triggered(db.messages, e), db.events + [e])
  }

  // ---------------------------------------------------------------- submission

  datatype Entry = Entry(
    id: string,
    tenantId: Option<string>,
    accountId: Option<string>,
    priority: int,
    payload: string,
    batchCode: Option<string>,
    deferredTs: Option<int>)

  /** UNIQUE (tenant_id, id). */
  predicate Unique(ms: map<Pk, Message>) {
    forall p, q :: p in ms && q in ms && ms[p].tenantId == ms[q].tenantId && ms[p].id == ms[q].id ==> p == q
  }

  predicate Matches(ms: map<Pk, Message>, tenant: string, id: string, pk: Pk) {
    pk in ms && ms[pk].tenantId == tenant && ms[pk].id == id
  }

  function Lookup(ms: map<Pk, Message>, tenant: string, id: string): (pk: Option<Pk>)
    requires Unique(ms)
    ensures pk.Some? ==> Matches(ms, tenant, id, pk.value)
    ensures pk.None? ==> forall p :: !Matches(ms, tenant, id, p)
  {
    if p :| p in ms && Matches(ms, tenant, id, p) then Some(p) else None
  }

  function TenantOf(e: Entry, tenant: Option<string>): string {
    if e.tenantId.Some? && e.tenantId.value != "" then e.tenantId.value
    else if tenant.Some? then tenant.value else ""
  }

  /** A pending row takes the entry's fields; `smtp_ts`, the identity and the age stay. */
  function Overwritten(m: Message, e: Entry): Message {
    m.(accountId := e.accountId, priority := e.priority, payload := e.payload,
       batchCode := e.batchCode, deferredTs := e.deferredTs)
  }

  function NewMessage(e: Entry, tenant: string, now: int): Message {
    Message(e.id, tenant, e.accountId, e.priority, e.payload, e.batchCode, now, e.deferredTs, None)
  }

  datatype Submission = Skipped | Queued(id: string, pk: Pk)

  /** One turn of the loop of `insert_batch`; `uuid` is the key a new row would get. */
  function SubmitResult(ms: map<Pk, Message>, e: Entry, tenant: Option<string>, uuid: Pk): Submission
    requires Unique(ms)
  {
    if TenantOf(e, tenant) == "" then Skipped
    else
      var found := Lookup(ms, TenantOf(e, tenant), e.id);
      if found.None? then Queued(e.id, uuid)
      else if ms[found.value].smtpTs.Some? then Skipped
      else Queued(e.id, found.value)
  }

  function Submitted(ms: map<Pk, Message>, e: Entry, tenant: Option<string>, uuid: Pk,
                     now: int): (ms': map<Pk, Message>)
    requires Unique(ms)
    ensures uuid !in ms ==> Unique(ms')
    ensures ms.Keys <= ms'.Keys <= ms.Keys + {uuid}
  {
    match SubmitResult(ms, e, tenant, uuid)
    case Skipped => ms
    case Queued(_, pk) =>
      if pk in ms then ms[pk := Overwritten(ms[pk], e)]
      else ms[pk := NewMessage(e, TenantOf(e, tenant), now)]
  }

  predicate FreshKeys(ms: map<Pk, Message>, uuids: seq<Pk>) {
    && (forall i :: 0 <= i < |uuids| ==> uuids[i] !in ms)
    && Distinct(uuids)
  }

  /** The table after the first `n` entries of a batch. */
  function SubmittedAll(ms: map<Pk, Message>, es: seq<Entry>, tenant: Option<string>, uuids: seq<Pk>, now: int,
                        n: nat): (ms': map<Pk, Message>)
    requires Unique(ms) && FreshKeys(ms, uuids) && n <= |es| == |uuids|
    ensures Unique(ms') && ms.Keys <= ms'.Keys
    ensures forall j :: n <= j < |uuids| ==> uuids[j] !in ms'
  {
    if n == 0 then ms
    else Submitted(SubmittedAll(ms, es, tenant, uuids, now, n - 1), es[n - 1], tenant, uuids[n - 1], now)
  }

  function ResultAt(ms: map<Pk, Message>, es: seq<Entry>, tenant: Option<string>, uuids: seq<Pk>, now: int,
                    k: nat): Submission
    requires Unique(ms) && FreshKeys(ms, uuids) && k < |es| == |uuids|
  {
    SubmitResult(SubmittedAll(ms, es, tenant, uuids, now, k), es[k], tenant, uuids[k])
  }

  /** What `insert_batch` returns: the queued ones of the first `n` entries, in order. */
  function QueuedAll(ms: map<Pk, Message>, es: seq<Entry>, tenant: Option<string>, uuids: seq<Pk>, now: int,
                     n: nat): seq<(string, Pk)>
    requires Unique(ms) && FreshKeys(ms, uuids) && n <= |es| == |uuids|
  {
    if n == 0 then []
    else
      QueuedAll(ms, es, tenant, uuids, now, n - 1) + Listed(ResultAt(ms, es, tenant, uuids, now, n - 1))
  }

  function Listed(r: Submission): seq<(string, Pk)> {
    match r
    case Skipped => []
    case Queued(id, pk) => [(id, pk)]
  }

  // ---------------------------------------------------------------- queries

  /** Either an exact priority, or a least one. */
  datatype PriorityFilter = Exactly(priority: int) | AtLeast(priority: int)

  predicate Selects(f: PriorityFilter, priority: int) {
    match f
    case Exactly(p) => priority == p
    case AtLeast(p) => priority >= p
  }

  /** The tenants' suspension columns, and how the database reads LIKE. */
  datatype Suspensions = Suspensions(columns: map<string, BatchSuspension.Column>, dialect: Text.Dialect)

  /** A tenant without a row reads as NULL. */
  function ColumnOf(suspended: Suspensions, tenant: string): BatchSuspension.Column {
    if tenant in suspended.columns then suspended.columns[tenant] else None
  }

  /** The WHERE clause of `fetch_ready`. */
  predicate Ready(m: Message, now: int, f: PriorityFilter, suspended: Suspensions) {
    && m.smtpTs.None?
    && (m.deferredTs.None? || m.deferredTs.value <= now)
    && Selects(f, m.priority)
    && BatchSuspension.SqlAllows(ColumnOf(suspended, m.tenantId), m.batchCode, suspended.dialect)
  }

  function ReadyRanking(ms: map<Pk, Message>, now: int, f: PriorityFilter,
                        suspended: Suspensions): OrderedQuery.Ranking {
    map pk | pk in ms && Ready(ms[pk], now, f, suspended) :: (ms[pk].priority, ms[pk].createdAt)
  }

  function FetchReady(ms: map<Pk, Message>, limit: nat, now: int, f: PriorityFilter,
                      suspended: Suspensions): seq<Pk> {
    OrderedQuery.Page(ReadyRanking(ms, now, f, suspended), limit)
  }

  /** An event is eligible for a report while it is unreported and its message exists. */
  predicate Eligible(db: Db, k: nat) {
    k < |db.events| && db.events[k].reportedTs.None? && db.events[k].messagePk in db.messages
  }

  function UnreportedRanking(db: Db): OrderedQuery.Ranking {
    map k: nat | 0 <= k < |db.events| && Eligible(db, k) :: (db.events[k].ts, k)
  }

  function FetchUnreported(db: Db, limit: nat): seq<nat> {
    OrderedQuery.Page(UnreportedRanking(db), limit)
  }

  // ---------------------------------------------------------------- reporting and retention

  function MarkReported(db: Db, ids: set<nat>, ts: int): Db {
    db.(events := seq(|db.events|, k requires 0 <= k < |db.events| =>
                    if k in ids then db.events[k].(reportedTs := Some(ts)) else db.events[k]))
  }

  predicate HasEvents(db: Db, pk: Pk) {
    exists k :: 0 <= k < |db.events| && db.events[k].messagePk == pk
  }

  /** SELECT MAX(reported_ts) over a message's events: NULLs are ignored, and alone give NULL. */
  function LastReported(events: seq<Event>, pk: Pk): Option<int> {
    if events == [] then None
    else
      var before, e := LastReported(events[..|events| - 1], pk), events[|events| - 1];
      if e.messagePk != pk || e.reportedTs.None? then before
      else if before.Some? && before.value > e.reportedTs.value then before
      else e.reportedTs
  }

  predicate HasUnreported(db: Db, pk: Pk) {
    exists k :: 0 <= k < |db.events| && db.events[k].messagePk == pk && db.events[k].reportedTs.None?
  }

  /** The condition of the retention DELETE; a comparison with NULL does not hold. */
  predicate Removable(db: Db, pk: Pk, threshold: int)
    requires pk in db.messages
  {
    && db.messages[pk].smtpTs.Some?
    && !HasUnreported(db, pk)
    && LastReported(db.events, pk).Some? && LastReported(db.events, pk).value < threshold
  }

  /** What it is meant to say. */
  predicate FullyReportedBefore(db: Db, pk: Pk, threshold: int) {
    && HasEvents(db, pk)
    && forall k :: 0 <= k < |db.events| && db.events[k].messagePk == pk ==>
         db.events[k].reportedTs.Some? && db.events[k].reportedTs.value < threshold
  }

  /** The retention DELETE, over all messages or over those of one tenant. */
  function RemoveFullyReported(db: Db, threshold: int, scope: set<Pk>): Db {
    db.(messages := map pk | pk in db.messages && !(pk in scope && Removable(db, pk, threshold)) :: db.messages[pk])
  }

  function RemoveByPk(db: Db, pk: Pk): Db {
    db.(messages := db.messages - {pk})
  }

  // ---------------------------------------------------------------- the class

  class MailStore {
    var messages: map<Pk, Message>
    var events: seq<Event>

    constructor ()
      ensures Value() == EMPTY_DB
    {
      messages, events := map[], [];
    }

    function Value(): Db
      reads this
    {
      Db(messages, events)
    }

    method SetDeferredRow(pk: Pk, ts: int)
      modifies this`messages
      ensures messages == SetDeferred(old(messages), pk, ts)
    {
      if pk in messages {
        messages := messages[pk := messages[pk].(deferredTs := Some(ts), smtpTs := None)];
      }
    }

    method ClearDeferredRow(pk: Pk)
      modifies this`messages
      ensures messages == ClearDeferred(old(messages), pk)
    {
      if pk in messages {
        messages := messages[pk := messages[pk].(deferredTs := None)];
      }
    }

    method MarkSent(pk: Pk, ts: int)
      modifies this`messages
      ensures messages == MarkProcessed(old(messages), pk, ts)
    {
      if pk in messages {
        messages := messages[pk := messages[pk].(smtpTs := Some(ts), deferredTs := None)];
      }
    }

    method MarkError(pk: Pk, ts: int)
      modifies this`messages
      ensures messages == MarkProcessed(old(messages), pk, ts)
    {
      if pk in messages {
        messages := messages[pk := messages[pk].(smtpTs := Some(ts), deferredTs := None)];
      }
    }

    method UpdatePayloadRow(pk: Pk, payload: string)
      modifies this`messages
      ensures messages == UpdatePayload(old(messages), pk, payload)
    {
      if pk in messages {
        messages := messages[pk := messages[pk].(payload := payload)];
      }
    }

    /** Inserting an event runs the trigger that updates its message. */
    method Add(e: Event)
      modifies this
      ensures Value() == AddEvent(old(Value()), e)
    {
      events := events + [e];
      if e.ts == 0 {
        return;
      }
      match e.kind
      case Sent => MarkSent(e.messagePk, e.ts);
      case Error => MarkError(e.messagePk, e.ts);
      case Deferred =>
        var until := e.ts;
        if e.deferUntil.Some? {
          until := e.deferUntil.value;
        }
        SetDeferredRow(e.messagePk, until);
      case Notice(_) =>
    }

    /** The body of the loop of `insert_batch`. */
    method SubmitRow(e: Entry, tenant: Option<string>, uuid: Pk, now: int) returns (r: Submission)
      requires Unique(messages) && uuid !in messages
      modifies this`messages
      ensures r == SubmitResult(old(messages), e, tenant, uuid)
      ensures messages == Submitted(old(messages), e, tenant, uuid, now)
    {
      var t := TenantOf(e, tenant);
      if t == "" {
        return Skipped;
      }
      var existing := Lookup(messages, t, e.id);
      if existing.Some? {
        if messages[existing.value].smtpTs.Some? {
          return Skipped;
        }
        messages := messages[existing.value := Overwritten(messages[existing.value], e)];
        return Queued(e.id, existing.value);
      }
      messages := messages[uuid := NewMessage(e, t, now)];
      return Queued(e.id, uuid);
    }

    method InsertBatch(es: seq<Entry>, tenant: Option<string>, uuids: seq<Pk>, now: int)
      returns (queued: seq<(string, Pk)>)
      requires Unique(messages) && FreshKeys(messages, uuids) && |es| == |uuids|
      modifies this`messages
      ensures messages == SubmittedAll(old(messages), es, tenant, uuids, now, |es|)
      ensures queued == QueuedAll(old(messages), es, tenant, uuids, now, |es|)
    {
      queued := [];
      ghost var before := messages;
      for i := 0 to |es|
        invariant messages == SubmittedAll(before, es, tenant, uuids, now, i)
        invariant queued == QueuedAll(before, es, tenant, uuids, now, i)
      {
        var r := SubmitRow(es[i], tenant, uuids[i], now);
        assert r == ResultAt(before, es, tenant, uuids, now, i);
        queued := queued + Listed(r);
      }
    }

    /** A single UPDATE over the listed keys. */
    method MarkReportedRows(ids: seq<nat>, ts: int)
      modifies this`events
      ensures Value() == MarkReported(old(Value()), Elements(ids), ts)
    {
      if ids == [] {
        assert events == MarkReported(Value(), {}, ts).events;
        return;
      }
      events := seq(|events|, k requires 0 <= k < |events| reads this =>
                  if k in ids then events[k].(reportedTs := Some(ts)) else events[k]);
    }

    method RemoveFullyReportedRows(threshold: int)
      modifies this`messages
      ensures Value() == RemoveFullyReported(old(Value()), threshold, old(messages).Keys)
    {
      messages := map pk | pk in messages && !Removable(Value(), pk, threshold) :: messages[pk];
    }
  }

  // ---------------------------------------------------------------- what submission promises

  /**
    Submitting leaves every status as it was: processed rows are untouched, pending rows stay
    pending, and a new row starts pending.
   */
  lemma SubmitKeepsStatus(ms: map<Pk, Message>, e: Entry, tenant: Option<string>, uuid: Pk, now: int)
    requires Unique(ms) && uuid !in ms
    ensures forall pk :: pk in ms ==> Submitted(ms, e, tenant, uuid, now)[pk].smtpTs == ms[pk].smtpTs
    ensures forall pk :: pk in ms && ms[pk].smtpTs.Some? ==> Submitted(ms, e, tenant, uuid, now)[pk] == ms[pk]
    ensures uuid in Submitted(ms, e, tenant, uuid, now) ==> Submitted(ms, e, tenant, uuid, now)[uuid].smtpTs.None?
  {
  }

  /** A queued entry is in the table afterwards, pending, with the entry's content. */
  lemma QueuedIsPending(ms: map<Pk, Message>, e: Entry, tenant: Option<string>, uuid: Pk, now: int)
    requires Unique(ms) && uuid !in ms && SubmitResult(ms, e, tenant, uuid).Queued?
    ensures var pk := SubmitResult(ms, e, tenant, uuid).pk;
            var ms' := Submitted(ms, e, tenant, uuid, now);
            && Matches(ms', TenantOf(e, tenant), e.id, pk)
            && ms'[pk].smtpTs.None? && ms'[pk].payload == e.payload && ms'[pk].deferredTs == e.deferredTs
            && ms'[pk].accountId == e.accountId && ms'[pk].priority == e.priority && ms'[pk].batchCode == e.batchCode
            && ms'[pk].createdAt == (if pk in ms then ms[pk].createdAt else now)
            && forall q :: q in ms && q != pk ==> q in ms' && ms'[q] == ms[q]
  {
  }

  /** What the updates of single rows write: one row, and of it the columns named alone. */
  lemma RowUpdates(ms: map<Pk, Message>, pk: Pk, ts: int, text: string, q: Pk)
    requires q in ms
    ensures q in SetDeferred(ms, pk, ts) && q in ClearDeferred(ms, pk) && q in MarkProcessed(ms, pk, ts)
            && q in UpdatePayload(ms, pk, text)
    ensures SetDeferred(ms, pk, ts)[q] == if q == pk then ms[q].(deferredTs := Some(ts), smtpTs := None) else ms[q]
    ensures ClearDeferred(ms, pk)[q] == if q == pk then ms[q].(deferredTs := None) else ms[q]
    ensures MarkProcessed(ms, pk, ts)[q] == if q == pk then ms[q].(deferredTs := None, smtpTs := Some(ts)) else ms[q]
    ensures UpdatePayload(ms, pk, text)[q] == if q == pk then ms[q].(payload := text) else ms[q]
  {
  }

  /** What an event does to the rows: nothing for a notice or without a time, and to its own message only. */
  lemma EventOnColumns(db: Db, e: Event, pk: Pk)
    requires pk in db.messages
    ensures var m, m' := db.messages[pk], AddEvent(db, e).messages[pk];
            if pk != e.messagePk || e.ts == 0 || e.kind.Notice? then m' == m
            else if e.kind.Deferred?
            then m' == m.(smtpTs := None,
                          deferredTs := Some(if e.deferUntil.Some? then e.deferUntil.value else e.ts))
            else m' == m.(smtpTs := Some(e.ts), deferredTs := None)
  {
  }

  // ---------------------------------------------------------------- fetching

  /**
    A fetched batch holds distinct pending messages whose time has come, in the order of
    priority, age and key; one that is ready but left out comes after all of them.
   */
  lemma FetchReadySpec(ms: map<Pk, Message>, limit: nat, now: int, f: PriorityFilter,
                       suspended: Suspensions)
    ensures var batch := FetchReady(ms, limit, now, f, suspended);
            && (forall i :: 0 <= i < |batch| ==> batch[i] in ms && Ready(ms[batch[i]], now, f, suspended))
            && Distinct(batch)
            && OrderedQuery.Ordered(ReadyRanking(ms, now, f, suspended), batch)
            && OrderedQuery.LeavesLater(ReadyRanking(ms, now, f, suspended), batch)
  {
    OrderedQuery.PageSpec(ReadyRanking(ms, now, f, suspended), limit);
    OrderedQuery.PageDistinct(ReadyRanking(ms, now, f, suspended), limit);
  }

  /** The ready messages, on the columns. */
  function Waiting(ms: map<Pk, Message>, now: int, f: PriorityFilter, suspended: Suspensions): set<Pk> {
    set q | q in ms && ms[q].smtpTs == None
            && (ms[q].deferredTs.Some? ==> ms[q].deferredTs.value <= now)
            && (f.Exactly? ==> ms[q].priority == f.priority) && (f.AtLeast? ==> ms[q].priority >= f.priority)
            && (ms[q].tenantId in suspended.columns ==>
                  BatchSuspension.SqlAllows(suspended.columns[ms[q].tenantId], ms[q].batchCode, suspended.dialect))
  }

  /** Those of some messages that go before one of them: smaller priority number, then older, then smaller key. */
  function Sooner(ms: map<Pk, Message>, some: set<Pk>, pk: Pk): set<Pk>
    requires some <= ms.Keys && pk in ms
  {
    set q | q in some && (ms[q].priority < ms[pk].priority
              || (ms[q].priority == ms[pk].priority
                  && (ms[q].createdAt < ms[pk].createdAt || (ms[q].createdAt == ms[pk].createdAt && q < pk))))
  }

  /** The fetched batch on the columns: the ready messages that fewer than `limit` others go before. */
  lemma FetchReadyOnColumns(ms: map<Pk, Message>, limit: nat, now: int, f: PriorityFilter, suspended: Suspensions,
                            pk: Pk)
    ensures pk in FetchReady(ms, limit, now, f, suspended) <==>
              pk in Waiting(ms, now, f, suspended) && |Sooner(ms, Waiting(ms, now, f, suspended), pk)| < limit
  {
    var rank, ready := ReadyRanking(ms, now, f, suspended), Waiting(ms, now, f, suspended);
    ReadyIsWaiting(ms, now, f, suspended);
    OrderedQuery.PageExact(rank, limit, pk);
    if pk in ready {
      AheadIsSooner(ms, rank, ready, pk);
    }
  }

  lemma ReadyIsWaiting(ms: map<Pk, Message>, now: int, f: PriorityFilter, suspended: Suspensions)
    ensures ReadyRanking(ms, now, f, suspended).Keys == Waiting(ms, now, f, suspended) <= ms.Keys
  {
    var rank, ready := ReadyRanking(ms, now, f, suspended), Waiting(ms, now, f, suspended);
    forall q
      ensures q in ready <==> q in rank
    {
    }
  }

  lemma AheadIsSooner(ms: map<Pk, Message>, rank: OrderedQuery.Ranking, ready: set<Pk>, pk: Pk)
    requires rank.Keys == ready <= ms.Keys && pk in ready
    requires forall q :: q in rank ==> rank[q] == (ms[q].priority, ms[q].createdAt)
    ensures OrderedQuery.Ahead(rank, pk) == Sooner(ms, ready, pk)
  {
  }

  /** Its order on the columns: priority number, creation, key, all ascending; so too against ready rows left out. */
  lemma FetchReadyInOrder(ms: map<Pk, Message>, limit: nat, now: int, f: PriorityFilter, suspended: Suspensions)
    ensures var batch := FetchReady(ms, limit, now, f, suspended);
            && (forall i :: 0 <= i < |batch| ==> batch[i] in ms)
            && (forall i, j :: 0 <= i < j < |batch| ==>
                  var a, b := ms[batch[i]], ms[batch[j]];
                  a.priority < b.priority || (a.priority == b.priority
                    && (a.createdAt < b.createdAt || (a.createdAt == b.createdAt && batch[i] < batch[j]))))
            && (forall i, r :: 0 <= i < |batch| && r in ms && Ready(ms[r], now, f, suspended) && r !in batch ==>
                  var a, b := ms[batch[i]], ms[r];
                  a.priority < b.priority || (a.priority == b.priority
                    && (a.createdAt < b.createdAt || (a.createdAt == b.createdAt && batch[i] < r))))
  {
    var rank := ReadyRanking(ms, now, f, suspended);
    var batch := OrderedQuery.Page(rank, limit);
    OrderedQuery.PageSpec(rank, limit);
    OrderedQuery.PageAscending(rank, limit);
    assert forall pk :: pk in rank <==> pk in ms && Ready(ms[pk], now, f, suspended);
    assert forall pk :: pk in rank ==> rank[pk] == (ms[pk].priority, ms[pk].createdAt);
    forall i | 0 <= i < |batch|
      ensures batch[i] in rank
    {
    }
  }

  lemma FetchUnreportedSpec(db: Db, limit: nat)
    ensures forall i :: 0 <= i < |FetchUnreported(db, limit)| ==> Eligible(db, FetchUnreported(db, limit)[i])
    ensures Distinct(FetchUnreported(db, limit))
  {
    OrderedQuery.PageSpec(UnreportedRanking(db), limit);
    OrderedQuery.PageDistinct(UnreportedRanking(db), limit);
  }

  /** An eligible event is fetched exactly when fewer than `limit` eligible ones rank before it, by age. */
  lemma FetchedIff(db: Db, limit: nat, k: nat)
    ensures k in FetchUnreported(db, limit) <==>
              k in UnreportedRanking(db) && |OrderedQuery.Ahead(UnreportedRanking(db), k)| < limit
    ensures k in UnreportedRanking(db) <==> Eligible(db, k)
  {
    OrderedQuery.PageSpec(UnreportedRanking(db), limit);
    if Eligible(db, k) {
      OrderedQuery.PageMemberIff(UnreportedRanking(db), limit, k);
    }
  }

  /** The events without report time whose message exists. */
  function Unreported(db: Db): set<nat> {
    set j: nat | j < |db.events| && db.events[j].reportedTs == None && db.events[j].messagePk in db.messages
  }

  /** Those of some events that go before one of them: earlier, or as early with a smaller key. */
  function Earlier(db: Db, some: set<nat>, k: nat): set<nat>
    requires k < |db.events| && forall j :: j in some ==> j < |db.events|
  {
    set j | j in some && (db.events[j].ts < db.events[k].ts || (db.events[j].ts == db.events[k].ts && j < k))
  }

  /**
    The reporter's page on the columns: the unreported events that fewer than `limit` others go
    before, in that order.
   */
  lemma FetchUnreportedOnColumns(db: Db, limit: nat, k: nat)
    ensures k in FetchUnreported(db, limit) <==>
              k in Unreported(db) && |Earlier(db, Unreported(db), k)| < limit
    ensures var page := FetchUnreported(db, limit);
            && (forall i :: 0 <= i < |page| ==> page[i] < |db.events|)
            && forall i, j :: 0 <= i < j < |page| ==>
                 db.events[page[i]].ts < db.events[page[j]].ts
                 || (db.events[page[i]].ts == db.events[page[j]].ts && page[i] < page[j])
  {
    var rank, open := UnreportedRanking(db), Unreported(db);
    RankedIsUnreported(db);
    OrderedQuery.PageExact(rank, limit, k);
    if k in open {
      AheadIsEarlier(db, rank, open, k);
    }
    PageByTime(db, limit);
  }

  lemma RankedIsUnreported(db: Db)
    ensures UnreportedRanking(db).Keys == Unreported(db)
  {
    forall j: nat
      ensures j in Unreported(db) <==> j in UnreportedRanking(db)
    {
    }
  }

  lemma AheadIsEarlier(db: Db, rank: OrderedQuery.Ranking, some: set<nat>, k: nat)
    requires rank.Keys == some && k in some
    requires forall j :: j in some ==> j < |db.events| && rank[j] == (db.events[j].ts, j)
    ensures OrderedQuery.Ahead(rank, k) == Earlier(db, some, k)
  {
  }

  lemma PageByTime(db: Db, limit: nat)
    ensures var page := FetchUnreported(db, limit);
            && (forall i :: 0 <= i < |page| ==> page[i] < |db.events|)
            && forall i, j :: 0 <= i < j < |page| ==>
                 db.events[page[i]].ts < db.events[page[j]].ts
                 || (db.events[page[i]].ts == db.events[page[j]].ts && page[i] < page[j])
  {
    var rank := UnreportedRanking(db);
    var page := OrderedQuery.Page(rank, limit);
    OrderedQuery.PageSpec(rank, limit);
    OrderedQuery.PageAscending(rank, limit);
    assert forall j :: j in rank ==> j < |db.events| && rank[j] == (db.events[j].ts, j);
  }

  predicate ReportedAt(events: seq<Event>, pk: Pk, k: int, ts: int) {
    0 <= k < |events| && events[k].messagePk == pk && events[k].reportedTs == Some(ts)
  }

  lemma {:induction false} LastReportedSpec(events: seq<Event>, pk: Pk)
    ensures LastReported(events, pk).Some? ==> exists k :: ReportedAt(events, pk, k, LastReported(events, pk).value)
    ensures forall k, ts :: ReportedAt(events, pk, k, ts) ==>
              LastReported(events, pk).Some? && ts <= LastReported(events, pk).value
  {
    if events != [] {
      var n := |events| - 1;
      var front := events[..n];
      LastReportedSpec(front, pk);
      forall k, ts | ReportedAt(events, pk, k, ts)
        ensures LastReported(events, pk).Some? && ts <= LastReported(events, pk).value
      {
        assert k < n ==> ReportedAt(front, pk, k, ts);
      }
      if LastReported(events, pk).Some? {
        if LastReported(events, pk) == LastReported(front, pk) {
          var k :| ReportedAt(front, pk, k, LastReported(front, pk).value);
          assert ReportedAt(events, pk, k, LastReported(events, pk).value);
        } else {
          assert ReportedAt(events, pk, n, LastReported(events, pk).value);
        }
      }
    }
  }

  /** The DELETE's subqueries say that the message has events, all reported before the threshold. */
  lemma RemovableIff(db: Db, pk: Pk, threshold: int)
    requires pk in db.messages
    ensures Removable(db, pk, threshold) <==>
              db.messages[pk].smtpTs.Some? && FullyReportedBefore(db, pk, threshold)
  {
    var last := LastReported(db.events, pk);
    LastReportedSpec(db.events, pk);
    if Removable(db, pk, threshold) {
      var k :| ReportedAt(db.events, pk, k, last.value);
      assert HasEvents(db, pk);
      forall j | 0 <= j < |db.events| && db.events[j].messagePk == pk
        ensures db.events[j].reportedTs.Some? && db.events[j].reportedTs.value < threshold
      {
        assert db.events[j].reportedTs.Some?;
        assert ReportedAt(db.events, pk, j, db.events[j].reportedTs.value);
      }
    }
    if FullyReportedBefore(db, pk, threshold) {
      var k :| 0 <= k < |db.events| && db.events[k].messagePk == pk;
      assert ReportedAt(db.events, pk, k, db.events[k].reportedTs.value);
      var j :| ReportedAt(db.events, pk, j, last.value);
    }
  }

  /**
    Retention deletes exactly the processed messages with events, all reported before the
    threshold; so no event that is eligible stops being so.
   */
  lemma RetentionExact(db: Db, threshold: int, scope: set<Pk>, pk: Pk)
    requires pk in db.messages && pk in scope
    ensures pk !in RemoveFullyReported(db, threshold, scope).messages <==>
              && db.messages[pk].smtpTs.Some?
              && (exists k :: 0 <= k < |db.events| && db.events[k].messagePk == pk)
              && forall k :: 0 <= k < |db.events| && db.events[k].messagePk == pk ==>
                   db.events[k].reportedTs.Some? && db.events[k].reportedTs.value < threshold
    ensures forall k: nat :: Eligible(db, k) ==> Eligible(RemoveFullyReported(db, threshold, scope), k)
  {
    RemovableIff(db, pk, threshold);
    forall k: nat | Eligible(db, k)
      ensures Eligible(RemoveFullyReported(db, threshold, scope), k)
    {
      RemovableIff(db, db.events[k].messagePk, threshold);
    }
  }

  // ---------------------------------------------------------------- the status column

  /** Events that the trigger acts on. */
  predicate Effective(e: Event) {
    e.ts != 0 && !e.kind.Notice?
  }

  /** The status an effective event gives its message. */
  function StatusBy(e: Event): Option<int> {
    if e.kind.Deferred? then None else Some(e.ts)
  }

  /** The status the log implies: the latest effective event of the message decides. */
  function StatusOf(events: seq<Event>, pk: Pk): Option<int> {
    if events == [] then None
    else
      var e := events[|events| - 1];
      if e.messagePk == pk && Effective(e) then StatusBy(e)
      else StatusOf(events[..|events| - 1], pk)
  }

  function SentCount(events: seq<Event>, pk: Pk): nat {
    if events == [] then 0
    else
      var e := events[|events| - 1];
      SentCount(events[..|events| - 1], pk) + (if e.messagePk == pk && e.kind.Sent? then 1 else 0)
  }

  ghost predicate StatusRefinesLog(db: Db) {
    forall pk :: pk in db.messages ==> db.messages[pk].smtpTs == StatusOf(db.events, pk)
  }

  lemma {:induction false} NoEventsNoStatus(events: seq<Event>, pk: Pk)
    requires forall k :: 0 <= k < |events| && events[k].messagePk == pk ==> !Effective(events[k])
    ensures StatusOf(events, pk) == None
  {
    if events != [] {
      NoEventsNoStatus(events[..|events| - 1], pk);
    }
  }

  lemma AddEventKeepsStatus(db: Db, e: Event)
    requires StatusRefinesLog(db)
    ensures StatusRefinesLog(AddEvent(db, e))
  {
    assert AddEvent(db, e).events[..|db.events|] == db.events;
  }

  lemma {:induction false} StatusIgnoresReports(events: seq<Event>, events': seq<Event>, pk: Pk)
    requires |events| == |events'|
    requires forall k :: 0 <= k < |events| ==> events'[k] == events[k].(reportedTs := events'[k].reportedTs)
    ensures StatusOf(events', pk) == StatusOf(events, pk)
  {
    if events != [] {
      StatusIgnoresReports(events[..|events| - 1], events'[..|events| - 1], pk);
    }
  }

  lemma {:induction false} SentCountIgnoresReports(events: seq<Event>, events': seq<Event>, pk: Pk)
    requires |events| == |events'|
    requires forall k :: 0 <= k < |events| ==> events'[k] == events[k].(reportedTs := events'[k].reportedTs)
    ensures SentCount(events', pk) == SentCount(events, pk)
  {
    if events != [] {
      SentCountIgnoresReports(events[..|events| - 1], events'[..|events| - 1], pk);
    }
  }

  /** The status changes only with an effective event; nothing else a table does touches it. */
  lemma StatusKept(db: Db, db': Db)
    requires StatusRefinesLog(db) && db'.events == db.events
    requires forall pk :: pk in db'.messages && pk in db.messages ==> db'.messages[pk].smtpTs == db.messages[pk].smtpTs
    requires forall pk :: pk in db'.messages && pk !in db.messages ==> db'.messages[pk].smtpTs.None?
    requires forall k :: 0 <= k < |db.events| ==>
               db.events[k].messagePk in db'.messages && db.events[k].messagePk !in db.messages ==>
               !Effective(db.events[k])
    ensures StatusRefinesLog(db')
  {
    forall pk | pk in db'.messages
      ensures db'.messages[pk].smtpTs == StatusOf(db'.events, pk)
    {
      if pk !in db.messages {
        NoEventsNoStatus(db.events, pk);
      }
    }
  }

  // ---------------------------------------------------------------- record() must be atomic

  /** What leaving `record(pk)` writes when the row was read earlier: every column, the status too. */
  function WriteBack(ms: map<Pk, Message>, pk: Pk, row: Message): map<Pk, Message> {
    if pk in ms then ms[pk := row] else ms
  }

  /** The last effective event of a message from place `at` of the log on. */
  function LastEffective(events: seq<Event>, at: nat, pk: Pk): Option<Event>
    requires at <= |events|
    decreases |events|
  {
    if |events| == at then None
    else
      var e := events[|events| - 1];
      if e.messagePk == pk && Effective(e) then Some(e) else LastEffective(events[..|events| - 1], at, pk)
  }

  /** The status read may be written back: the last event since then that decides it, if any, gives the same. */
  predicate StillCurrent(events: seq<Event>, at: nat, pk: Pk, status: Option<int>)
    requires at <= |events|
  {
    var e := LastEffective(events, at, pk);
    e.Some? ==> StatusBy(e.value) == status
  }

  /** The log implies what its last effective event since the read gives, or what it implied at the read. */
  lemma {:induction false} StatusSince(events: seq<Event>, at: nat, pk: Pk)
    requires at <= |events|
    ensures var e := LastEffective(events, at, pk);
            StatusOf(events, pk) == if e.Some? then StatusBy(e.value) else StatusOf(events[..at], pk)
    decreases |events|
  {
    if at < |events| {
      StatusSince(events[..|events| - 1], at, pk);
      assert events[..|events| - 1][..at] == events[..at];
    } else {
      assert events[..at] == events;
    }
  }

  /**
    When a resubmission's read and write are apart, what it writes keeps column and log in
    agreement exactly when the last effective event of the message in between, if any, gives the
    status that was read: for a row read while pending, when it is a deferral.
   */
  lemma LateWriteKeepsStatusIff(db: Db, pk: Pk, row: Message, e: Entry, at: nat)
    requires StatusRefinesLog(db) && pk in db.messages && at <= |db.events|
    requires row.smtpTs == StatusOf(db.events[..at], pk)
    ensures StatusRefinesLog(db.(messages := WriteBack(db.messages, pk, Overwritten(row, e)))) <==>
              StillCurrent(db.events, at, pk, row.smtpTs)
    ensures row.smtpTs.None? ==>
              (StillCurrent(db.events, at, pk, row.smtpTs) <==>
                 var last := LastEffective(db.events, at, pk);
                 last.Some? ==> last.value.kind.Deferred?)
  {
    var db' := db.(messages := WriteBack(db.messages, pk, Overwritten(row, e)));
    StatusSince(db.events, at, pk);
    if StatusRefinesLog(db') {
      assert db'.messages[pk].smtpTs == StatusOf(db'.events, pk);
    }
  }

  /** The lost update: a message sent between the two becomes pending, and is fetched, again. */
  lemma SplitRecordForgetsSend(ms: map<Pk, Message>, pk: Pk, e: Entry, ts: int, limit: nat, d: Text.Dialect)
    requires pk in ms && ms[pk].smtpTs.None? && ms[pk].batchCode.None? && ts != 0
    requires e.deferredTs.None? && e.batchCode.None? && e.priority == 0
    ensures var sent := AddEvent(Db(ms, []), Event(pk, Sent, ts, None, None)).messages;
            var lost := WriteBack(sent, pk, Overwritten(ms[pk], e));
            && sent[pk].smtpTs == Some(ts)
            && lost[pk].smtpTs.None?
            && (|lost| <= limit ==> pk in FetchReady(lost, limit, ts, Exactly(0), Suspensions(map[], d)))
  {
    var sent := AddEvent(Db(ms, []), Event(pk, Sent, ts, None, None)).messages;
    var lost := WriteBack(sent, pk, Overwritten(ms[pk], e));
    var ranking := ReadyRanking(lost, ts, Exactly(0), Suspensions(map[], d));
    if |lost| <= limit {
      assert ranking.Keys <= lost.Keys;
      OrderedQuery.SubsetCount(ranking.Keys, lost.Keys);
      OrderedQuery.PageComplete(ranking, limit, pk);
    }
  }
}
