/**
  The addMessages command (`_handle_add_messages` and `_validate_enqueue_payload` in
  src/core/mail_proxy/proxy.py): a batch is split into refused items, which are stored with an
  error when they name a message at all, and accepted ones, which `insert_batch` queues or skips
  as already sent.
 */
module Enqueue {
  import opened Options
  import opened MailStore
  import opened Sequences
  import S = SendSystem

  datatype Recipients = Absent | One(address: string) | Many(addresses: seq<string>)

  /** A message as the client sent it; its priority is normalised already. */
  datatype Payload = Payload(
    id: Option<string>,
    tenantId: Option<string>,
    accountId: Option<string>,
    sender: Option<string>,
    to: Recipients,
    subject: Option<string>,
    priority: int,
    text: string,
    batchCode: Option<string>,
    deferredTs: Option<int>)

  datatype Item = NotAnObject | Object(payload: Payload)

  datatype Reason =
    | InvalidPayload
    | MissingId | MissingTenant | MissingAccount | MissingFrom | MissingTo | MissingSubject
    | UnknownAccount
    | AlreadySent

  datatype Refusal = Refusal(id: Option<string>, reason: Reason)

  datatype Response = NotAList | TooMany | Answer(ok: bool, queued: nat, rejected: seq<Refusal>)

  datatype AccountKey = AccountKey(tenantId: string, accountId: string)

  /** Python's truth of an optional string. */
  predicate Given(field: Option<string>) {
    field.Some? && field.value != ""
  }

  predicate HasRecipient(to: Recipients) {
    match to
    case Absent => false
    case One(address) => address != ""
    case Many(addresses) => exists i :: 0 <= i < |addresses| && addresses[i] != ""
  }

  /** The first thing wrong with a payload; none exactly when it is complete and its account known. */
  function Fault(p: Payload, accounts: set<AccountKey>): (fault: Option<Reason>)
    ensures fault.None? <==>
              && Given(p.id) && Given(p.tenantId) && Given(p.accountId) && Given(p.sender)
              && HasRecipient(p.to) && Given(p.subject)
              && AccountKey(p.tenantId.value, p.accountId.value) in accounts
    ensures fault.Some? && fault.value != MissingId ==> Given(p.id)
  {
    if !Given(p.id) then Some(MissingId)
    else if !Given(p.tenantId) then Some(MissingTenant)
    else if !Given(p.accountId) then Some(MissingAccount)
    else if !Given(p.sender) then Some(MissingFrom)
    else if !HasRecipient(p.to) then Some(MissingTo)
    else if !Given(p.subject) then Some(MissingSubject)
    else if AccountKey(p.tenantId.value, p.accountId.value) !in accounts then Some(UnknownAccount)
    else None
  }

  predicate Valid(item: Item, accounts: set<AccountKey>) {
    item.Object? && Fault(item.payload, accounts).None?
  }

  /** A refused item that names a message is stored all the same, to be reported as an error. */
  predicate StoredAsError(item: Item, accounts: set<AccountKey>) {
    item.Object? && Fault(item.payload, accounts).Some? && Given(item.payload.id)
  }

  function EntryOf(p: Payload, deferredTs: Option<int>): Entry
    requires p.id.Some?
  {
    Entry(p.id.value, p.tenantId, p.accountId, p.priority, p.text, p.batchCode, deferredTs)
  }

  function RefusalOf(item: Item, accounts: set<AccountKey>): Refusal
    requires !Valid(item, accounts)
  {
    if item.NotAnObject? then Refusal(None, InvalidPayload)
    else Refusal(item.payload.id, Fault(item.payload, accounts).value)
  }

  // ---------------------------------------------------------------- what the command does

  /** One turn of the first loop. */
  function AfterItem(db: Db, item: Item, uuid: Pk, accounts: set<AccountKey>, now: int): (db': Db)
    requires Unique(db.messages)
    ensures uuid !in db.messages ==> Unique(db'.messages)
    ensures db.messages.Keys <= db'.messages.Keys <= db.messages.Keys
        + (if StoredAsError(item, accounts) then {uuid} else {})
  {
    if !StoredAsError(item, accounts) then db
    else
      var e := EntryOf(item.payload, None);
      var stored := db.(messages := Submitted(db.messages, e, None, uuid, now));
      match SubmitResult(db.messages, e, None, uuid)
      case Skipped => stored
      case Queued(_, pk) =>
        SameIdentity(stored, Event(pk, Error, now, None, None));
        AddEvent(stored, Event(pk, Error, now, None, None))
  }

  lemma SameIdentity(db: Db, e: Event)
    ensures AddEvent(db, e).messages.Keys == db.messages.Keys
    ensures Unique(db.messages) ==> Unique(AddEvent(db, e).messages)
    ensures forall t, id, pk :: Matches(AddEvent(db, e).messages, t, id, pk) <==> Matches(db.messages, t, id, pk)
  {
  }

  function AfterItems(db: Db, items: seq<Item>, uuids: seq<Pk>, accounts: set<AccountKey>, now: int, n: nat): (db': Db)
    requires Unique(db.messages) && FreshKeys(db.messages, uuids) && n <= |items| == |uuids|
    ensures Unique(db'.messages) && db.messages.Keys <= db'.messages.Keys
    ensures forall j :: n <= j < |uuids| ==> uuids[j] !in db'.messages
  {
    if n == 0 then db
    else AfterItem(AfterItems(db, items, uuids, accounts, now, n - 1), items[n - 1], uuids[n - 1], accounts, now)
  }

  /** What the first loop answers about the first `n` items. */
  function Refusals(items: seq<Item>, accounts: set<AccountKey>, n: nat): seq<Refusal>
    requires n <= |items|
  {
    if n == 0 then []
    else
      Refusals(items, accounts, n - 1)
      + (if Valid(items[n - 1], accounts) then [] else [RefusalOf(items[n - 1], accounts)])
  }

  predicate HasTenant(e: Entry) {
    TenantOf(e, None) != ""
  }

  predicate AllHaveTenants(es: seq<Entry>) {
    forall k :: 0 <= k < |es| ==> HasTenant(es[k])
  }

  function Accepted(items: seq<Item>, accounts: set<AccountKey>, n: nat): (es: seq<Entry>)
    requires n <= |items|
    ensures |es| + |Refusals(items, accounts, n)| == n
    ensures AllHaveTenants(es)
  {
    if n == 0 then []
    else
      var item := items[n - 1];
      Accepted(items, accounts, n - 1)
      + (if Valid(item, accounts) then [EntryOf(item.payload, item.payload.deferredTs)] else [])
  }

  /** The keys of the items that are accepted, in the same order. */
  function AcceptedKeys(items: seq<Item>, uuids: seq<Pk>, accounts: set<AccountKey>, n: nat): (keys: seq<Pk>)
    requires n <= |items| == |uuids|
    ensures |keys| == |Accepted(items, accounts, n)|
  {
    if n == 0 then []
    else AcceptedKeys(items, uuids, accounts, n - 1) + (if Valid(items[n - 1], accounts) then [uuids[n - 1]] else [])
  }

  /** The first `n` accepted entries, without those whose id is among the queued ones. */
  function Leftover(es: seq<Entry>, queuedIds: set<string>, n: nat): seq<Refusal>
    requires n <= |es|
  {
    if n == 0 then []
    else
      Leftover(es, queuedIds, n - 1)
      + (if es[n - 1].id in queuedIds then [] else [Refusal(Some(es[n - 1].id), AlreadySent)])
  }

  function Ids(queued: seq<(string, Pk)>): set<string> {
    set q | q in queued :: q.0
  }

  // ---------------------------------------------------------------- the command

  method AddMessages(store: MailStore, items: Option<seq<Item>>, maxBatch: nat, accounts: set<AccountKey>,
                     uuids: seq<Pk>, now: int)
    returns (r: Response)
    requires Unique(store.messages)
    requires items.Some? ==> |items.value| == |uuids| && FreshKeys(store.messages, uuids)
    modifies store
    ensures r.NotAList? <==> items.None?
    ensures r.TooMany? <==> items.Some? && |items.value| > maxBatch
    ensures !r.Answer? ==> store.Value() == old(store.Value())
    ensures r.Answer? ==> AddedTo(old(store.Value()), items.value, uuids, accounts, now, store.Value(), r)
  {
    if items.None? {
      return NotAList;
    }
    if |items.value| > maxBatch {
      return TooMany;
    }
    ghost var before := store.Value();
    var entries, keys, rejected := SplitItems(store, items.value, uuids, accounts, now);
    AcceptedKeysFresh(before, items.value, uuids, accounts, now);
    r := InsertAccepted(store, entries, keys, rejected, now);
  }

  /** After the first loop: insert what was accepted, and answer. */
  method InsertAccepted(store: MailStore, entries: seq<Entry>, keys: seq<Pk>, refusals: seq<Refusal>, now: int)
    returns (r: Response)
    requires Unique(store.messages) && |entries| == |keys| && FreshKeys(store.messages, keys)
    modifies store
    ensures r.Answer? && Inserted(old(store.Value()), entries, keys, now, refusals, store.Value(), r)
  {
    var queued := store.InsertBatch(entries, None, keys, now);
    var rejected := RefuseLeftover(entries, Ids(queued), refusals);
    r := Answer(|queued| > 0 || |refusals| == 0, |queued|, rejected);
  }

  /** Accepted entries whose id was not queued are answered as already sent. */
  method RefuseLeftover(entries: seq<Entry>, ids: set<string>, refusals: seq<Refusal>) returns (rejected: seq<Refusal>)
    ensures rejected == refusals + Leftover(entries, ids, |entries|)
  {
    rejected := refusals;
    for i := 0 to |entries|
      invariant rejected == refusals + Leftover(entries, ids, i)
    {
      if entries[i].id !in ids {
        rejected := rejected + [Refusal(Some(entries[i].id), AlreadySent)];
      }
    }
  }

  /** The first loop: refused items go to the answer and to the store, the others to a list. */
  method SplitItems(store: MailStore, items: seq<Item>, uuids: seq<Pk>, accounts: set<AccountKey>, now: int)
    returns (entries: seq<Entry>, keys: seq<Pk>, rejected: seq<Refusal>)
    requires Unique(store.messages) && |items| == |uuids| && FreshKeys(store.messages, uuids)
    modifies store
    ensures store.Value() == AfterItems(old(store.Value()), items, uuids, accounts, now, |items|)
    ensures entries == Accepted(items, accounts, |items|) && keys == AcceptedKeys(items, uuids, accounts, |items|)
    ensures rejected == Refusals(items, accounts, |items|)
  {
    entries, keys, rejected := [], [], [];
    ghost var before := store.Value();
    for i := 0 to |items|
      invariant store.Value() == AfterItems(before, items, uuids, accounts, now, i)
      invariant entries == Accepted(items, accounts, i) && keys == AcceptedKeys(items, uuids, accounts, i)
      invariant rejected == Refusals(items, accounts, i)
    {
      var item := items[i];
      if item.NotAnObject? {
        rejected := rejected + [Refusal(None, InvalidPayload)];
      } else {
        var p := item.payload;
        var fault := Fault(p, accounts);
        if fault.Some? {
          rejected := rejected + [Refusal(p.id, fault.value)];
          if Given(p.id) {
            StoreError(store, p, uuids[i], now);
          }
        } else {
          entries, keys := entries + [EntryOf(p, p.deferredTs)], keys + [uuids[i]];
        }
      }
    }
  }

  /** A batch of one, then the error event if it was queued. */
  method StoreError(store: MailStore, p: Payload, uuid: Pk, now: int)
    requires Unique(store.messages) && uuid !in store.messages && Given(p.id)
    modifies store
    ensures store.Value() == match SubmitResult(old(store.messages), EntryOf(p, None), None, uuid)
                             case Skipped => old(store.Value())
                             case Queued(_, pk) =>
                               AddEvent(Db(Submitted(old(store.messages), EntryOf(p, None), None, uuid, now),
                                           old(store.events)),
                                        Event(pk, Error, now, None, None))
  {
    var e := EntryOf(p, None);
    var inserted := store.InsertBatch([e], None, [uuid], now);
    SingleBatch(old(store.messages), e, uuid, now);
    if inserted != [] {
      store.Add(Event(inserted[0].1, Error, now, None, None));
    }
  }

  lemma SingleBatch(ms: map<Pk, Message>, e: Entry, uuid: Pk, now: int)
    requires Unique(ms) && uuid !in ms
    ensures SubmittedAll(ms, [e], None, [uuid], now, 1) == Submitted(ms, e, None, uuid, now)
    ensures QueuedAll(ms, [e], None, [uuid], now, 1) == Listed(SubmitResult(ms, e, None, uuid))
  {
    assert SubmittedAll(ms, [e], None, [uuid], now, 0) == ms;
  }

  /** The whole effect of an answered command. */
  ghost predicate AddedTo(db: Db, items: seq<Item>, uuids: seq<Pk>, accounts: set<AccountKey>, now: int, db': Db,
                          r: Response)
    requires Unique(db.messages) && |items| == |uuids| && FreshKeys(db.messages, uuids) && r.Answer?
  {
    var n := |items|;
    var middle := AfterItems(db, items, uuids, accounts, now, n);
    var es, keys := Accepted(items, accounts, n), AcceptedKeys(items, uuids, accounts, n);
    AcceptedKeysFresh(db, items, uuids, accounts, now);
    Inserted(middle, es, keys, now, Refusals(items, accounts, n), db', r)
  }

  /** The effect of its second half. */
  predicate Inserted(db: Db, es: seq<Entry>, keys: seq<Pk>, now: int, refusals: seq<Refusal>, db': Db, r: Response)
    requires Unique(db.messages) && |es| == |keys| && FreshKeys(db.messages, keys) && r.Answer?
  {
    var queued := QueuedAll(db.messages, es, None, keys, now, |es|);
    && db' == db.(messages := SubmittedAll(db.messages, es, None, keys, now, |es|))
    && r.queued == |queued|
    && r.rejected == refusals + Leftover(es, Ids(queued), |es|)
    && r.ok == (|queued| > 0 || |refusals| == 0)
  }

  /** Keys made for accepted items are still unused when the accepted items are inserted. */
  lemma AcceptedKeysFresh(db: Db, items: seq<Item>, uuids: seq<Pk>, accounts: set<AccountKey>, now: int)
    requires Unique(db.messages) && |items| == |uuids| && FreshKeys(db.messages, uuids)
    ensures FreshKeys(AfterItems(db, items, uuids, accounts, now, |items|).messages,
                      AcceptedKeys(items, uuids, accounts, |items|))
  {
    ValidKeysUnused(db, items, uuids, accounts, now, |items|);
    AcceptedKeysFrom(items, uuids, accounts, |items|);
    var keys := AcceptedKeys(items, uuids, accounts, |items|);
    forall i | 0 <= i < |keys|
      ensures keys[i] !in AfterItems(db, items, uuids, accounts, now, |items|).messages
    {
      assert MadeForAccepted(keys[i], items, uuids, accounts, |items|);
    }
  }

  lemma {:induction false} ValidKeysUnused(db: Db, items: seq<Item>, uuids: seq<Pk>, accounts: set<AccountKey>,
                                           now: int, n: nat)
    requires Unique(db.messages) && n <= |items| == |uuids| && FreshKeys(db.messages, uuids)
    ensures forall k :: 0 <= k < |items| && Valid(items[k], accounts) ==>
        uuids[k] !in AfterItems(db, items, uuids, accounts, now, n).messages
  {
    if n > 0 {
      ValidKeysUnused(db, items, uuids, accounts, now, n - 1);
    }
  }

  predicate MadeForAccepted(key: Pk, items: seq<Item>, uuids: seq<Pk>, accounts: set<AccountKey>, n: nat)
    requires n <= |items| == |uuids|
  {
    exists k :: 0 <= k < n && Valid(items[k], accounts) && uuids[k] == key
  }

  lemma {:induction false} AcceptedKeysFrom(items: seq<Item>, uuids: seq<Pk>, accounts: set<AccountKey>, n: nat)
    requires n <= |items| == |uuids| && Distinct(uuids)
    ensures forall i :: 0 <= i < |AcceptedKeys(items, uuids, accounts, n)| ==>
              MadeForAccepted(AcceptedKeys(items, uuids, accounts, n)[i], items, uuids, accounts, n)
    ensures Distinct(AcceptedKeys(items, uuids, accounts, n))
  {
    if n > 0 {
      AcceptedKeysFrom(items, uuids, accounts, n - 1);
      var before := AcceptedKeys(items, uuids, accounts, n - 1);
      forall i | 0 <= i < |before|
        ensures MadeForAccepted(before[i], items, uuids, accounts, n) && before[i] != uuids[n - 1]
      {
        assert MadeForAccepted(before[i], items, uuids, accounts, n - 1);
      }
      if Valid(items[n - 1], accounts) {
        assert MadeForAccepted(uuids[n - 1], items, uuids, accounts, n);
      }
    }
  }

  // ---------------------------------------------------------------- which messages are settled

  /** A message is settled once the dispatcher will no longer pick it up. */
  ghost predicate Settled(ms: map<Pk, Message>, tenant: string, id: string) {
    exists pk :: Matches(ms, tenant, id, pk) && ms[pk].smtpTs.Some?
  }

  /** A submission is skipped exactly when it has no tenant or its message is settled. */
  lemma SkippedIffSettled(ms: map<Pk, Message>, e: Entry, tenant: Option<string>, uuid: Pk)
    requires Unique(ms)
    ensures SubmitResult(ms, e, tenant, uuid).Skipped? <==>
              TenantOf(e, tenant) == "" || Settled(ms, TenantOf(e, tenant), e.id)
  {
    var found := Lookup(ms, TenantOf(e, tenant), e.id);
    if Settled(ms, TenantOf(e, tenant), e.id) {
      var pk :| Matches(ms, TenantOf(e, tenant), e.id, pk) && ms[pk].smtpTs.Some?;
      assert found == Some(pk);
    }
  }

  /** Submitting settles nothing and unsettles nothing. */
  lemma SubmitKeepsSettled(ms: map<Pk, Message>, e: Entry, tenant: Option<string>, uuid: Pk, now: int, t: string,
                           id: string)
    requires Unique(ms) && uuid !in ms
    ensures Settled(Submitted(ms, e, tenant, uuid, now), t, id) <==> Settled(ms, t, id)
  {
    var ms' := Submitted(ms, e, tenant, uuid, now);
    SubmitKeepsStatus(ms, e, tenant, uuid, now);
    if Settled(ms, t, id) {
      var pk :| Matches(ms, t, id, pk) && ms[pk].smtpTs.Some?;
      assert Matches(ms', t, id, pk);
    }
    if Settled(ms', t, id) {
      var pk :| Matches(ms', t, id, pk) && ms'[pk].smtpTs.Some?;
      assert Matches(ms, t, id, pk);
    }
  }

  lemma {:induction false} BatchKeepsSettled(ms: map<Pk, Message>, es: seq<Entry>, uuids: seq<Pk>, now: int, n: nat,
                                             t: string, id: string)
    requires Unique(ms) && FreshKeys(ms, uuids) && n <= |es| == |uuids|
    ensures Settled(SubmittedAll(ms, es, None, uuids, now, n), t, id) <==> Settled(ms, t, id)
  {
    if n > 0 {
      BatchKeepsSettled(ms, es, uuids, now, n - 1, t, id);
      SubmitKeepsSettled(SubmittedAll(ms, es, None, uuids, now, n - 1), es[n - 1], None, uuids[n - 1], now, t, id);
    }
  }

  /** A refused item that names a message, and which one. */
  predicate NamesAsError(item: Item, accounts: set<AccountKey>, tenant: string, id: string) {
    && StoredAsError(item, accounts)
    && TenantOf(EntryOf(item.payload, None), None) == tenant
    && item.payload.id.value == id
  }

  lemma AfterItemSettled(db: Db, item: Item, uuid: Pk, accounts: set<AccountKey>, now: int, t: string, id: string)
    requires Unique(db.messages) && uuid !in db.messages && t != ""
    ensures Settled(AfterItem(db, item, uuid, accounts, now).messages, t, id) <==>
              Settled(db.messages, t, id) || (now != 0 && NamesAsError(item, accounts, t, id))
  {
    if StoredAsError(item, accounts) {
      var e := EntryOf(item.payload, None);
      var ms := Submitted(db.messages, e, None, uuid, now);
      SubmitKeepsSettled(db.messages, e, None, uuid, now, t, id);
      SkippedIffSettled(db.messages, e, None, uuid);
      var r := SubmitResult(db.messages, e, None, uuid);
      if r.Queued? {
        QueuedIsPending(db.messages, e, None, uuid, now);
        if now != 0 {
          ErrorSettles(ms, r.pk, now, TenantOf(e, None), e.id, t, id);
        }
      }
    }
  }

  lemma ErrorSettles(ms: map<Pk, Message>, pk: Pk, now: int, t0: string, id0: string, t: string, id: string)
    requires Unique(ms) && Matches(ms, t0, id0, pk)
    ensures Settled(MarkProcessed(ms, pk, now), t, id) <==> Settled(ms, t, id) || (t == t0 && id == id0)
  {
    var ms' := MarkProcessed(ms, pk, now);
    assert Matches(ms', t0, id0, pk) && ms'[pk].smtpTs.Some?;
    if Settled(ms, t, id) {
      var q :| Matches(ms, t, id, q) && ms[q].smtpTs.Some?;
      assert Matches(ms', t, id, q) && ms'[q].smtpTs.Some?;
    }
    if Settled(ms', t, id) {
      var q :| Matches(ms', t, id, q) && ms'[q].smtpTs.Some?;
      assert Matches(ms, t, id, q);
    }
  }

  /** Some refused item among the first `n` carries this tenant and id. */
  predicate NamedAsError(items: seq<Item>, accounts: set<AccountKey>, n: nat, t: string, id: string)
    requires n <= |items|
  {
    exists k :: 0 <= k < n && NamesAsError(items[k], accounts, t, id)
  }

  /**
    What the refused part of a batch does to a message: it becomes settled exactly when some
    refused item carries its tenant and id.  So a faulty resubmission takes a pending message out
    of the queue.  (At time zero, which is no event time, it does not.)
   */
  lemma {:induction false} RefusalsSettle(db: Db, items: seq<Item>, uuids: seq<Pk>, accounts: set<AccountKey>,
                                          now: int, n: nat, t: string, id: string)
    requires Unique(db.messages) && n <= |items| == |uuids| && FreshKeys(db.messages, uuids) && t != ""
    ensures Settled(AfterItems(db, items, uuids, accounts, now, n).messages, t, id) <==>
              Settled(db.messages, t, id) || (now != 0 && NamedAsError(items, accounts, n, t, id))
  {
    if n > 0 {
      RefusalsSettle(db, items, uuids, accounts, now, n - 1, t, id);
      AfterItemSettled(AfterItems(db, items, uuids, accounts, now, n - 1), items[n - 1], uuids[n - 1],
                       accounts, now, t, id);
      assert NamedAsError(items, accounts, n, t, id) <==>
               NamedAsError(items, accounts, n - 1, t, id) || NamesAsError(items[n - 1], accounts, t, id);
    }
  }

  /**
    Whether an accepted entry of a batch is too late, told from the table before the call: its
    message is settled already, or a refused item of the same batch names it.
   */
  ghost predicate Spent(db: Db, items: seq<Item>, accounts: set<AccountKey>, now: int, e: Entry) {
    || Settled(db.messages, TenantOf(e, None), e.id)
    || (now != 0 && NamedAsError(items, accounts, |items|, TenantOf(e, None), e.id))
  }

  lemma SpentIsTooLate(db: Db, items: seq<Item>, uuids: seq<Pk>, accounts: set<AccountKey>, now: int)
    requires Unique(db.messages) && |items| == |uuids| && FreshKeys(db.messages, uuids)
    ensures forall e :: HasTenant(e) ==>
              (TooLate(AfterItems(db, items, uuids, accounts, now, |items|).messages, e) <==>
               Spent(db, items, accounts, now, e))
  {
    forall e | HasTenant(e)
      ensures TooLate(AfterItems(db, items, uuids, accounts, now, |items|).messages, e) <==>
                Spent(db, items, accounts, now, e)
    {
      RefusalsSettle(db, items, uuids, accounts, now, |items|, TenantOf(e, None), e.id);
    }
  }

  // ---------------------------------------------------------------- conservation

  /** Whether an accepted entry finds its message settled. */
  ghost predicate TooLate(ms: map<Pk, Message>, e: Entry) {
    Settled(ms, TenantOf(e, None), e.id)
  }

  /** Two accepted entries, of different tenants, share an id that only one of them may still use. */
  ghost predicate Clash(ms: map<Pk, Message>, es: seq<Entry>) {
    exists j, k :: 0 <= j < |es| && 0 <= k < |es| && es[j].id == es[k].id && TooLate(ms, es[j]) && !TooLate(ms, es[k])
  }

  /** The first `n` entries that are not late, each with its key. */
  function OnTime(es: seq<Entry>, late: seq<bool>, pks: seq<Pk>, n: nat): seq<(string, Pk)>
    requires n <= |es| == |late| == |pks|
  {
    if n == 0 then []
    else OnTime(es, late, pks, n - 1) + (if late[n - 1] then [] else [(es[n - 1].id, pks[n - 1])])
  }

  lemma OnTimeStep(es: seq<Entry>, late: seq<bool>, pks: seq<Pk>, pk: Pk, n: nat, queued: seq<(string, Pk)>)
    requires 0 < n <= |es| == |late| == |pks|
    requires late[n - 1] ==> queued == OnTime(es, late, pks, n - 1)
    requires !late[n - 1] ==> queued == OnTime(es, late, pks, n - 1) + [(es[n - 1].id, pk)]
    ensures queued == OnTime(es, late, pks[n - 1 := pk], n)
  {
    OnTimePrefix(es, late, pks, pks[n - 1 := pk], n - 1);
  }

  lemma {:induction false} OnTimePrefix(es: seq<Entry>, late: seq<bool>, pks: seq<Pk>, pks': seq<Pk>, n: nat)
    requires n <= |es| == |late| == |pks| == |pks'| && pks[..n] == pks'[..n]
    ensures OnTime(es, late, pks, n) == OnTime(es, late, pks', n)
  {
    if n > 0 {
      assert pks[n - 1] == pks[..n][n - 1] == pks'[n - 1];
      assert pks[..n - 1] == pks[..n][..n - 1] == pks'[..n - 1];
      OnTimePrefix(es, late, pks, pks', n - 1);
    }
  }

  lemma {:induction false} OnTimeIds(es: seq<Entry>, late: seq<bool>, pks: seq<Pk>, n: nat, id: string)
    requires n <= |es| == |late| == |pks|
    ensures id in Ids(OnTime(es, late, pks, n)) <==> exists k :: 0 <= k < n && es[k].id == id && !late[k]
  {
    if n > 0 {
      OnTimeIds(es, late, pks, n - 1, id);
      if !late[n - 1] {
        IdsAppend(OnTime(es, late, pks, n - 1), es[n - 1].id, pks[n - 1]);
      }
    }
  }

  lemma IdsAppend(queued: seq<(string, Pk)>, id: string, pk: Pk)
    ensures Ids(queued + [(id, pk)]) == Ids(queued) + {id}
  {
    assert (id, pk) in queued + [(id, pk)];
    forall x | x in Ids(queued)
      ensures x in Ids(queued + [(id, pk)])
    {
      var q :| q in queued && q.0 == x;
      assert q in queued + [(id, pk)];
    }
  }

  /** Every entry on time is queued; a late one is refused unless its id was queued for another tenant. */
  lemma {:induction false} CountEntries(es: seq<Entry>, late: seq<bool>, pks: seq<Pk>, ids: set<string>, n: nat)
    requires n <= |es| == |late| == |pks| && forall k :: 0 <= k < n && !late[k] ==> es[k].id in ids
    ensures |OnTime(es, late, pks, n)| + |Leftover(es, ids, n)| <= n
    ensures |OnTime(es, late, pks, n)| + |Leftover(es, ids, n)| == n <==>
              forall k :: 0 <= k < n && late[k] ==> es[k].id !in ids
  {
    if n > 0 {
      CountEntries(es, late, pks, ids, n - 1);
    }
  }

  /** What the turns of a batch queue, in order. */
  function QueuedBy(results: seq<Submission>, n: nat): seq<(string, Pk)>
    requires n <= |results|
  {
    if n == 0 then [] else QueuedBy(results, n - 1) + Listed(results[n - 1])
  }

  /** The entry's turn, whether it came too late or not. */
  predicate Turned(result: Submission, e: Entry, late: bool) {
    if late then result.Skipped? else result.Queued? && result.id == e.id
  }

  /**
    The turns when other tasks work in between: entry `k` meets the messages as they are then,
    `met[k]`.
   */
  ghost predicate TurnsOver(met: seq<map<Pk, Message>>, es: seq<Entry>, uuids: seq<Pk>, results: seq<Submission>) {
    && |met| == |es| == |uuids| == |results|
    && forall k :: 0 <= k < |es| ==> TurnOver(met[k], es[k], uuids[k], results[k])
  }

  predicate TurnOver(ms: map<Pk, Message>, e: Entry, uuid: Pk, result: Submission) {
    Unique(ms) && HasTenant(e) && result == SubmitResult(ms, e, None, uuid)
  }

  lemma TurnSpec(ms: map<Pk, Message>, e: Entry, uuid: Pk, result: Submission)
    requires TurnOver(ms, e, uuid, result)
    ensures Turned(result, e, TooLate(ms, e))
  {
    SkippedIffSettled(ms, e, None, uuid);
  }

  lemma {:induction false} QueuedAreOnTime(results: seq<Submission>, es: seq<Entry>, late: seq<bool>, n: nat)
    returns (pks: seq<Pk>)
    requires n <= |es| == |results| == |late| && forall k :: 0 <= k < |es| ==> Turned(results[k], es[k], late[k])
    ensures |pks| == |es| && QueuedBy(results, n) == OnTime(es, late, pks, n)
  {
    if n == 0 {
      return seq(|es|, _ => 0);
    }
    var before := QueuedAreOnTime(results, es, late, n - 1);
    var pk := if results[n - 1].Queued? then results[n - 1].pk else 0;
    pks := before[n - 1 := pk];
    var front := QueuedBy(results, n - 1);
    assert front + [] == front && Turned(results[n - 1], es[n - 1], late[n - 1]);
    OnTimeStep(es, late, before, pk, n, QueuedBy(results, n));
  }

  /** Two entries share an id, and one is too late when its turn comes while the other is not. */
  ghost predicate ClashOver(met: seq<map<Pk, Message>>, es: seq<Entry>)
    requires |met| == |es|
  {
    exists j, k :: 0 <= j < |es| && 0 <= k < |es| && es[j].id == es[k].id
                   && TooLate(met[j], es[j]) && !TooLate(met[k], es[k])
  }

  lemma ClashOverInFlags(met: seq<map<Pk, Message>>, es: seq<Entry>, late: seq<bool>, ids: set<string>)
    requires |met| == |es| == |late| && forall k :: 0 <= k < |es| ==> late[k] == TooLate(met[k], es[k])
    requires forall id :: id in ids <==> exists k :: 0 <= k < |es| && es[k].id == id && !late[k]
    ensures ClashOver(met, es) <==> exists k :: 0 <= k < |es| && late[k] && es[k].id in ids
  {
    if ClashOver(met, es) {
      var j, k :| 0 <= j < |es| && 0 <= k < |es| && es[j].id == es[k].id
                  && TooLate(met[j], es[j]) && !TooLate(met[k], es[k]);
      assert late[j] && !late[k];
    }
  }

  /** Which turns come too late, and the keys under which the others are queued. */
  lemma TurnFlags(met: seq<map<Pk, Message>>, es: seq<Entry>, uuids: seq<Pk>, results: seq<Submission>)
    returns (late: seq<bool>, pks: seq<Pk>)
    requires TurnsOver(met, es, uuids, results)
    ensures |late| == |pks| == |es| && forall k :: 0 <= k < |es| ==> late[k] == TooLate(met[k], es[k])
    ensures QueuedBy(results, |es|) == OnTime(es, late, pks, |es|)
  {
    late := seq(|es|, k requires 0 <= k < |es| => TooLate(met[k], es[k]));
    forall k | 0 <= k < |es|
      ensures Turned(results[k], es[k], late[k])
    {
      TurnSpec(met[k], es[k], uuids[k], results[k]);
    }
    pks := QueuedAreOnTime(results, es, late, |es|);
  }

  /**
    Conservation whatever other tasks do meanwhile: nothing is answered twice, and nothing is
    missing exactly when no two accepted entries share an id of which one comes too late at its turn
    and the other does not.
   */
  lemma InterleavedConserves(met: seq<map<Pk, Message>>, es: seq<Entry>, uuids: seq<Pk>, results: seq<Submission>,
                             refusals: seq<Refusal>)
    requires TurnsOver(met, es, uuids, results)
    ensures var queued := QueuedBy(results, |es|);
            var rejected := refusals + Leftover(es, Ids(queued), |es|);
            && |queued| + |rejected| <= |es| + |refusals|
            && (|queued| + |rejected| == |es| + |refusals| <==> !ClashOver(met, es))
  {
    var late, pks := TurnFlags(met, es, uuids, results);
    var ids := Ids(OnTime(es, late, pks, |es|));
    forall id
      ensures id in ids <==> exists k :: 0 <= k < |es| && es[k].id == id && !late[k]
    {
      OnTimeIds(es, late, pks, |es|, id);
    }
    CountEntries(es, late, pks, ids, |es|);
    ClashOverInFlags(met, es, late, ids);
  }

  /** A turn on this table, as late as it would be on the table before the batch. */
  ghost predicate OwnTurn(before: map<Pk, Message>, ms: map<Pk, Message>, e: Entry, uuid: Pk, result: Submission) {
    TurnOver(ms, e, uuid, result) && (TooLate(ms, e) <==> TooLate(before, e))
  }

  /** The turns when nothing else happens; whether one comes too late is known before the first. */
  lemma {:induction false} OwnTurns(ms: map<Pk, Message>, es: seq<Entry>, uuids: seq<Pk>, now: int, n: nat)
    returns (met: seq<map<Pk, Message>>, results: seq<Submission>)
    requires Unique(ms) && FreshKeys(ms, uuids) && n <= |es| == |uuids| && AllHaveTenants(es)
    ensures |met| == |results| == n && QueuedAll(ms, es, None, uuids, now, n) == QueuedBy(results, n)
    ensures AllOwn(ms, es, uuids, met, results)
  {
    if n == 0 {
      return [], [];
    }
    var front, before := OwnTurns(ms, es, uuids, now, n - 1);
    var table, last := LastTurn(ms, es, uuids, now, n);
    met, results := front + [table], before + [last];
    OneMoreOwn(ms, es, uuids, front, before, table, last);
    QueuedByMore(before, last);
  }

  ghost predicate AllOwn(ms: map<Pk, Message>, es: seq<Entry>, uuids: seq<Pk>, met: seq<map<Pk, Message>>,
                         results: seq<Submission>) {
    && |met| == |results| <= |es| == |uuids|
    && forall k :: 0 <= k < |met| ==> OwnTurn(ms, met[k], es[k], uuids[k], results[k])
  }

  lemma OneMoreOwn(ms: map<Pk, Message>, es: seq<Entry>, uuids: seq<Pk>, met: seq<map<Pk, Message>>,
                   results: seq<Submission>, table: map<Pk, Message>, last: Submission)
    requires AllOwn(ms, es, uuids, met, results) && |met| < |es|
    requires OwnTurn(ms, table, es[|met|], uuids[|met|], last)
    ensures AllOwn(ms, es, uuids, met + [table], results + [last])
  {
    forall k | 0 <= k < |met + [table]|
      ensures OwnTurn(ms, (met + [table])[k], es[k], uuids[k], (results + [last])[k])
    {
      if k < |met| {
        assert OwnTurn(ms, met[k], es[k], uuids[k], results[k]);
      }
    }
  }

  lemma LastTurn(ms: map<Pk, Message>, es: seq<Entry>, uuids: seq<Pk>, now: int, n: nat)
    returns (table: map<Pk, Message>, last: Submission)
    requires Unique(ms) && FreshKeys(ms, uuids) && 0 < n <= |es| == |uuids| && HasTenant(es[n - 1])
    ensures OwnTurn(ms, table, es[n - 1], uuids[n - 1], last)
    ensures QueuedAll(ms, es, None, uuids, now, n) == QueuedAll(ms, es, None, uuids, now, n - 1) + Listed(last)
  {
    var e := es[n - 1];
    table := SubmittedAll(ms, es, None, uuids, now, n - 1);
    last := SubmitResult(table, e, None, uuids[n - 1]);
    BatchKeepsSettled(ms, es, uuids, now, n - 1, TenantOf(e, None), e.id);
  }

  lemma QueuedByMore(results: seq<Submission>, last: Submission)
    ensures QueuedBy(results + [last], |results| + 1) == QueuedBy(results, |results|) + Listed(last)
  {
    QueuedByPrefix(results, last, |results|);
  }

  lemma {:induction false} QueuedByPrefix(results: seq<Submission>, last: Submission, n: nat)
    requires n <= |results|
    ensures QueuedBy(results + [last], n) == QueuedBy(results, n)
  {
    if n > 0 {
      QueuedByPrefix(results, last, n - 1);
    }
  }

  lemma InsertConserves(db: Db, es: seq<Entry>, keys: seq<Pk>, now: int, refusals: seq<Refusal>, db': Db, r: Response)
    requires Unique(db.messages) && |es| == |keys| && FreshKeys(db.messages, keys) && r.Answer? && AllHaveTenants(es)
    requires Inserted(db, es, keys, now, refusals, db', r)
    ensures r.queued + |r.rejected| <= |es| + |refusals|
    ensures r.queued + |r.rejected| == |es| + |refusals| <==> !Clash(db.messages, es)
  {
    var met, results := OwnTurns(db.messages, es, keys, now, |es|);
    InterleavedConserves(met, es, keys, results, refusals);
    SameClash(db.messages, met, es);
  }

  lemma SameClash(ms: map<Pk, Message>, met: seq<map<Pk, Message>>, es: seq<Entry>)
    requires |met| == |es| && forall k :: 0 <= k < |es| ==> (TooLate(met[k], es[k]) <==> TooLate(ms, es[k]))
    ensures ClashOver(met, es) <==> Clash(ms, es)
  {
    if Clash(ms, es) {
      var j, k :| 0 <= j < |es| && 0 <= k < |es| && es[j].id == es[k].id && TooLate(ms, es[j]) && !TooLate(ms, es[k]);
      assert TooLate(met[j], es[j]) && !TooLate(met[k], es[k]);
    }
    if ClashOver(met, es) {
      var j, k :| 0 <= j < |es| && 0 <= k < |es| && es[j].id == es[k].id
                  && TooLate(met[j], es[j]) && !TooLate(met[k], es[k]);
      assert TooLate(ms, es[j]) && !TooLate(ms, es[k]);
    }
  }

  /** Two accepted entries share an id, and one of them only is spent before the call. */
  ghost predicate SpentClash(db: Db, items: seq<Item>, accounts: set<AccountKey>, now: int) {
    var es := Accepted(items, accounts, |items|);
    exists j, k :: 0 <= j < |es| && 0 <= k < |es| && es[j].id == es[k].id
                   && Spent(db, items, accounts, now, es[j]) && !Spent(db, items, accounts, now, es[k])
  }

  lemma SpentClashIff(db: Db, items: seq<Item>, uuids: seq<Pk>, accounts: set<AccountKey>, now: int)
    requires Unique(db.messages) && |items| == |uuids| && FreshKeys(db.messages, uuids)
    ensures Clash(AfterItems(db, items, uuids, accounts, now, |items|).messages, Accepted(items, accounts, |items|))
            <==> SpentClash(db, items, accounts, now)
  {
    var ms, es := AfterItems(db, items, uuids, accounts, now, |items|).messages, Accepted(items, accounts, |items|);
    SpentIsTooLate(db, items, uuids, accounts, now);
    forall k | 0 <= k < |es|
      ensures TooLate(ms, es[k]) <==> Spent(db, items, accounts, now, es[k])
    {
      assert HasTenant(es[k]);
    }
    if Clash(ms, es) {
      var j, k :| 0 <= j < |es| && 0 <= k < |es| && es[j].id == es[k].id && TooLate(ms, es[j]) && !TooLate(ms, es[k]);
      assert Spent(db, items, accounts, now, es[j]) && !Spent(db, items, accounts, now, es[k]);
    }
    if SpentClash(db, items, accounts, now) {
      var j, k :| 0 <= j < |es| && 0 <= k < |es| && es[j].id == es[k].id
                  && Spent(db, items, accounts, now, es[j]) && !Spent(db, items, accounts, now, es[k]);
      assert TooLate(ms, es[j]) && !TooLate(ms, es[k]);
    }
  }

  /**
    Conservation.  Queued and refused together never exceed the batch, and they make up the whole
    batch exactly when no two accepted items of different tenants share an id that is spent for
    one and not for the other: processed before, or named by a refused item of the batch.
   */
  lemma EnqueueConserves(db: Db, items: seq<Item>, uuids: seq<Pk>, accounts: set<AccountKey>, now: int, db': Db,
                         r: Response)
    requires Unique(db.messages) && |items| == |uuids| && FreshKeys(db.messages, uuids) && r.Answer?
    requires AddedTo(db, items, uuids, accounts, now, db', r)
    ensures r.queued + |r.rejected| <= |items|
    ensures r.queued + |r.rejected| == |items| <==> !SpentClash(db, items, accounts, now)
  {
    var n := |items|;
    AcceptedKeysFresh(db, items, uuids, accounts, now);
    InsertConserves(AfterItems(db, items, uuids, accounts, now, n), Accepted(items, accounts, n),
                    AcceptedKeys(items, uuids, accounts, n), now, Refusals(items, accounts, n), db', r);
    SpentClashIff(db, items, uuids, accounts, now);
  }

  /** Items of one tenant never clash, so nothing of such a batch goes missing. */
  lemma OneTenantConserves(db: Db, items: seq<Item>, uuids: seq<Pk>, accounts: set<AccountKey>, now: int, db': Db,
                           r: Response, tenant: string)
    requires Unique(db.messages) && |items| == |uuids| && FreshKeys(db.messages, uuids) && r.Answer?
    requires AddedTo(db, items, uuids, accounts, now, db', r)
    requires forall k :: 0 <= k < |items| && Valid(items[k], accounts) ==> items[k].payload.tenantId == Some(tenant)
    ensures r.queued + |r.rejected| == |items|
  {
    EnqueueConserves(db, items, uuids, accounts, now, db', r);
    AcceptedOf(items, accounts, tenant, |items|);
  }

  lemma {:induction false} AcceptedOf(items: seq<Item>, accounts: set<AccountKey>, tenant: string, n: nat)
    requires n <= |items|
    requires forall k :: 0 <= k < |items| && Valid(items[k], accounts) ==> items[k].payload.tenantId == Some(tenant)
    ensures forall k :: 0 <= k < |Accepted(items, accounts, n)| ==>
              Accepted(items, accounts, n)[k].tenantId == Some(tenant)
  {
    if n > 0 {
      AcceptedOf(items, accounts, tenant, n - 1);
    }
  }

  /**
    With items of two tenants conservation fails: of two accepted items with one id, the first
    settled and the second not, one is queued and the other vanishes from the answer.
   */
  lemma TwoTenantsLoseAnItem(db: Db, a: Payload, b: Payload, uuids: seq<Pk>, accounts: set<AccountKey>, now: int,
                             db': Db, r: Response)
    requires Unique(db.messages) && |uuids| == 2 && FreshKeys(db.messages, uuids) && r.Answer?
    requires Fault(a, accounts).None? && Fault(b, accounts).None? && a.id == b.id
    requires Settled(db.messages, a.tenantId.value, a.id.value) && !Settled(db.messages, b.tenantId.value, b.id.value)
    requires AddedTo(db, [Object(a), Object(b)], uuids, accounts, now, db', r)
    ensures r.queued + |r.rejected| < 2
  {
    var items := [Object(a), Object(b)];
    assert Accepted(items, accounts, 1) == [EntryOf(a, a.deferredTs)];
    var es := Accepted(items, accounts, 2);
    assert es == [EntryOf(a, a.deferredTs), EntryOf(b, b.deferredTs)];
    EnqueueConserves(db, items, uuids, accounts, now, db', r);
    assert !StoredAsError(items[0], accounts) && !StoredAsError(items[1], accounts);
    assert !NamedAsError(items, accounts, 2, TenantOf(es[1], None), es[1].id);
    assert Spent(db, items, accounts, now, es[0]) && !Spent(db, items, accounts, now, es[1]);
  }

  lemma SentIsSettled(ms: map<Pk, Message>, e: Entry, pk: Pk, ts: int, uuid: Pk, now: int)
    requires Unique(ms) && uuid !in ms && Matches(ms, TenantOf(e, None), e.id, pk) && ts != 0
    ensures var queued := Db(Submitted(ms, e, None, uuid, now), []);
            var sent := AddEvent(queued, Event(pk, Sent, ts, None, None)).messages;
            Unique(sent) && Settled(sent, TenantOf(e, None), e.id)
  {
    var queued := Db(Submitted(ms, e, None, uuid, now), []);
    var sent := AddEvent(queued, Event(pk, Sent, ts, None, None)).messages;
    SameIdentity(queued, Event(pk, Sent, ts, None, None));
    SubmitKeepsStatus(ms, e, None, uuid, now);
    assert Matches(sent, TenantOf(e, None), e.id, pk) && sent[pk].smtpTs.Some?;
  }

  /**
    So even one tenant's batch can miss an item: an id given twice, whose message is queued again by
    the first and sent before the turn of the second.
   */
  lemma SendBetweenTurnsLosesAnItem(ms: map<Pk, Message>, e: Entry, again: Entry, pk: Pk, ts: int, uuids: seq<Pk>,
                                    now: int)
    returns (results: seq<Submission>)
    requires Unique(ms) && HasTenant(e) && again.id == e.id && TenantOf(again, None) == TenantOf(e, None)
    requires Matches(ms, TenantOf(e, None), e.id, pk) && ms[pk].smtpTs.None? && ts != 0 && |uuids| == 2
    requires uuids[0] !in ms
    ensures var queued := Db(Submitted(ms, e, None, uuids[0], now), []);
            var met := [ms, AddEvent(queued, Event(pk, Sent, ts, None, None)).messages];
            TurnsOver(met, [e, again], uuids, results)
    ensures |QueuedBy(results, 2)| + |Leftover([e, again], Ids(QueuedBy(results, 2)), 2)| < 2
  {
    var queued := Db(Submitted(ms, e, None, uuids[0], now), []);
    var sent := AddEvent(queued, Event(pk, Sent, ts, None, None)).messages;
    var met, es := [ms, sent], [e, again];
    SentIsSettled(ms, e, pk, ts, uuids[0], now);
    results := [SubmitResult(ms, e, None, uuids[0]), SubmitResult(sent, again, None, uuids[1])];
    assert TooLate(met[1], es[1]) && !TooLate(met[0], es[0]);
    InterleavedConserves(met, es, uuids, results, []);
    assert [] + Leftover(es, Ids(QueuedBy(results, 2)), 2) == Leftover(es, Ids(QueuedBy(results, 2)), 2);
  }

  /**
    When the answer says failure: something was refused and every accepted item was spent before
    the call.  The accepted ones may all have been "already sent", which the command's own comment
    would count as success.
   */
  lemma FailureIff(db: Db, items: seq<Item>, uuids: seq<Pk>, accounts: set<AccountKey>, now: int, db': Db, r: Response)
    requires Unique(db.messages) && |items| == |uuids| && FreshKeys(db.messages, uuids) && r.Answer?
    requires AddedTo(db, items, uuids, accounts, now, db', r)
    ensures var es := Accepted(items, accounts, |items|);
            !r.ok <==> |es| < |items| && forall k :: 0 <= k < |es| ==> Spent(db, items, accounts, now, es[k])
  {
    var n := |items|;
    var middle := AfterItems(db, items, uuids, accounts, now, n);
    var es, keys := Accepted(items, accounts, n), AcceptedKeys(items, uuids, accounts, n);
    AcceptedKeysFresh(db, items, uuids, accounts, now);
    InsertFailureIff(middle, es, keys, now, Refusals(items, accounts, n), db', r);
    SpentIsTooLate(db, items, uuids, accounts, now);
    forall k | 0 <= k < |es|
      ensures TooLate(middle.messages, es[k]) <==> Spent(db, items, accounts, now, es[k])
    {
      assert HasTenant(es[k]);
    }
  }

  lemma InsertFailureIff(db: Db, es: seq<Entry>, keys: seq<Pk>, now: int, refusals: seq<Refusal>, db': Db, r: Response)
    requires Unique(db.messages) && |es| == |keys| && FreshKeys(db.messages, keys) && r.Answer? && AllHaveTenants(es)
    requires Inserted(db, es, keys, now, refusals, db', r)
    ensures !r.ok <==> |refusals| > 0 && forall k :: 0 <= k < |es| ==> TooLate(db.messages, es[k])
  {
    var met, results := OwnTurns(db.messages, es, keys, now, |es|);
    var late, pks := TurnFlags(met, es, keys, results);
    OnTimeEmpty(es, late, pks, |es|);
  }

  lemma {:induction false} OnTimeEmpty(es: seq<Entry>, late: seq<bool>, pks: seq<Pk>, n: nat)
    requires n <= |es| == |late| == |pks|
    ensures OnTime(es, late, pks, n) == [] <==> forall k :: 0 <= k < n ==> late[k]
  {
    if n > 0 {
      OnTimeEmpty(es, late, pks, n - 1);
    }
  }

  // ---------------------------------------------------------------- accepted items wait in the queue

  ghost predicate InQueue(ms: map<Pk, Message>, tenant: string, id: string) {
    exists pk :: Matches(ms, tenant, id, pk) && ms[pk].smtpTs.None?
  }

  lemma SubmitKeepsQueued(ms: map<Pk, Message>, e: Entry, uuid: Pk, now: int, t: string, id: string)
    requires Unique(ms) && uuid !in ms && InQueue(ms, t, id)
    ensures InQueue(Submitted(ms, e, None, uuid, now), t, id)
  {
    var pk :| Matches(ms, t, id, pk) && ms[pk].smtpTs.None?;
    SubmitKeepsStatus(ms, e, None, uuid, now);
    assert Matches(Submitted(ms, e, None, uuid, now), t, id, pk);
  }

  lemma SubmitQueues(ms: map<Pk, Message>, e: Entry, uuid: Pk, now: int)
    requires Unique(ms) && uuid !in ms && HasTenant(e) && !TooLate(ms, e)
    ensures InQueue(Submitted(ms, e, None, uuid, now), TenantOf(e, None), e.id)
  {
    SkippedIffSettled(ms, e, None, uuid);
    QueuedIsPending(ms, e, None, uuid, now);
  }

  /** An accepted item whose message was not settled waits in the queue when the batch is stored. */
  lemma {:induction false} AcceptedWaits(ms: map<Pk, Message>, es: seq<Entry>, uuids: seq<Pk>, now: int, n: nat, k: nat)
    requires Unique(ms) && FreshKeys(ms, uuids) && k < n <= |es| == |uuids| && HasTenant(es[k]) && !TooLate(ms, es[k])
    ensures InQueue(SubmittedAll(ms, es, None, uuids, now, n), TenantOf(es[k], None), es[k].id)
  {
    var before := SubmittedAll(ms, es, None, uuids, now, n - 1);
    if k == n - 1 {
      BatchKeepsSettled(ms, es, uuids, now, n - 1, TenantOf(es[k], None), es[k].id);
      SubmitQueues(before, es[k], uuids[k], now);
    } else {
      AcceptedWaits(ms, es, uuids, now, n - 1, k);
      SubmitKeepsQueued(before, es[n - 1], uuids[n - 1], now, TenantOf(es[k], None), es[k].id);
    }
  }

  // ---------------------------------------------------------------- what is stored, field by field

  /** A submission touches no row but that of its own message. */
  lemma SubmitKeepsRow(ms: map<Pk, Message>, e: Entry, uuid: Pk, now: int, pk: Pk)
    requires Unique(ms) && uuid !in ms && pk in ms && !Matches(ms, TenantOf(e, None), e.id, pk)
    ensures var ms' := Submitted(ms, e, None, uuid, now);
            pk in ms' && ms'[pk] == ms[pk]
  {
  }

  predicate Holds(ms: map<Pk, Message>, pk: Pk, row: Message) {
    pk in ms && ms[pk] == row
  }

  predicate Names(e: Entry, row: Message) {
    TenantOf(e, None) == row.tenantId && e.id == row.id
  }

  lemma {:induction false} BatchKeepsRow(ms: map<Pk, Message>, es: seq<Entry>, uuids: seq<Pk>, now: int, m: nat, n: nat,
                                         pk: Pk, row: Message)
    requires Unique(ms) && FreshKeys(ms, uuids) && m <= n <= |es| == |uuids|
    requires Holds(SubmittedAll(ms, es, None, uuids, now, m), pk, row)
    requires forall k :: m <= k < n ==> !Names(es[k], row)
    ensures Holds(SubmittedAll(ms, es, None, uuids, now, n), pk, row)
    decreases n - m
  {
    if m < n {
      TurnKeepsRow(ms, es, uuids, now, m, pk, row);
      BatchKeepsRow(ms, es, uuids, now, m + 1, n, pk, row);
    }
  }

  lemma TurnKeepsRow(ms: map<Pk, Message>, es: seq<Entry>, uuids: seq<Pk>, now: int, k: nat, pk: Pk, row: Message)
    requires Unique(ms) && FreshKeys(ms, uuids) && k < |es| == |uuids|
    requires Holds(SubmittedAll(ms, es, None, uuids, now, k), pk, row) && !Names(es[k], row)
    ensures Holds(SubmittedAll(ms, es, None, uuids, now, k + 1), pk, row)
  {
    SubmitKeepsRow(SubmittedAll(ms, es, None, uuids, now, k), es[k], uuids[k], now, pk);
  }

  /** The row has the entry's fields and is pending. */
  predicate Carries(m: Message, e: Entry) {
    && m.id == e.id && m.tenantId == TenantOf(e, None) && m.accountId == e.accountId && m.priority == e.priority
    && m.payload == e.payload && m.batchCode == e.batchCode && m.deferredTs == e.deferredTs && m.smtpTs == None
  }

  lemma EntryRow(ms: map<Pk, Message>, es: seq<Entry>, uuids: seq<Pk>, now: int, k: nat) returns (pk: Pk)
    requires Unique(ms) && FreshKeys(ms, uuids) && k < |es| == |uuids| && HasTenant(es[k]) && !TooLate(ms, es[k])
    requires forall j :: k < j < |es| ==> TenantOf(es[j], None) != TenantOf(es[k], None) || es[j].id != es[k].id
    ensures var ms' := SubmittedAll(ms, es, None, uuids, now, |es|);
            pk in ms' && Carries(ms'[pk], es[k])
  {
    var e, before := es[k], SubmittedAll(ms, es, None, uuids, now, k);
    BatchKeepsSettled(ms, es, uuids, now, k, TenantOf(e, None), e.id);
    SkippedIffSettled(before, e, None, uuids[k]);
    QueuedIsPending(before, e, None, uuids[k], now);
    pk := SubmitResult(before, e, None, uuids[k]).pk;
    assert SubmittedAll(ms, es, None, uuids, now, k + 1) == Submitted(before, e, None, uuids[k], now);
    BatchKeepsRow(ms, es, uuids, now, k + 1, |es|, pk, SubmittedAll(ms, es, None, uuids, now, k + 1)[pk]);
  }

  /** Where an accepted item stands among the accepted ones. */
  lemma {:induction false} AcceptedAt(items: seq<Item>, accounts: set<AccountKey>, i: nat, n: nat)
    requires i < n <= |items| && Valid(items[i], accounts)
    ensures var k := |Accepted(items, accounts, i)|;
            && k < |Accepted(items, accounts, n)|
            && Accepted(items, accounts, n)[k] == EntryOf(items[i].payload, items[i].payload.deferredTs)
  {
    if i < n - 1 {
      AcceptedAt(items, accounts, i, n - 1);
    }
  }

  /** Every later accepted entry is a later item's. */
  lemma {:induction false} AcceptedLater(items: seq<Item>, accounts: set<AccountKey>, i: nat, n: nat, k: nat)
    returns (j: nat)
    requires i < n <= |items| && Valid(items[i], accounts)
    requires |Accepted(items, accounts, i)| < k < |Accepted(items, accounts, n)|
    ensures i < j < n && Valid(items[j], accounts)
    ensures Accepted(items, accounts, n)[k] == EntryOf(items[j].payload, items[j].payload.deferredTs)
  {
    if k < |Accepted(items, accounts, n - 1)| {
      j := AcceptedLater(items, accounts, i, n - 1, k);
    } else {
      j := n - 1;
    }
  }

  /**
    What an accepted item stores: when its message was neither processed before nor named by a
    refused item of the batch, and no later accepted item names it too, its row has every field of
    the item and is pending.
   */
  lemma AcceptedRow(db: Db, items: seq<Item>, uuids: seq<Pk>, accounts: set<AccountKey>, now: int, db': Db, r: Response,
                    i: nat)
    returns (pk: Pk)
    requires Unique(db.messages) && |items| == |uuids| && FreshKeys(db.messages, uuids) && r.Answer?
    requires AddedTo(db, items, uuids, accounts, now, db', r)
    requires i < |items| && Valid(items[i], accounts)
    requires var p := items[i].payload;
             && !Settled(db.messages, p.tenantId.value, p.id.value)
             && !NamedAsError(items, accounts, |items|, p.tenantId.value, p.id.value)
             && forall j :: i < j < |items| && Valid(items[j], accounts) ==>
                  items[j].payload.tenantId != p.tenantId || items[j].payload.id != p.id
    ensures pk in db'.messages
    ensures var p, m := items[i].payload, db'.messages[pk];
            && Some(m.id) == p.id && Some(m.tenantId) == p.tenantId && m.accountId == p.accountId
            && m.priority == p.priority && m.payload == p.text && m.batchCode == p.batchCode
            && m.deferredTs == p.deferredTs && m.smtpTs == None
  {
    var n, k := |items|, |Accepted(items, accounts, i)|;
    var middle := AfterItems(db, items, uuids, accounts, now, n);
    var es, keys := Accepted(items, accounts, n), AcceptedKeys(items, uuids, accounts, n);
    AcceptedKeysFresh(db, items, uuids, accounts, now);
    AcceptedAt(items, accounts, i, n);
    SpentIsTooLate(db, items, uuids, accounts, now);
    assert HasTenant(es[k]);
    forall j | k < j < |es|
      ensures TenantOf(es[j], None) != TenantOf(es[k], None) || es[j].id != es[k].id
    {
      var later := AcceptedLater(items, accounts, i, n, j);
    }
    pk := EntryRow(middle.messages, es, keys, now, k);
  }

  /**
    What a refused item stores, if it names a message and a tenant and the message was not processed
    before: its fields without the deferral, as an error at this moment, and that event.
   */
  lemma RefusedRow(db: Db, item: Item, uuid: Pk, accounts: set<AccountKey>, now: int) returns (pk: Pk)
    requires Unique(db.messages) && uuid !in db.messages && now != 0
    requires item.Object? && !Valid(item, accounts) && Given(item.payload.id) && Given(item.payload.tenantId)
    requires !Settled(db.messages, item.payload.tenantId.value, item.payload.id.value)
    ensures var p, db' := item.payload, AfterItem(db, item, uuid, accounts, now);
            && db'.events == db.events + [Event(pk, Error, now, None, None)]
            && pk in db'.messages
            && var m := db'.messages[pk];
               && Some(m.id) == p.id && Some(m.tenantId) == p.tenantId && m.accountId == p.accountId
               && m.priority == p.priority && m.payload == p.text && m.batchCode == p.batchCode
               && m.deferredTs == None && m.smtpTs == Some(now)
  {
    var e := EntryOf(item.payload, None);
    SkippedIffSettled(db.messages, e, None, uuid);
    QueuedIsPending(db.messages, e, None, uuid, now);
    pk := SubmitResult(db.messages, e, None, uuid).pk;
  }

  /**
    Why an item is refused: for the first field that is absent or empty, of id, tenant, account,
    sender, recipients (none, or all of them empty) and subject, or else for its account.
   */
  lemma FaultOnFields(p: Payload, accounts: set<AccountKey>)
    ensures var noId := p.id == None || p.id == Some("");
            var noTenant := p.tenantId == None || p.tenantId == Some("");
            var noAccount := p.accountId == None || p.accountId == Some("");
            var noSender := p.sender == None || p.sender == Some("");
            var noRecipient := p.to.Absent? || (p.to.One? && p.to.address == "")
                               || (p.to.Many? && forall a :: a in p.to.addresses ==> a == "");
            var noSubject := p.subject == None || p.subject == Some("");
            Fault(p, accounts) ==
              if noId then Some(MissingId) else if noTenant then Some(MissingTenant)
              else if noAccount then Some(MissingAccount) else if noSender then Some(MissingFrom)
              else if noRecipient then Some(MissingTo) else if noSubject then Some(MissingSubject)
              else if AccountKey(p.tenantId.value, p.accountId.value) !in accounts then Some(UnknownAccount) else None
  {
    RecipientIff(p.to);
  }

  lemma RecipientIff(to: Recipients)
    ensures !HasRecipient(to) <==>
              to.Absent? || (to.One? && to.address == "") || (to.Many? && forall a :: a in to.addresses ==> a == "")
  {
    if to.Many? && HasRecipient(to) {
      var i :| 0 <= i < |to.addresses| && to.addresses[i] != "";
      assert to.addresses[i] in to.addresses;
    }
  }

  /** The answer to a batch: every refused item, in order, with the id it gave and why. */
  lemma {:induction false} RefusalsInOrder(items: seq<Item>, accounts: set<AccountKey>, i: nat, n: nat)
    requires i < n <= |items| && !Valid(items[i], accounts)
    ensures var refused := Refusals(items, accounts, n);
            var k := i - |Accepted(items, accounts, i)|;
            && 0 <= k < |refused|
            && (items[i].NotAnObject? ==> refused[k] == Refusal(None, InvalidPayload))
            && (items[i].Object? ==> refused[k].id == items[i].payload.id
                                     && Some(refused[k].reason) == Fault(items[i].payload, accounts))
  {
    if i < n - 1 {
      RefusalsInOrder(items, accounts, i, n - 1);
    }
  }

  /** Accepted items whose id was not queued are answered as already sent, and nothing else follows the refusals. */
  lemma {:induction false} LeftoverExact(es: seq<Entry>, queuedIds: set<string>, n: nat, refusal: Refusal)
    requires n <= |es|
    ensures refusal in Leftover(es, queuedIds, n) <==>
              refusal.reason == AlreadySent
              && exists k :: 0 <= k < n && refusal.id == Some(es[k].id) && es[k].id !in queuedIds
  {
    if n > 0 {
      LeftoverExact(es, queuedIds, n - 1, refusal);
    }
  }

  // ---------------------------------------------------------------- the command as steps of the system

  predicate Unused(used: set<Pk>, uuids: seq<Pk>) {
    && (forall i :: 0 <= i < |uuids| ==> uuids[i] !in used)
    && Distinct(uuids)
  }

  /** A refused item is a submission followed, if it was queued, by the rejection of its message. */
  lemma ItemIsARun(config: S.Config, s: S.System, item: Item, uuid: Pk, accounts: set<AccountKey>)
    returns (run: seq<S.Step>, s': S.System)
    requires S.KeysSound(s) && s.clock > 0 && uuid !in s.used
    ensures S.Possible(config, s, run) && s' == S.Final(config, s, run)
    ensures S.KeysSound(s') && s'.clock == s.clock
    ensures s'.db == AfterItem(s.db, item, uuid, accounts, s.clock)
    ensures s'.used <= s.used + (if StoredAsError(item, accounts) then {uuid} else {})
  {
    if !StoredAsError(item, accounts) {
      return [], s;
    }
    var e := EntryOf(item.payload, None);
    run, s' := SubmitStep(config, s, e, uuid);
    var r := SubmitResult(s.db.messages, e, None, uuid);
    if r.Queued? {
      var reject, s1 := RejectStep(config, s', r.pk);
      S.RunAppend(config, s, run, reject);
      run, s' := run + reject, s1;
    }
  }

  lemma RejectStep(config: S.Config, s: S.System, pk: Pk) returns (run: seq<S.Step>, s': S.System)
    requires S.KeysSound(s) && s.clock > 0 && pk in s.used
    ensures S.Possible(config, s, run) && s' == S.Final(config, s, run)
    ensures S.KeysSound(s') && s'.clock == s.clock && s'.used == s.used
    ensures s'.db == AddEvent(s.db, Event(pk, Error, s.clock, None, None))
  {
    S.RunOne(config, s, S.RejectItem(pk, s.clock));
    run := [S.RejectItem(pk, s.clock)];
    s' := S.Next(config, s, S.RejectItem(pk, s.clock));
  }

  predicate RestUnused(used: set<Pk>, keys: seq<Pk>, n: nat) {
    forall j :: n <= j < |keys| ==> keys[j] !in used
  }

  /** `s'` is `s` after the first `n` entries of a batch. */
  ghost predicate Stored(s: S.System, es: seq<Entry>, keys: seq<Pk>, n: nat, s': S.System)
    requires S.KeysSound(s) && n <= |es| == |keys| && FreshKeys(s.db.messages, keys)
  {
    && S.KeysSound(s') && s'.clock == s.clock && RestUnused(s'.used, keys, n)
    && s'.db == s.db.(messages := SubmittedAll(s.db.messages, es, None, keys, s.clock, n))
  }

  lemma StoredStep(s: S.System, es: seq<Entry>, keys: seq<Pk>, n: nat, s1: S.System, s': S.System)
    requires S.KeysSound(s) && 0 < n <= |es| == |keys| && FreshKeys(s.db.messages, keys)
    requires Stored(s, es, keys, n - 1, s1) && S.KeysSound(s') && s'.clock == s1.clock
    requires s'.used == s1.used + {keys[n - 1]}
    requires s'.db == s1.db.(messages := Submitted(s1.db.messages, es[n - 1], None, keys[n - 1], s1.clock))
    ensures Stored(s, es, keys, n, s')
  {
  }

  lemma SubmitStep(config: S.Config, s: S.System, e: Entry, uuid: Pk) returns (run: seq<S.Step>, s': S.System)
    requires S.KeysSound(s) && uuid !in s.used
    ensures S.Possible(config, s, run) && s' == S.Final(config, s, run)
    ensures S.KeysSound(s') && s'.clock == s.clock && s'.used == s.used + {uuid}
    ensures s'.db == s.db.(messages := Submitted(s.db.messages, e, None, uuid, s.clock))
  {
    S.RunOne(config, s, S.Submit(e, None, uuid));
    run := [S.Submit(e, None, uuid)];
    s' := S.Next(config, s, S.Submit(e, None, uuid));
  }

  /** One more entry, seen from the start of the batch. */
  lemma StoreMore(config: S.Config, s: S.System, es: seq<Entry>, keys: seq<Pk>, n: nat, s1: S.System)
    returns (run: seq<S.Step>, s': S.System)
    requires S.KeysSound(s) && 0 < n <= |es| == |keys| && FreshKeys(s.db.messages, keys)
    requires Stored(s, es, keys, n - 1, s1)
    ensures S.Possible(config, s1, run) && s' == S.Final(config, s1, run) && Stored(s, es, keys, n, s')
  {
    run, s' := SubmitStep(config, s1, es[n - 1], keys[n - 1]);
    StoredStep(s, es, keys, n, s1, s');
  }

  lemma {:induction false} BatchIsARun(config: S.Config, s: S.System, es: seq<Entry>, keys: seq<Pk>, n: nat)
    returns (run: seq<S.Step>, s': S.System)
    requires S.KeysSound(s) && n <= |es| == |keys| && RestUnused(s.used, keys, 0) && FreshKeys(s.db.messages, keys)
    ensures S.Possible(config, s, run) && s' == S.Final(config, s, run) && Stored(s, es, keys, n, s')
  {
    if n == 0 {
      return [], s;
    }
    var first, s1 := BatchIsARun(config, s, es, keys, n - 1);
    var one;
    one, s' := StoreMore(config, s, es, keys, n, s1);
    S.RunAppend(config, s, first, one);
    run := first + one;
  }

  predicate AcceptedUnused(used: set<Pk>, items: seq<Item>, uuids: seq<Pk>, accounts: set<AccountKey>, n: nat)
    requires |items| == |uuids|
  {
    forall j :: 0 <= j < |uuids| && (n <= j || Valid(items[j], accounts)) ==> uuids[j] !in used
  }

  /** `s'` is `s` after the first `n` items. */
  ghost predicate SplitUp(s: S.System, items: seq<Item>, uuids: seq<Pk>, accounts: set<AccountKey>, n: nat,
                          s': S.System)
    requires S.KeysSound(s) && n <= |items| == |uuids| && FreshKeys(s.db.messages, uuids)
  {
    && S.KeysSound(s') && s'.clock == s.clock && AcceptedUnused(s'.used, items, uuids, accounts, n)
    && s'.db == AfterItems(s.db, items, uuids, accounts, s.clock, n)
  }

  lemma SplitUpStep(s: S.System, items: seq<Item>, uuids: seq<Pk>, accounts: set<AccountKey>, n: nat,
                   s1: S.System, s': S.System)
    requires S.KeysSound(s) && 0 < n <= |items| == |uuids| && FreshKeys(s.db.messages, uuids) && Unused(s.used, uuids)
    requires SplitUp(s, items, uuids, accounts, n - 1, s1) && S.KeysSound(s') && s'.clock == s1.clock
    requires s'.db == AfterItem(s1.db, items[n - 1], uuids[n - 1], accounts, s1.clock)
    requires s'.used <= s1.used + (if StoredAsError(items[n - 1], accounts) then {uuids[n - 1]} else {})
    ensures SplitUp(s, items, uuids, accounts, n, s')
  {
  }

  lemma SplitMore(config: S.Config, s: S.System, items: seq<Item>, uuids: seq<Pk>, accounts: set<AccountKey>, n: nat,
                  s1: S.System)
    returns (run: seq<S.Step>, s': S.System)
    requires S.KeysSound(s) && 0 < n <= |items| == |uuids| && FreshKeys(s.db.messages, uuids) && Unused(s.used, uuids)
    requires s.clock > 0 && SplitUp(s, items, uuids, accounts, n - 1, s1)
    ensures S.Possible(config, s1, run) && s' == S.Final(config, s1, run) && SplitUp(s, items, uuids, accounts, n, s')
  {
    run, s' := ItemIsARun(config, s1, items[n - 1], uuids[n - 1], accounts);
    SplitUpStep(s, items, uuids, accounts, n, s1, s');
  }

  lemma {:induction false} ItemsAreARun(config: S.Config, s: S.System, items: seq<Item>, uuids: seq<Pk>,
                                        accounts: set<AccountKey>, n: nat)
    returns (run: seq<S.Step>, s': S.System)
    requires S.KeysSound(s) && s.clock > 0 && n <= |items| == |uuids| && Unused(s.used, uuids)
    requires FreshKeys(s.db.messages, uuids)
    ensures S.Possible(config, s, run) && s' == S.Final(config, s, run) && SplitUp(s, items, uuids, accounts, n, s')
  {
    if n == 0 {
      return [], s;
    }
    var first, s1 := ItemsAreARun(config, s, items, uuids, accounts, n - 1);
    var second;
    second, s' := SplitMore(config, s, items, uuids, accounts, n, s1);
    S.RunAppend(config, s, first, second);
    run := first + second;
  }

  /**
    The command is a run of the system, so everything proved of all runs (no second send, the
    status column, reporting) holds with batches arriving at any point between other steps.
   */
  lemma EnqueueIsARun(config: S.Config, s: S.System, items: seq<Item>, uuids: seq<Pk>, accounts: set<AccountKey>,
                      db': Db, r: Response)
    returns (run: seq<S.Step>)
    requires S.KeysSound(s) && s.clock > 0 && |items| == |uuids| && Unused(s.used, uuids)
        && FreshKeys(s.db.messages, uuids)
    requires r.Answer? && AddedTo(s.db, items, uuids, accounts, s.clock, db', r)
    ensures S.Possible(config, s, run) && S.Final(config, s, run).db == db'
  {
    var n := |items|;
    var first, s1 := ItemsAreARun(config, s, items, uuids, accounts, n);
    var es, keys := Accepted(items, accounts, n), AcceptedKeys(items, uuids, accounts, n);
    AcceptedKeysFresh(s.db, items, uuids, accounts, s.clock);
    AcceptedKeysFrom(items, uuids, accounts, n);
    forall i | 0 <= i < |keys|
      ensures keys[i] !in s1.used
    {
      assert MadeForAccepted(keys[i], items, uuids, accounts, n);
    }
    var second, s2 := BatchIsARun(config, s1, es, keys, |es|);
    S.RunAppend(config, s, first, second);
    run := first + second;
  }
}
