/**
  The bounce mailbox cursor: `fetch_since_uid` of src/enterprise/mail_proxy/imap/client.py and
  `_process_bounces` of src/enterprise/mail_proxy/bounce/receiver.py.  A message is known by the
  mailbox's UIDVALIDITY and its UID (section 2.3.1.1 of RFC 3501).
 */
module ImapCursor {
  import opened Options

  // ---------------------------------------------------------------- one poll

  /** What a poll meets: the answers of the server and of the event table. */
  datatype Answers = Answers(
    validity: nat,
    searchOk: bool,
    listed: seq<nat>,
    fetchable: set<nat>,
    bounces: set<nat>,
    failing: set<nat>)

  /** The listed messages beyond the cursor that could be fetched, in the listed order. */
  function Fetched(listed: seq<nat>, last: nat, fetchable: set<nat>): seq<nat> {
    if listed == [] then []
    else
      var u := listed[|listed| - 1];
      Fetched(listed[..|listed| - 1], last, fetchable) + (if u > last && u in fetchable then [u] else [])
  }

  /** Recording the bounce of this message raises, which ends the poll. */
  predicate Raises(a: Answers, u: nat) {
    u in a.bounces && u in a.failing
  }

  /** The messages dealt with: those before the first that raises. */
  function Handled(fetched: seq<nat>, a: Answers): seq<nat> {
    if fetched == [] || Raises(a, fetched[0]) then [] else [fetched[0]] + Handled(fetched[1..], a)
  }

  function Max(x: nat, y: nat): nat {
    if x < y then y else x
  }

  function Cursor(last: nat, handled: seq<nat>): nat {
    if handled == [] then last else Max(Cursor(last, handled[..|handled| - 1]), handled[|handled| - 1])
  }

  function StartCursor(last: nat, known: Option<nat>, validity: nat): nat {
    if known.Some? && known.value != validity then 0 else last
  }

  function FetchedBy(last: nat, known: Option<nat>, a: Answers): seq<nat> {
    if a.searchOk then Fetched(a.listed, StartCursor(last, known, a.validity), a.fetchable) else []
  }

  function HandledBy(last: nat, known: Option<nat>, a: Answers): seq<nat> {
    Handled(FetchedBy(last, known, a), a)
  }

  function Bounced(handled: seq<nat>, a: Answers): seq<nat> {
    if handled == [] then []
    else
      var u := handled[|handled| - 1];
      Bounced(handled[..|handled| - 1], a) + (if u in a.bounces then [u] else [])
  }

  method FetchSinceUid(last: nat, a: Answers) returns (messages: seq<nat>)
    ensures messages == if a.searchOk then Fetched(a.listed, last, a.fetchable) else []
  {
    messages := [];
    if !a.searchOk {
      return;
    }
    var uids: seq<nat> := [];
    for i := 0 to |a.listed|
      invariant forall fetchable :: Fetched(uids, last, fetchable) == Fetched(a.listed[..i], last, fetchable)
      invariant forall j :: 0 <= j < |uids| ==> uids[j] > last
    {
      assert a.listed[..i + 1][..i] == a.listed[..i];
      if a.listed[i] > last {
        assert (uids + [a.listed[i]])[..|uids|] == uids;
        uids := uids + [a.listed[i]];
      }
    }
    assert a.listed[..|a.listed|] == a.listed;
    for i := 0 to |uids|
      invariant messages == Fetched(uids[..i], last, a.fetchable)
    {
      assert uids[..i + 1][..i] == uids[..i];
      if uids[i] in a.fetchable {
        messages := messages + [uids[i]];
      }
    }
    assert uids[..|uids|] == uids;
  }

  class BounceReceiver {
    var lastUid: nat
    var uidvalidity: Option<nat>

    constructor ()
      ensures lastUid == 0 && uidvalidity == None
    {
      lastUid, uidvalidity := 0, None;
    }

    /** `recorded` are the bounce events added; `ok` is false when adding one raised. */
    method ProcessBounces(a: Answers) returns (ok: bool, recorded: seq<nat>)
      modifies this
      ensures uidvalidity == Some(a.validity)
      ensures lastUid == Cursor(StartCursor(old(lastUid), old(uidvalidity), a.validity),
                                HandledBy(old(lastUid), old(uidvalidity), a))
      ensures recorded == Bounced(HandledBy(old(lastUid), old(uidvalidity), a), a)
      ensures ok <==> HandledBy(old(lastUid), old(uidvalidity), a) == FetchedBy(old(lastUid), old(uidvalidity), a)
    {
      if uidvalidity.Some? && a.validity != uidvalidity.value {
        lastUid := 0;
      }
      uidvalidity := Some(a.validity);
      var messages := FetchSinceUid(lastUid, a);
      ok, recorded := Process(messages, a);
    }

    /** The processing loop: the cursor follows each message that is dealt with. */
    method Process(messages: seq<nat>, a: Answers) returns (ok: bool, recorded: seq<nat>)
      modifies this`lastUid
      ensures lastUid == Cursor(old(lastUid), Handled(messages, a))
      ensures recorded == Bounced(Handled(messages, a), a)
      ensures ok <==> Handled(messages, a) == messages
    {
      ok, recorded := true, [];
      for i := 0 to |messages|
        invariant Handled(messages, a) == messages[..i] + Handled(messages[i..], a)
        invariant lastUid == Cursor(old(lastUid), messages[..i]) && recorded == Bounced(messages[..i], a)
      {
        TurnStep(messages, i, a, old(lastUid));
        var u := messages[i];
        if u in a.bounces {
          if u in a.failing {
            assert Handled(messages, a) == messages[..i];
            assert |Handled(messages, a)| < |messages|;
            return false, recorded;
          }
          recorded := recorded + [u];
        }
        if u > lastUid {
          lastUid := u;
        }
      }
      assert messages[|messages|..] == [] && messages[..|messages|] == messages;
      assert Handled(messages, a) == messages;
    }
  }

  lemma TurnStep(messages: seq<nat>, i: nat, a: Answers, start: nat)
    requires i < |messages|
    ensures Handled(messages[i..], a)
        == if Raises(a, messages[i]) then [] else [messages[i]] + Handled(messages[i + 1..], a)
    ensures messages[..i] + ([messages[i]] + Handled(messages[i + 1..], a))
        == messages[..i + 1] + Handled(messages[i + 1..], a)
    ensures Cursor(start, messages[..i + 1]) == Max(Cursor(start, messages[..i]), messages[i])
    ensures Bounced(messages[..i + 1], a)
        == Bounced(messages[..i], a) + (if messages[i] in a.bounces then [messages[i]] else [])
  {
    assert messages[i..][1..] == messages[i + 1..];
    assert messages[..i + 1][..i] == messages[..i];
  }

  // ---------------------------------------------------------------- the mailbox and the receiver

  datatype Seen = Seen(validity: nat, uid: nat)

  /** `nextUid` is the least UID not given out yet (UIDNEXT). */
  datatype Mailbox = Mailbox(validity: nat, uids: set<nat>, nextUid: nat)

  /**
    `processed` and `skipped` are history since the process started: what was dealt with, and what
    was passed over because the fetch failed.  `past` is what was dealt with in each lifetime of the
    process before, which remembers the cursor in memory only.
   */
  datatype State = State(
    box: Mailbox,
    lastUid: nat,
    known: Option<nat>,
    processed: seq<Seen>,
    skipped: set<Seen>,
    past: seq<seq<Seen>>)

  datatype Step =
    | Deliver(uid: nat)
    | Expunge(uid: nat)
    | Recreate(validity: nat, uids: set<nat>, nextUid: nat)
    | Poll(answers: Answers)
    | Restart

  predicate Ascending(s: seq<nat>) {
    forall i, j :: 0 <= i < j < |s| ==> s[i] < s[j]
  }

  /** What `n:*` selects: every UID from `n` on, and the greatest one in any case. */
  predicate Selected(uids: set<nat>, n: nat, u: nat) {
    u in uids && (u >= n || forall v :: v in uids ==> v <= u)
  }

  /** A server that follows RFC 3501 (sections 2.3.1.1 and 6.4.8) and lists UIDs ascending. */
  ghost predicate Truthful(s: State, a: Answers) {
    && a.validity == s.box.validity
    && Ascending(a.listed)
    && forall u :: u in a.listed <==> Selected(s.box.uids, StartCursor(s.lastUid, s.known, a.validity) + 1, u)
  }

  ghost predicate Enabled(s: State, step: Step) {
    match step
    case Deliver(uid) => uid >= s.box.nextUid
    case Expunge(uid) => true
    case Recreate(validity, uids, nextUid) => validity > s.box.validity && nextUid > 0
        && forall u :: u in uids ==> 0 < u < nextUid
    case Poll(a) => Truthful(s, a)
    case Restart => true
  }

  /** The messages a poll passes over: listed, not fetched, and now behind the cursor. */
  function PassedOver(a: Answers, start: nat, last: nat): set<Seen> {
    set u | u in a.listed && start < u <= last && u !in a.fetchable :: Seen(a.validity, u)
  }

  function Tagged(handled: seq<nat>, validity: nat): seq<Seen> {
    seq(|handled|, i requires 0 <= i < |handled| => Seen(validity, handled[i]))
  }

  function AfterPoll(s: State, a: Answers): State {
    var start := StartCursor(s.lastUid, s.known, a.validity);
    var handled := HandledBy(s.lastUid, s.known, a);
    s.(lastUid := Cursor(start, handled),
       known := Some(a.validity),
       processed := s.processed + Tagged(handled, a.validity),
       skipped := s.skipped + (if a.searchOk then PassedOver(a, start, Cursor(start, handled)) else {}))
  }

  function Next(s: State, step: Step): State {
    match step
    case Deliver(uid) => s.(box := Mailbox(s.box.validity, s.box.uids + {uid}, uid + 1))
    case Expunge(uid) => s.(box := s.box.(uids := s.box.uids - {uid}))
    case Recreate(validity, uids, nextUid) => s.(box := Mailbox(validity, uids, nextUid))
    case Poll(a) => AfterPoll(s, a)
    case Restart => State(s.box, 0, None, [], {}, s.past + [s.processed])
  }

  // ---------------------------------------------------------------- invariants

  predicate Earlier(a: Seen, b: Seen) {
    a.validity < b.validity || (a.validity == b.validity && a.uid < b.uid)
  }

  /** Nothing is dealt with twice: the history strictly ascends. */
  predicate InOrder(processed: seq<Seen>) {
    forall i, j :: 0 <= i < j < |processed| ==> Earlier(processed[i], processed[j])
  }

  /** Whatever has been decided lies behind the cursor. */
  predicate Behind(s: State, m: Seen) {
    s.known.Some? && (m.validity < s.known.value || (m.validity == s.known.value && m.uid <= s.lastUid))
  }

  predicate AllBehind(s: State) {
    && (forall m :: m in s.processed ==> Behind(s, m))
    && (forall m :: m in s.skipped ==> Behind(s, m))
  }

  predicate Separate(s: State) {
    forall m :: m in s.skipped ==> m !in s.processed
  }

  predicate BoxSound(s: State) {
    && s.box.nextUid > 0
    && (forall u :: u in s.box.uids ==> 0 < u < s.box.nextUid)
    && (s.known.None? ==> s.lastUid == 0)
    && (s.known.Some? ==> s.known.value <= s.box.validity)
    && (s.known == Some(s.box.validity) ==> s.lastUid < s.box.nextUid)
  }

  /** Every message behind the cursor was dealt with or passed over. */
  predicate NoneForgotten(s: State) {
    s.known == Some(s.box.validity) ==>
      forall u :: u in s.box.uids && u <= s.lastUid ==>
        Seen(s.box.validity, u) in s.processed || Seen(s.box.validity, u) in s.skipped
  }

  predicate Sound(s: State) {
    && InOrder(s.processed) && AllBehind(s) && Separate(s) && BoxSound(s) && NoneForgotten(s)
    && forall i :: 0 <= i < |s.past| ==> InOrder(s.past[i])
  }

  // ---------------------------------------------------------------- what a poll handles

  lemma {:induction false} FetchedMembers(listed: seq<nat>, last: nat, fetchable: set<nat>)
    ensures forall u :: u in Fetched(listed, last, fetchable) <==> u in listed && u > last && u in fetchable
  {
    if listed != [] {
      var n := |listed| - 1;
      FetchedMembers(listed[..n], last, fetchable);
      assert listed == listed[..n] + [listed[n]];
    }
  }

  lemma AscendingSnoc(s: seq<nat>, u: nat)
    requires Ascending(s) && forall v :: v in s ==> v < u
    ensures Ascending(s + [u])
  {
    forall i, j | 0 <= i < j < |s + [u]|
      ensures (s + [u])[i] < (s + [u])[j]
    {
      assert s[i] in s;
    }
  }

  lemma {:induction false} FetchedAscending(listed: seq<nat>, last: nat, fetchable: set<nat>)
    requires Ascending(listed)
    ensures Ascending(Fetched(listed, last, fetchable))
  {
    if listed != [] {
      var init, u := listed[..|listed| - 1], listed[|listed| - 1];
      FetchedAscending(init, last, fetchable);
      FetchedMembers(init, last, fetchable);
      AscendingSnoc(Fetched(init, last, fetchable), u);
    }
  }

  /** The handled ones are a prefix of the fetched, cut before the first that raises. */
  lemma {:induction false} HandledPrefix(fetched: seq<nat>, a: Answers)
    ensures |Handled(fetched, a)| <= |fetched|
    ensures Handled(fetched, a) == fetched[..|Handled(fetched, a)|]
    ensures |Handled(fetched, a)| < |fetched| ==> Raises(a, fetched[|Handled(fetched, a)|])
  {
    if fetched != [] && !Raises(a, fetched[0]) {
      HandledPrefix(fetched[1..], a);
    }
  }

  /** In ascending order the cursor is the last one handled. */
  lemma {:induction false} CursorSpec(start: nat, handled: seq<nat>)
    requires Ascending(handled) && forall i :: 0 <= i < |handled| ==> handled[i] > start
    ensures Cursor(start, handled) == if handled == [] then start else handled[|handled| - 1]
  {
    if handled != [] {
      CursorSpec(start, handled[..|handled| - 1]);
    }
  }

  predicate AllBeyond(start: nat, s: seq<nat>) {
    forall u :: u in s ==> u > start
  }

  /** In ascending order, the handled ones are those up to the new cursor. */
  lemma HandledSpec(fetched: seq<nat>, a: Answers, start: nat)
    requires Ascending(fetched) && AllBeyond(start, fetched)
    ensures var handled := Handled(fetched, a);
            var last := Cursor(start, handled);
            && Ascending(handled) && start <= last && (last == start || last in fetched)
            && forall u :: u in handled <==> u in fetched && u <= last
  {
    HandledPrefix(fetched, a);
    var n := |Handled(fetched, a)|;
    if n == 0 {
      assert Handled(fetched, a) == [];
    } else {
      PrefixBeyond(fetched, n, start);
      CursorSpec(start, fetched[..n]);
      UpTo(fetched, n);
      assert fetched[n - 1] in fetched;
    }
  }

  lemma PrefixBeyond(fetched: seq<nat>, n: nat, start: nat)
    requires Ascending(fetched) && AllBeyond(start, fetched) && n <= |fetched|
    ensures Ascending(fetched[..n]) && forall i :: 0 <= i < n ==> fetched[..n][i] > start
  {
    forall i | 0 <= i < n
      ensures fetched[..n][i] > start
    {
      assert fetched[i] in fetched;
    }
  }

  lemma {:induction false} HandledAllIf(fetched: seq<nat>, a: Answers)
    requires forall u :: u in fetched ==> !Raises(a, u)
    ensures Handled(fetched, a) == fetched
  {
    if fetched != [] {
      assert fetched[0] in fetched;
      HandledAllIf(fetched[1..], a);
    }
  }

  lemma UpTo(fetched: seq<nat>, n: nat)
    requires Ascending(fetched) && 0 < n <= |fetched|
    ensures forall u :: u in fetched[..n] <==> u in fetched && u <= fetched[n - 1]
  {
    forall u | u in fetched && u <= fetched[n - 1]
      ensures u in fetched[..n]
    {
      var i :| 0 <= i < |fetched| && fetched[i] == u;
      assert i < n;
      assert fetched[..n][i] == u;
    }
  }

  lemma FetchedFromBox(s: State, a: Answers)
    requires Truthful(s, a)
    ensures var start := StartCursor(s.lastUid, s.known, a.validity);
            var fetched := FetchedBy(s.lastUid, s.known, a);
            && Ascending(fetched) && AllBeyond(start, fetched)
            && forall u :: u in fetched <==> a.searchOk && u in s.box.uids && u in a.fetchable && u > start
  {
    var start := StartCursor(s.lastUid, s.known, a.validity);
    FetchedAscending(a.listed, start, a.fetchable);
    FetchedMembers(a.listed, start, a.fetchable);
  }

  /** What one poll does, in terms of the mailbox. */
  lemma PollSpec(s: State, a: Answers)
    requires Truthful(s, a)
    ensures var start := StartCursor(s.lastUid, s.known, a.validity);
            var handled := HandledBy(s.lastUid, s.known, a);
            var last := Cursor(start, handled);
            && Ascending(handled)
            && start <= last
            && (forall u :: u in handled <==> a.searchOk && u in s.box.uids && u in a.fetchable && start < u <= last)
            && (last == start || last in s.box.uids)
            && (!a.searchOk ==> last == start)
  {
    FetchedFromBox(s, a);
    HandledSpec(FetchedBy(s.lastUid, s.known, a), a, StartCursor(s.lastUid, s.known, a.validity));
  }

  /** A poll that finds every new message fetchable and raises nowhere. */
  ghost predicate Clean(s: State, a: Answers) {
    a.searchOk && forall u :: u in a.listed && u > StartCursor(s.lastUid, s.known, a.validity) ==>
        u in a.fetchable && !Raises(a, u)
  }

  /** A clean poll handles every message beyond the cursor. */
  lemma CleanPollHandlesAll(s: State, a: Answers)
    requires Truthful(s, a) && Clean(s, a)
    ensures forall u :: u in s.box.uids && u > StartCursor(s.lastUid, s.known, a.validity) ==>
        u in HandledBy(s.lastUid, s.known, a)
  {
    FetchedFromBox(s, a);
    FetchedMembers(a.listed, StartCursor(s.lastUid, s.known, a.validity), a.fetchable);
    HandledAllIf(FetchedBy(s.lastUid, s.known, a), a);
  }

  /** The events recorded are those of the bounces among the handled ones, in their order. */
  lemma {:induction false} BouncedExact(handled: seq<nat>, a: Answers)
    ensures forall u :: u in Bounced(handled, a) <==> u in handled && u in a.bounces
    ensures Ascending(handled) ==> Ascending(Bounced(handled, a))
  {
    if handled != [] {
      var init, u := handled[..|handled| - 1], handled[|handled| - 1];
      BouncedExact(init, a);
      assert handled == init + [u];
      if Ascending(handled) && u in a.bounces {
        forall v | v in Bounced(init, a)
          ensures v < u
        {
          var i :| 0 <= i < |init| && init[i] == v;
          assert handled[i] < handled[|handled| - 1];
        }
        AscendingSnoc(Bounced(init, a), u);
      }
    }
  }

  /**
    What one poll records: ascending, the bounces of the mailbox beyond the cursor that can be
    fetched, up to the first whose event cannot be stored.
   */
  lemma PollRecords(s: State, a: Answers, u: nat)
    requires Truthful(s, a)
    ensures var start := if s.known.Some? && s.known.value != a.validity then 0 else s.lastUid;
            var recorded := Bounced(HandledBy(s.lastUid, s.known, a), a);
            && Ascending(recorded)
            && (u in recorded <==>
                  && a.searchOk && u in s.box.uids && u > start && u in a.fetchable && u in a.bounces
                  && forall v :: start < v <= u && v in s.box.uids && v in a.fetchable && v in a.bounces ==>
                       v !in a.failing)
  {
    var start := StartCursor(s.lastUid, s.known, a.validity);
    var fetched := FetchedBy(s.lastUid, s.known, a);
    FetchedFromBox(s, a);
    BouncedExact(Handled(fetched, a), a);
    HandledSpec(fetched, a, start);
    HandledUntilFailure(fetched, a, u);
  }

  /** Of an ascending list, an entry is handled exactly when neither it nor one before it raises. */
  lemma {:induction false} HandledUntilFailure(fetched: seq<nat>, a: Answers, u: nat)
    requires Ascending(fetched)
    ensures u in Handled(fetched, a) <==>
              u in fetched && forall v :: v in fetched && v <= u ==> !(v in a.bounces && v in a.failing)
  {
    if fetched != [] {
      var first, rest := fetched[0], fetched[1..];
      HandledUntilFailure(rest, a, u);
      assert fetched == [first] + rest;
      forall v | v in rest
        ensures first < v
      {
        var i :| 0 <= i < |rest| && rest[i] == v;
        assert fetched[0] < fetched[i + 1];
      }
    }
  }

  // ---------------------------------------------------------------- every step keeps the invariants

  lemma TaggedMembers(handled: seq<nat>, validity: nat)
    ensures forall m :: m in Tagged(handled, validity) <==> m.validity == validity && m.uid in handled
  {
    forall u | u in handled
      ensures Seen(validity, u) in Tagged(handled, validity)
    {
      var i :| 0 <= i < |handled| && handled[i] == u;
      assert Tagged(handled, validity)[i] == Seen(validity, u);
    }
  }

  /** Decided before the poll means before everything the poll decides. */
  lemma BehindIsEarlier(s: State, a: Answers, m: Seen, u: nat)
    requires Sound(s) && Truthful(s, a) && Behind(s, m) && u > StartCursor(s.lastUid, s.known, a.validity)
    ensures Earlier(m, Seen(a.validity, u))
  {
  }

  lemma PollInOrder(s: State, a: Answers)
    requires Sound(s) && Truthful(s, a)
    ensures InOrder(AfterPoll(s, a).processed)
  {
    PollSpec(s, a);
    var handled := HandledBy(s.lastUid, s.known, a);
    var after := AfterPoll(s, a).processed;
    forall i, j | 0 <= i < j < |after|
      ensures Earlier(after[i], after[j])
    {
      if i < |s.processed| <= j {
        assert s.processed[i] in s.processed;
        assert handled[j - |s.processed|] in handled;
        BehindIsEarlier(s, a, s.processed[i], handled[j - |s.processed|]);
      }
    }
  }

  lemma PollDecides(s: State, a: Answers)
    requires Sound(s) && Truthful(s, a)
    ensures AllBehind(AfterPoll(s, a)) && Separate(AfterPoll(s, a))
  {
    PollSpec(s, a);
    var start := StartCursor(s.lastUid, s.known, a.validity);
    var handled := HandledBy(s.lastUid, s.known, a);
    TaggedMembers(handled, a.validity);
    var s' := AfterPoll(s, a);
    forall m | m in s'.processed
      ensures Behind(s', m) && m !in s'.skipped
    {
      if m in s.processed {
        assert Behind(s, m);
      } else {
        assert m in Tagged(handled, a.validity);
      }
    }
    forall m | m in s'.skipped
      ensures Behind(s', m)
    {
      if m in s.skipped {
        assert Behind(s, m);
      }
    }
  }

  lemma PollForgetsNone(s: State, a: Answers)
    requires Sound(s) && Truthful(s, a)
    ensures BoxSound(AfterPoll(s, a)) && NoneForgotten(AfterPoll(s, a))
  {
    PollSpec(s, a);
    var start := StartCursor(s.lastUid, s.known, a.validity);
    var handled := HandledBy(s.lastUid, s.known, a);
    var s' := AfterPoll(s, a);
    TaggedMembers(handled, a.validity);
    forall u | u in s'.box.uids && u <= s'.lastUid
      ensures Seen(s.box.validity, u) in s'.processed || Seen(s.box.validity, u) in s'.skipped
    {
      if u > start {
        assert Selected(s.box.uids, start + 1, u);
        assert u in handled || Seen(a.validity, u) in PassedOver(a, start, s'.lastUid);
        assert u in handled ==> Seen(a.validity, u) in Tagged(handled, a.validity);
      }
    }
  }

  lemma StepSound(s: State, step: Step)
    requires Sound(s) && Enabled(s, step)
    ensures Sound(Next(s, step))
    ensures !step.Restart? ==> s.skipped <= Next(s, step).skipped && s.processed <= Next(s, step).processed
    ensures |Next(s, step).past| == |s.past| + (if step.Restart? then 1 else 0)
  {
    match step
    case Deliver(uid) =>
    case Expunge(uid) =>
    case Recreate(validity, uids, nextUid) =>
    case Poll(a) =>
      PollInOrder(s, a);
      PollDecides(s, a);
      PollForgetsNone(s, a);
    case Restart =>
  }

  ghost predicate Possible(s: State, run: seq<Step>)
    decreases |run|
  {
    run == [] || (Enabled(s, run[0]) && Possible(Next(s, run[0]), run[1..]))
  }

  function Final(s: State, run: seq<Step>): State
    decreases |run|
  {
    if run == [] then s else Final(Next(s, run[0]), run[1..])
  }

  function Restarts(run: seq<Step>): nat {
    if run == [] then 0 else (if run[0].Restart? then 1 else 0) + Restarts(run[1..])
  }

  lemma {:induction false} RunSound(s: State, run: seq<Step>)
    requires Sound(s) && Possible(s, run)
    ensures Sound(Final(s, run))
    ensures Restarts(run) == 0 ==> s.skipped <= Final(s, run).skipped && s.processed <= Final(s, run).processed
    ensures |Final(s, run).past| == |s.past| + Restarts(run)
    decreases |run|
  {
    if run != [] {
      StepSound(s, run[0]);
      RunSound(Next(s, run[0]), run[1..]);
    }
  }

  /** A receiver that has not polled yet, on any mailbox. */
  predicate Initial(s: State) {
    && s.lastUid == 0 && s.known == None && s.processed == [] && s.skipped == {} && s.past == []
    && s.box.nextUid > 0 && forall u :: u in s.box.uids ==> 0 < u < s.box.nextUid
  }

  // ---------------------------------------------------------------- the main results

  /** What the process dealt with in each of its lifetimes, the current one last. */
  function Lifetimes(s: State): seq<seq<Seen>> {
    s.past + [s.processed]
  }

  /**
    In no lifetime of the process is a message dealt with twice, and in each they are dealt with in
    ascending order; there is one lifetime more than there were restarts.
   */
  lemma NoneTwice(s: State, run: seq<Step>, life: nat, i: nat, j: nat)
    requires Initial(s) && Possible(s, run) && life < |Lifetimes(Final(s, run))|
    requires i < j < |Lifetimes(Final(s, run))[life]|
    ensures Earlier(Lifetimes(Final(s, run))[life][i], Lifetimes(Final(s, run))[life][j])
    ensures Lifetimes(Final(s, run))[life][i] != Lifetimes(Final(s, run))[life][j]
    ensures |Lifetimes(Final(s, run))| == Restarts(run) + 1
  {
    RunSound(s, run);
    assert InOrder(Lifetimes(Final(s, run))[life]);
  }

  /** In how many lifetimes a message was dealt with. */
  function Times(lives: seq<seq<Seen>>, m: Seen): nat {
    if lives == [] then 0
    else Times(lives[..|lives| - 1], m) + (if m in lives[|lives| - 1] then 1 else 0)
  }

  lemma {:induction false} TimesAtMost(lives: seq<seq<Seen>>, m: Seen)
    ensures Times(lives, m) <= |lives|
  {
    if lives != [] {
      TimesAtMost(lives[..|lives| - 1], m);
    }
  }

  /** So a message is dealt with at most once more than the process was restarted. */
  lemma OncePerLifetime(s: State, run: seq<Step>, m: Seen)
    requires Initial(s) && Possible(s, run)
    ensures Times(Lifetimes(Final(s, run)), m) <= Restarts(run) + 1
  {
    RunSound(s, run);
    TimesAtMost(Lifetimes(Final(s, run)), m);
  }

  /**
    And it is, if it stays: after a restart, a clean poll deals with every message of the mailbox,
    and with those alone, whatever was dealt with before.
   */
  lemma RestartDealsAgain(s: State, a: Answers, u: nat)
    requires Sound(s) && Truthful(Next(s, Restart), a) && Clean(Next(s, Restart), a)
    ensures var s' := AfterPoll(Next(s, Restart), a);
            && (Seen(s.box.validity, u) in s'.processed <==> u in s.box.uids)
            && Times(Lifetimes(s'), Seen(s.box.validity, u))
               == Times(Lifetimes(s), Seen(s.box.validity, u)) + (if u in s.box.uids then 1 else 0)
  {
    var anew := Next(s, Restart);
    StepSound(s, Restart);
    CleanPollHandlesAll(anew, a);
    PollSpec(anew, a);
    TaggedMembers(HandledBy(anew.lastUid, anew.known, a), a.validity);
    var s' := AfterPoll(anew, a);
    assert s'.processed == Tagged(HandledBy(0, None, a), a.validity);
    assert Lifetimes(s')[..|Lifetimes(s')| - 1] == Lifetimes(s);
  }

  /**
    Where a message of the mailbox stands after any run: still ahead of the cursor, or dealt
    with, or passed over for good because its fetch failed, and never two of these.
   */
  lemma EveryMessageAccounted(s: State, run: seq<Step>, u: nat)
    requires Initial(s) && Possible(s, run) && u in Final(s, run).box.uids
    requires Final(s, run).known == Some(Final(s, run).box.validity)
    ensures var f := Final(s, run);
            var m := Seen(f.box.validity, u);
            && (u > f.lastUid <==> m !in f.processed && m !in f.skipped)
            && !(m in f.processed && m in f.skipped)
  {
    RunSound(s, run);
    var f := Final(s, run);
    var m := Seen(f.box.validity, u);
    if m in f.processed || m in f.skipped {
      assert Behind(f, m);
    }
  }

  /** What is passed over is lost: no later run deals with it until the process restarts. */
  lemma PassedOverIsLost(s: State, run: seq<Step>, more: seq<Step>, m: Seen)
    requires Initial(s) && Possible(s, run) && m in Final(s, run).skipped
    requires Possible(Final(s, run), more) && Restarts(more) == 0
    ensures m !in Final(Final(s, run), more).processed
  {
    RunSound(s, run);
    RunSound(Final(s, run), more);
  }

  /**
    Exactly once: after a run in which no fetch failed since the process started, polls cut short by
    a failing event table included, one clean poll leaves every message of the mailbox dealt with
    at exactly one place of this lifetime's history.
   */
  lemma ExactlyOnce(s: State, run: seq<Step>, a: Answers, u: nat) returns (at: nat)
    requires Initial(s) && Possible(s, run)
    requires Final(s, run).skipped == {} && Truthful(Final(s, run), a) && Clean(Final(s, run), a)
    requires u in Final(s, run).box.uids
    ensures var h := AfterPoll(Final(s, run), a).processed;
            && at < |h| && h[at] == Seen(a.validity, u)
            && forall i :: 0 <= i < |h| && i != at ==> h[i] != Seen(a.validity, u)
  {
    RunSound(s, run);
    var before := Final(s, run);
    var after := AfterPoll(before, a);
    CleanPollHandlesAll(before, a);
    PollInOrder(before, a);
    var handled := HandledBy(before.lastUid, before.known, a);
    TaggedMembers(handled, a.validity);
    var m := Seen(a.validity, u);
    if u <= StartCursor(before.lastUid, before.known, a.validity) {
      assert m in before.processed;
    } else {
      assert m in Tagged(handled, a.validity);
    }
    assert m in after.processed;
    at :| 0 <= at < |after.processed| && after.processed[at] == m;
    forall i | 0 <= i < |after.processed| && i != at
      ensures after.processed[i] != m
    {
      assert if i < at then Earlier(after.processed[i], m) else Earlier(m, after.processed[i]);
    }
  }

  /** A failed fetch loses mail: of two messages the first cannot be fetched, the second can. */
  lemma FailedFetchLosesMail()
    ensures var s := State(Mailbox(7, {1, 2}, 3), 0, None, [], {}, []);
            var a := Answers(7, true, [1, 2], {2}, {}, {});
            && Initial(s) && Possible(s, [Poll(a)])
            && Final(s, [Poll(a)]).processed == [Seen(7, 2)]
            && Seen(7, 1) in Final(s, [Poll(a)]).skipped
  {
    var s := State(Mailbox(7, {1, 2}, 3), 0, None, [], {}, []);
    var a := Answers(7, true, [1, 2], {2}, {}, {});
    assert a.listed[..1] == [1] && [1][..0] == [];
    assert Fetched([1], 0, {2}) == [];
    assert FetchedBy(0, None, a) == [2];
    assert Handled([2], a) == [2] + Handled([2][1..], a) == [2];
    assert [2][..0] == [];
    assert Cursor(0, [2]) == 2;
    assert [Poll(a)][1..] == [];
    assert Tagged([2], 7) == [Seen(7, 2)];
    assert Seen(7, 1) in PassedOver(a, 0, 2);
  }

  /** New mail is dealt with: a message delivered after any run, and the mailbox polled cleanly, is in the history. */
  lemma DeliveredIsHandled(s: State, u: nat, a: Answers)
    requires Sound(s) && u >= s.box.nextUid
    requires Truthful(Next(s, Deliver(u)), a) && Clean(Next(s, Deliver(u)), a)
    ensures Possible(s, [Deliver(u), Poll(a)])
    ensures Seen(s.box.validity, u) in Final(s, [Deliver(u), Poll(a)]).processed
  {
    var s1 := Next(s, Deliver(u));
    StepSound(s, Deliver(u));
    CleanPollHandlesAll(s1, a);
    TaggedMembers(HandledBy(s1.lastUid, s1.known, a), a.validity);
    assert Seen(s.box.validity, u) in Tagged(HandledBy(s1.lastUid, s1.known, a), a.validity);
    StepThenPoll(s, Deliver(u), a);
  }

  /** A mailbox that is recreated, with a greater UIDVALIDITY, is read from its first message on. */
  lemma RecreatedIsReadAnew(s: State, validity: nat, uids: set<nat>, nextUid: nat, a: Answers, u: nat)
    requires Sound(s) && validity > s.box.validity && nextUid > 0 && forall v :: v in uids ==> 0 < v < nextUid
    requires s.known.Some? || s.lastUid == 0
    requires var s1 := Next(s, Recreate(validity, uids, nextUid)); Truthful(s1, a) && Clean(s1, a)
    ensures var run := [Recreate(validity, uids, nextUid), Poll(a)];
            && Possible(s, run)
            && (u in uids ==> Seen(validity, u) in Final(s, run).processed)
  {
    var step := Recreate(validity, uids, nextUid);
    var s1 := Next(s, step);
    StepSound(s, step);
    CleanPollHandlesAll(s1, a);
    TaggedMembers(HandledBy(s1.lastUid, s1.known, a), a.validity);
    assert u in uids ==> Seen(validity, u) in Tagged(HandledBy(s1.lastUid, s1.known, a), a.validity);
    StepThenPoll(s, step, a);
  }

  lemma StepThenPoll(s: State, step: Step, a: Answers)
    requires Enabled(s, step) && Enabled(Next(s, step), Poll(a))
    ensures Possible(s, [step, Poll(a)]) && Final(s, [step, Poll(a)]) == AfterPoll(Next(s, step), a)
  {
    var run, rest, none: seq<Step> := [step, Poll(a)], [Poll(a)], [];
    assert run[1..] == rest && rest[1..] == none;
    assert Possible(Next(s, step), rest) && Final(Next(s, step), rest) == Final(AfterPoll(Next(s, step), a), none);
    assert Final(s, run) == Final(Next(s, run[0]), run[1..]);
  }
}
