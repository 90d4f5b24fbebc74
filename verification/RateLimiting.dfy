/**
  The sliding-window rate limiter (src/core/mail_proxy/smtp/rate_limiter.py).

  `Ledger` is what the limiter keeps for one account id.  The functions `Decide`,
  `AfterCheck`, `AfterLog` and `AfterRelease` say what each call does to it; the class
  `RateLimiter` is proved to do exactly that, in place and for one account at a time.
  The second half follows a ledger through arbitrary runs, in which sends overlap.
 */
module RateLimiting {
  import opened Options

  datatype Window = Minute | Hour | Day

  function Seconds(w: Window): int {
    match w
    case Minute => 60
    case Hour => 3600
    case Day => 86400
  }

  /** The columns of an account row that the limiter reads. */
  datatype Account = Account(
    id: string,
    limitPerMinute: Option<int>,
    limitPerHour: Option<int>,
    limitPerDay: Option<int>,
    limitBehavior: Option<string>)

  /** A configured limit counts only when it is positive. */
  function Effective(raw: Option<int>): Option<int> {
    if raw.Some? && raw.value > 0 then raw else None
  }

  function Limit(a: Account, w: Window): Option<int> {
    match w
    case Minute => Effective(a.limitPerMinute)
    case Hour => Effective(a.limitPerHour)
    case Day => Effective(a.limitPerDay)
  }

  predicate Limited(a: Account) {
    Limit(a, Minute).Some? || Limit(a, Hour).Some? || Limit(a, Day).Some?
  }

  predicate Rejects(a: Account) {
    a.limitBehavior == Some("reject")
  }

  /** Send timestamps oldest first, and the number of reservations not yet settled. */
  datatype Ledger = Ledger(history: seq<int>, inFlight: int)

  datatype Decision = Granted | Blocked(until: int, reject: bool)

  function CountAfter(history: seq<int>, since: int): (n: nat)
    ensures n <= |history|
  {
    if history == [] then 0
    else CountAfter(history[..|history| - 1], since) + (if history[|history| - 1] > since then 1 else 0)
  }

  /** The history without its leading entries that are at least a day old. */
  function Prune(history: seq<int>, now: int): seq<int> {
    if history != [] && history[0] <= now - Seconds(Day) then Prune(history[1..], now) else history
  }

  predicate Full(a: Account, l: Ledger, now: int, w: Window) {
    Limit(a, w).Some? && CountAfter(l.history, now - Seconds(w)) + l.inFlight >= Limit(a, w).value
  }

  /** The first multiple of the window's length that lies after `now`. */
  function NextBoundary(now: int, w: Window): int {
    (now / Seconds(w) + 1) * Seconds(w)
  }

  function DecideOn(a: Account, l: Ledger, now: int): Decision {
    if Full(a, l, now, Minute) then Blocked(NextBoundary(now, Minute), Rejects(a))
    else if Full(a, l, now, Hour) then Blocked(NextBoundary(now, Hour), Rejects(a))
    else if Full(a, l, now, Day) then Blocked(NextBoundary(now, Day), Rejects(a))
    else Granted
  }

  function Pruned(l: Ledger, now: int): Ledger {
    l.(history := Prune(l.history, now))
  }

  function Decide(a: Account, l: Ledger, now: int): Decision {
    if Limited(a) then DecideOn(a, Pruned(l, now), now) else Granted
  }

  function AfterCheck(a: Account, l: Ledger, now: int): Ledger {
    if !Limited(a) then l
    else if Decide(a, l, now).Granted? then Pruned(l, now).(inFlight := l.inFlight + 1)
    else Pruned(l, now)
  }

  function AfterRelease(l: Ledger): Ledger {
    if l.inFlight > 0 then l.(inFlight := l.inFlight - 1) else l
  }

  function AfterLog(l: Ledger, now: int): Ledger {
    AfterRelease(l).(history := l.history + [now])
  }

  // ---------------------------------------------------------------- the class

  class RateLimiter {
    var sendHistory: map<string, seq<int>>
    var inFlight: map<string, int>

    constructor ()
      ensures forall id :: LedgerOf(id) == Ledger([], 0)
    {
      sendHistory, inFlight := map[], map[];
    }

    /** A missing entry reads as no history and no reservation. */
    function LedgerOf(id: string): Ledger
      reads this
    {
      Ledger(if id in sendHistory then sendHistory[id] else [],
             if id in inFlight then inFlight[id] else 0)
    }

    method CountSince(id: string, since: int) returns (n: nat)
      ensures n == CountAfter(LedgerOf(id).history, since)
    {
      n := 0;
      if id !in sendHistory {
        return;
      }
      var history := sendHistory[id];
      for i := 0 to |history|
        invariant n == CountAfter(history[..i], since)
      {
        assert history[..i + 1][..i] == history[..i];
        if history[i] > since {
          n := n + 1;
        }
      }
      assert history[..|history|] == history;
    }

    method CleanupOldEntries(id: string, now: int)
      modifies this`sendHistory
      ensures LedgerOf(id) == Pruned(old(LedgerOf(id)), now)
      ensures forall other :: other != id ==> LedgerOf(other) == old(LedgerOf(other))
    {
      if id !in sendHistory {
        return;
      }
      var history := sendHistory[id];
      while history != [] && history[0] <= now - Seconds(Day)
        invariant Prune(history, now) == Prune(sendHistory[id], now)
        decreases |history|
      {
        history := history[1..];
      }
      sendHistory := sendHistory[id := history];
    }

    /** The test of one window, on history already pruned. */
    method WindowIsFull(a: Account, now: int, w: Window) returns (full: bool)
      ensures full == Full(a, LedgerOf(a.id), now, w)
    {
      if Limit(a, w).None? {
        return false;
      }
      var c := CountSince(a.id, now - Seconds(w));
      return c + (if a.id in inFlight then inFlight[a.id] else 0) >= Limit(a, w).value;
    }

    method CheckAndPlan(a: Account, now: int) returns (decision: Decision)
      modifies this
      ensures decision == Decide(a, old(LedgerOf(a.id)), now)
      ensures LedgerOf(a.id) == AfterCheck(a, old(LedgerOf(a.id)), now)
      ensures forall other :: other != a.id ==> LedgerOf(other) == old(LedgerOf(other))
    {
      if !Limited(a) {
        return Granted;
      }
      CleanupOldEntries(a.id, now);
      var full := WindowIsFull(a, now, Minute);
      if full {
        return Blocked(NextBoundary(now, Minute), Rejects(a));
      }
      full := WindowIsFull(a, now, Hour);
      if full {
        return Blocked(NextBoundary(now, Hour), Rejects(a));
      }
      full := WindowIsFull(a, now, Day);
      if full {
        return Blocked(NextBoundary(now, Day), Rejects(a));
      }
      inFlight := inFlight[a.id := (if a.id in inFlight then inFlight[a.id] else 0) + 1];
      return Granted;
    }

    method LogSend(id: string, now: int)
      modifies this
      ensures LedgerOf(id) == AfterLog(old(LedgerOf(id)), now)
      ensures forall other :: other != id ==> LedgerOf(other) == old(LedgerOf(other))
    {
      if id in inFlight && inFlight[id] > 0 {
        inFlight := inFlight[id := inFlight[id] - 1];
      }
      if id !in sendHistory {
        sendHistory := sendHistory[id := []];
      }
      sendHistory := sendHistory[id := sendHistory[id] + [now]];
    }

    method ReleaseSlot(id: string)
      modifies this`inFlight
      ensures LedgerOf(id) == AfterRelease(old(LedgerOf(id)))
      ensures forall other :: other != id ==> LedgerOf(other) == old(LedgerOf(other))
    {
      if id in inFlight && inFlight[id] > 0 {
        inFlight := inFlight[id := inFlight[id] - 1];
      }
    }

    method PurgeForAccount(id: string) returns (count: nat)
      modifies this
      ensures count == |old(LedgerOf(id)).history|
      ensures LedgerOf(id) == Ledger([], 0)
      ensures forall other :: other != id ==> LedgerOf(other) == old(LedgerOf(other))
    {
      count := 0;
      if id in sendHistory {
        count := |sendHistory[id]|;
        sendHistory := sendHistory - {id};
      }
      inFlight := inFlight - {id};
    }
  }

  // ---------------------------------------------------------------- counting

  predicate Sorted(s: seq<int>) {
    forall i, j :: 0 <= i < j < |s| ==> s[i] <= s[j]
  }

  lemma {:induction false} CountAppend(history: seq<int>, tail: seq<int>, since: int)
    ensures CountAfter(history + tail, since) == CountAfter(history, since) + CountAfter(tail, since)
  {
    if tail == [] {
      assert history + tail == history;
    } else {
      var front := tail[..|tail| - 1];
      CountAppend(history, front, since);
      assert (history + tail)[..|history + tail| - 1] == history + front;
    }
  }

  lemma {:induction false} CountNone(history: seq<int>, since: int)
    requires forall i :: 0 <= i < |history| ==> history[i] <= since
    ensures CountAfter(history, since) == 0
  {
    if history != [] {
      CountNone(history[..|history| - 1], since);
    }
  }

  /** A later bound counts no more entries. */
  lemma {:induction false} CountMonotone(history: seq<int>, early: int, late: int)
    requires early <= late
    ensures CountAfter(history, late) <= CountAfter(history, early)
  {
    if history != [] {
      CountMonotone(history[..|history| - 1], early, late);
    }
  }

  /** Pruning drops a prefix, and every entry of it is at least a day old. */
  lemma {:induction false} PruneSuffix(history: seq<int>, now: int) returns (dropped: nat)
    ensures dropped <= |history| && Prune(history, now) == history[dropped..]
    ensures forall i :: 0 <= i < dropped ==> history[i] <= now - Seconds(Day)
  {
    if history != [] && history[0] <= now - Seconds(Day) {
      var d := PruneSuffix(history[1..], now);
      dropped := d + 1;
      assert forall i :: 1 <= i < dropped ==> history[i] == history[1..][i - 1];
    } else {
      dropped := 0;
    }
  }

  /** On an ordered history pruning keeps exactly the entries younger than a day. */
  lemma PruneExact(history: seq<int>, now: int)
    requires Sorted(history)
    ensures Sorted(Prune(history, now))
    ensures forall i :: 0 <= i < |Prune(history, now)| ==> Prune(history, now)[i] > now - Seconds(Day)
    ensures |Prune(history, now)| == CountAfter(history, now - Seconds(Day))
  {
    var d := PruneSuffix(history, now);
    PruneStops(history, now);
    var kept := Prune(history, now);
    var since := now - Seconds(Day);
    assert history == history[..d] + kept && kept == history[d..];
    CountAppend(history[..d], kept, since);
    CountNone(history[..d], since);
    forall i | 0 <= i < |kept|
      ensures kept[i] > since
    {
      assert kept[0] == history[d] && kept[i] == history[d + i];
    }
    CountAll(kept, since);
  }

  lemma {:induction false} PruneStops(history: seq<int>, now: int)
    ensures Prune(history, now) != [] ==> Prune(history, now)[0] > now - Seconds(Day)
  {
    if history != [] && history[0] <= now - Seconds(Day) {
      PruneStops(history[1..], now);
    }
  }

  lemma {:induction false} CountAll(history: seq<int>, since: int)
    requires forall i :: 0 <= i < |history| ==> history[i] > since
    ensures CountAfter(history, since) == |history|
  {
    if history != [] {
      CountAll(history[..|history| - 1], since);
    }
  }

  /** Pruning changes no count that any window asks for. */
  lemma PruneKeepsCounts(history: seq<int>, now: int, since: int)
    requires since >= now - Seconds(Day)
    ensures CountAfter(Prune(history, now), since) == CountAfter(history, since)
  {
    var d := PruneSuffix(history, now);
    assert history == history[..d] + history[d..];
    CountAppend(history[..d], history[d..], since);
    CountNone(history[..d], since);
  }

  // ---------------------------------------------------------------- one decision

  /**
    A send is allowed exactly when, were every open reservation logged at this moment, each
    configured window would still have room for one more.
   */
  lemma GrantedIff(a: Account, l: Ledger, now: int)
    ensures Decide(a, l, now).Granted? <==>
              forall w: Window :: Limit(a, w).Some? ==>
                CountAfter(l.history, now - Seconds(w)) + l.inFlight < Limit(a, w).value
  {
    forall w: Window
      ensures Full(a, Pruned(l, now), now, w) <==> Full(a, l, now, w)
    {
      PruneKeepsCounts(l.history, now, now - Seconds(w));
    }
    if Decide(a, l, now).Granted? {
      forall w: Window | Limit(a, w).Some?
        ensures CountAfter(l.history, now - Seconds(w)) + l.inFlight < Limit(a, w).value
      {
        assert !Full(a, Pruned(l, now), now, w);
      }
    } else {
      assert Full(a, l, now, Minute) || Full(a, l, now, Hour) || Full(a, l, now, Day);
    }
  }

  /**
    A refusal names the shortest full window `w`, and the time it proposes is the next multiple
    of that window's length, at most one window away.
   */
  lemma BlockedUntil(a: Account, l: Ledger, now: int) returns (w: Window, k: int)
    requires Decide(a, l, now).Blocked?
    ensures Limit(a, w).Some? && CountAfter(l.history, now - Seconds(w)) + l.inFlight >= Limit(a, w).value
    ensures forall v: Window :: Seconds(v) < Seconds(w) && Limit(a, v).Some? ==>
              CountAfter(l.history, now - Seconds(v)) + l.inFlight < Limit(a, v).value
    ensures now < Decide(a, l, now).until <= now + Seconds(w)
    ensures Decide(a, l, now).until == k * Seconds(w)
    ensures Decide(a, l, now).reject <==> a.limitBehavior == Some("reject")
  {
    forall v: Window
      ensures Full(a, Pruned(l, now), now, v) <==> Full(a, l, now, v)
    {
      PruneKeepsCounts(l.history, now, now - Seconds(v));
    }
    w := if Full(a, l, now, Minute) then Minute else if Full(a, l, now, Hour) then Hour else Day;
    k := now / Seconds(w) + 1;
    BoundaryWithinWindow(now, w);
  }

  lemma BoundaryWithinWindow(now: int, w: Window)
    ensures now < NextBoundary(now, w) <= now + Seconds(w)
  {
    match w
    case Minute =>
    case Hour =>
    case Day =>
  }

  /** The number of sends after a time, without recursion. */
  lemma {:induction false} CountIsNumber(history: seq<int>, since: int)
    ensures CountAfter(history, since) == |set i: nat | i < |history| && history[i] > since|
  {
    if history != [] {
      CountIsNumber(history[..|history| - 1], since);
      LastIsOne(history, since);
    }
  }

  lemma LastIsOne(history: seq<int>, since: int)
    requires history != []
    ensures var n, front := |history| - 1, history[..|history| - 1];
            |set i: nat | i < |history| && history[i] > since|
            == |set i: nat | i < |front| && front[i] > since| + (if history[n] > since then 1 else 0)
  {
    var n, front := |history| - 1, history[..|history| - 1];
    var before := set i: nat | i < |front| && front[i] > since;
    var after := set i: nat | i < |history| && history[i] > since;
    if history[n] > since {
      assert after == before + {n};
    } else {
      assert after == before;
    }
  }

  /**
    The decision on the account's columns: granted exactly when each of the three limits, if it is
    set and positive, exceeds the sends of the last minute, hour or day and the open reservations.
   */
  lemma GrantedOnColumns(a: Account, l: Ledger, now: int)
    ensures Decide(a, l, now).Granted? <==>
              && (a.limitPerMinute.Some? && a.limitPerMinute.value > 0 ==>
                    CountAfter(l.history, now - 60) + l.inFlight < a.limitPerMinute.value)
              && (a.limitPerHour.Some? && a.limitPerHour.value > 0 ==>
                    CountAfter(l.history, now - 3600) + l.inFlight < a.limitPerHour.value)
              && (a.limitPerDay.Some? && a.limitPerDay.value > 0 ==>
                    CountAfter(l.history, now - 86400) + l.inFlight < a.limitPerDay.value)
  {
    GrantedIff(a, l, now);
    assert Seconds(Minute) == 60 && Seconds(Hour) == 3600 && Seconds(Day) == 86400;
    assert Limit(a, Minute) == Limit(a, Minute) && Limit(a, Hour) == Limit(a, Hour) && Limit(a, Day) == Limit(a, Day);
  }

  /**
    A refusal on the columns: the limit per minute is looked at first, then the one per hour; the
    time proposed is the next full minute, hour or day after now.
   */
  lemma BlockedOnColumns(a: Account, l: Ledger, now: int)
    requires Decide(a, l, now).Blocked?
    ensures Decide(a, l, now).reject <==> a.limitBehavior == Some("reject")
    ensures var minuteFull := a.limitPerMinute.Some? && a.limitPerMinute.value > 0
                              && CountAfter(l.history, now - 60) + l.inFlight >= a.limitPerMinute.value;
            var hourFull := a.limitPerHour.Some? && a.limitPerHour.value > 0
                            && CountAfter(l.history, now - 3600) + l.inFlight >= a.limitPerHour.value;
            Decide(a, l, now).until == if minuteFull then (now / 60 + 1) * 60
                                       else if hourFull then (now / 3600 + 1) * 3600
                                       else (now / 86400 + 1) * 86400
  {
    PruneKeepsCounts(l.history, now, now - 60);
    PruneKeepsCounts(l.history, now, now - 3600);
    PruneKeepsCounts(l.history, now, now - 86400);
  }

  /**
    What a check leaves, on the columns: for an account with a positive limit, the sends of the last
    day, and one reservation more if it was granted; for any other, what there was.
   */
  lemma CheckedOnColumns(a: Account, l: Ledger, now: int)
    requires Sorted(l.history)
    ensures var l' := AfterCheck(a, l, now);
            var limited := (a.limitPerMinute.Some? && a.limitPerMinute.value > 0)
                           || (a.limitPerHour.Some? && a.limitPerHour.value > 0)
                           || (a.limitPerDay.Some? && a.limitPerDay.value > 0);
            && (!limited ==> l' == l && Decide(a, l, now).Granted?)
            && (limited ==> l'.inFlight == l.inFlight + (if Decide(a, l, now).Granted? then 1 else 0))
            && (limited ==> exists n: nat :: n <= |l.history| && l'.history == l.history[n..]
                              && (forall i :: 0 <= i < |l.history| ==> (i < n <==> l.history[i] <= now - 86400)))
  {
    var n := PruneSuffix(l.history, now);
    PruneExact(l.history, now);
    forall i | n <= i < |l.history|
      ensures l.history[i] > now - 86400
    {
      assert Prune(l.history, now)[i - n] == l.history[i];
    }
  }

  /**
    The proposed time is not always one at which the message may go: with one send allowed a
    minute and a send logged at second 59, a check at second 59 proposes second 60, where the
    same check is refused again.
   */
  lemma DeferralCanBeRefusedAgain()
    ensures var a := Account("acc", Some(1), None, None, None);
            var l := Ledger([59], 0);
            Decide(a, l, 59) == Blocked(60, false) && Decide(a, l, 60) == Blocked(120, false)
  {
    var a := Account("acc", Some(1), None, None, None);
    var l := Ledger([59], 0);
    assert CountAfter([59][..0], -1) == 0 && CountAfter([59][..0], 0) == 0;
    assert CountAfter([59], -1) == 1 && CountAfter([59], 0) == 1;
    assert Prune([59], 59) == [59] && Prune([59], 60) == [59];
  }

  /**
    Exactly when a refused account may send at the proposed time, nothing having been settled
    meanwhile: in every configured window that ends then, the sends already logged leave room
    beside the open reservations.  For the window `w` that refused, those are the sends since the
    current calendar window began.
   */
  lemma RetryGrantedIff(a: Account, l: Ledger, now: int) returns (w: Window)
    requires Decide(a, l, now).Blocked?
    ensures var until := Decide(a, l, now).until;
            && Limit(a, w).Some? && until - Seconds(w) == now / Seconds(w) * Seconds(w)
            && (Decide(a, AfterCheck(a, l, now), until).Granted? <==>
                  forall v: Window :: Limit(a, v).Some? ==>
                    CountAfter(l.history, until - Seconds(v)) + l.inFlight < Limit(a, v).value)
  {
    var until := Decide(a, l, now).until;
    var k: int;
    w, k := BlockedUntil(a, l, now);
    RefusingWindow(a, l, now, w);
    GrantedIff(a, AfterCheck(a, l, now), until);
    forall v: Window
      ensures CountAfter(AfterCheck(a, l, now).history, until - Seconds(v)) == CountAfter(l.history, until - Seconds(v))
    {
      PruneKeepsCounts(l.history, now, until - Seconds(v));
    }
  }

  lemma RefusingWindow(a: Account, l: Ledger, now: int, w: Window)
    requires Decide(a, l, now).Blocked? && Decide(a, l, now).until <= now + Seconds(w)
    requires Full(a, l, now, w)
    requires forall v: Window :: Seconds(v) < Seconds(w) ==> !Full(a, l, now, v)
    ensures Decide(a, l, now).until - Seconds(w) == now / Seconds(w) * Seconds(w)
  {
    forall v: Window
      ensures Full(a, Pruned(l, now), now, v) <==> Full(a, l, now, v)
    {
      PruneKeepsCounts(l.history, now, now - Seconds(v));
    }
    match w
    case Minute =>
    case Hour =>
    case Day =>
  }

  /** A grant that is released again leaves the decision of that moment as it was. */
  lemma ReleasedGrantRepeats(a: Account, l: Ledger, now: int)
    requires Limited(a) && l.inFlight >= 0 && Decide(a, l, now).Granted?
    ensures Decide(a, AfterRelease(AfterCheck(a, l, now)), now).Granted?
  {
    var l' := AfterRelease(AfterCheck(a, l, now));
    GrantedIff(a, l, now);
    forall w: Window | Limit(a, w).Some?
      ensures CountAfter(l'.history, now - Seconds(w)) + l'.inFlight < Limit(a, w).value
    {
      PruneKeepsCounts(l.history, now, now - Seconds(w));
    }
    GrantedIff(a, l', now);
  }

  // ---------------------------------------------------------------- runs

  /** What can happen to one account id.  A settlement is a `Log` or a `Release`. */
  datatype Op = Check(now: int) | Log(now: int) | Release

  /**
    A ledger together with what no code stores: every send ever logged, the reservations granted
    and not yet settled, and the latest time seen.
   */
  datatype Book = Book(ledger: Ledger, full: seq<int>, open: nat, clock: int)

  /** The clock does not run backwards, and only a granted reservation is settled, once. */
  predicate Allowed(b: Book, op: Op) {
    match op
    case Check(now) => b.clock <= now
    case Log(now) => b.clock <= now && b.open > 0
    case Release => b.open > 0
  }

  function Apply(a: Account, b: Book, op: Op): Book {
    match op
    case Check(now) =>
      Book(AfterCheck(a, b.ledger, now), b.full,
           if Decide(a, b.ledger, now).Granted? then b.open + 1 else b.open, now)
    case Log(now) => Book(AfterLog(b.ledger, now), b.full + [now], Settled(b.open), now)
    case Release => Book(AfterRelease(b.ledger), b.full, Settled(b.open), b.clock)
  }

  function Settled(open: nat): nat {
    if open > 0 then open - 1 else 0
  }

  predicate Legal(a: Account, b: Book, trace: seq<Op>)
    decreases |trace|
  {
    trace == [] || (Allowed(b, trace[0]) && Legal(a, Apply(a, b, trace[0]), trace[1..]))
  }

  function Run(a: Account, b: Book, trace: seq<Op>): Book
    decreases |trace|
  {
    if trace == [] then b else Run(a, Apply(a, b, trace[0]), trace[1..])
  }

  function Opening(clock: int): Book {
    Book(Ledger([], 0), [], 0, clock)
  }

  /** The stored history is the full one without a prefix that is at least a day old. */
  predicate StoresRecent(l: Ledger, full: seq<int>, clock: int) {
    && |l.history| <= |full|
    && l.history == full[|full| - |l.history|..]
    && forall i :: 0 <= i < |full| - |l.history| ==> full[i] <= clock - Seconds(Day)
  }

  /** Room is left in window `w` for every open reservation. */
  predicate HasRoom(a: Account, b: Book, w: Window) {
    Limit(a, w).Some? ==> CountAfter(b.full, b.clock - Seconds(w)) + b.open <= Limit(a, w).value
  }

  /** Each send, at the moment it was logged, kept window `w` within its limit. */
  predicate EachSendFitted(a: Account, full: seq<int>, w: Window) {
    Limit(a, w).Some? ==>
      forall k :: 0 < k <= |full| ==> CountAfter(full[..k], full[k - 1] - Seconds(w)) <= Limit(a, w).value
  }

  ghost predicate Consistent(a: Account, b: Book) {
    && Sorted(b.full)
    && (forall i :: 0 <= i < |b.full| ==> b.full[i] <= b.clock)
    && StoresRecent(b.ledger, b.full, b.clock)
    && (Limited(a) ==> b.ledger.inFlight == b.open)
    && WithinLimits(a, b)
  }

  ghost predicate WithinLimits(a: Account, b: Book) {
    forall w: Window :: HasRoom(a, b, w) && EachSendFitted(a, b.full, w)
  }

  lemma OpeningConsistent(a: Account, clock: int)
    ensures Consistent(a, Opening(clock))
  {
    forall w: Window
      ensures HasRoom(a, Opening(clock), w) && EachSendFitted(a, [], w)
    {
      LimitPositive(a, w);
    }
  }

  lemma LimitPositive(a: Account, w: Window)
    ensures Limit(a, w).Some? ==> Limit(a, w).value > 0
  {
  }

  lemma RecentCounts(l: Ledger, full: seq<int>, clock: int, since: int)
    requires StoresRecent(l, full, clock) && since >= clock - Seconds(Day)
    ensures CountAfter(l.history, since) == CountAfter(full, since)
  {
    var d := |full| - |l.history|;
    assert full == full[..d] + full[d..];
    CountAppend(full[..d], full[d..], since);
    CountNone(full[..d], since);
  }

  lemma CheckStoresRecent(a: Account, b: Book, now: int)
    requires StoresRecent(b.ledger, b.full, b.clock) && b.clock <= now
    ensures StoresRecent(AfterCheck(a, b.ledger, now), b.full, now)
  {
    var n := |b.full| - |b.ledger.history|;
    var d := PruneSuffix(b.ledger.history, now);
    assert b.full[n..][d..] == b.full[n + d..];
    forall i | 0 <= i < n + d
      ensures b.full[i] <= now - Seconds(Day)
    {
      if i >= n {
        assert b.full[i] == b.ledger.history[i - n];
      }
    }
  }

  lemma GrantLeavesRoom(a: Account, l: Ledger, full: seq<int>, clock: int, now: int, w: Window)
    requires StoresRecent(l, full, clock) && clock <= now
    requires Limit(a, w).Some? && Decide(a, l, now).Granted?
    ensures CountAfter(full, now - Seconds(w)) + l.inFlight < Limit(a, w).value
  {
    StillRecent(l, full, clock, now);
    RecentCounts(l, full, now, now - Seconds(w));
    GrantedIff(a, l, now);
  }

  lemma CheckKeepsRoom(a: Account, b: Book, now: int, w: Window)
    requires StoresRecent(b.ledger, b.full, b.clock) && b.clock <= now
    requires Limited(a) ==> b.ledger.inFlight == b.open
    requires HasRoom(a, b, w)
    ensures HasRoom(a, Apply(a, b, Check(now)), w)
  {
    if Limit(a, w).Some? {
      CountMonotone(b.full, b.clock - Seconds(w), now - Seconds(w));
      if Decide(a, b.ledger, now).Granted? {
        GrantLeavesRoom(a, b.ledger, b.full, b.clock, now, w);
      }
    }
  }

  lemma CheckConsistent(a: Account, b: Book, now: int)
    requires Consistent(a, b) && Allowed(b, Check(now))
    ensures Consistent(a, Apply(a, b, Check(now)))
  {
    CheckStoresRecent(a, b, now);
    forall w: Window
      ensures HasRoom(a, Apply(a, b, Check(now)), w)
    {
      CheckKeepsRoom(a, b, now, w);
    }
  }

  lemma StillRecent(l: Ledger, full: seq<int>, clock: int, now: int)
    requires StoresRecent(l, full, clock) && clock <= now
    ensures StoresRecent(l, full, now)
  {
  }

  lemma LogKeepsRoom(a: Account, b: Book, now: int, w: Window)
    requires b.clock <= now && b.open > 0 && HasRoom(a, b, w)
    ensures HasRoom(a, Apply(a, b, Log(now)), w)
  {
    CountMonotone(b.full, b.clock - Seconds(w), now - Seconds(w));
    CountAppend(b.full, [now], now - Seconds(w));
    assert CountAfter([now], now - Seconds(w)) == 1;
  }

  lemma LogKeepsFit(a: Account, full: seq<int>, now: int, w: Window)
    requires EachSendFitted(a, full, w)
    requires Limit(a, w).Some? ==> CountAfter(full + [now], now - Seconds(w)) <= Limit(a, w).value
    ensures EachSendFitted(a, full + [now], w)
  {
    var full' := full + [now];
    forall k | Limit(a, w).Some? && 0 < k <= |full'|
      ensures CountAfter(full'[..k], full'[k - 1] - Seconds(w)) <= Limit(a, w).value
    {
      assert full'[..k] == if k <= |full| then full[..k] else full';
    }
  }

  lemma LogStoresRecent(l: Ledger, full: seq<int>, clock: int, now: int)
    requires StoresRecent(l, full, clock) && clock <= now
    ensures StoresRecent(AfterLog(l, now), full + [now], now)
  {
    assert (full + [now])[|full| - |l.history|..] == full[|full| - |l.history|..] + [now];
  }

  lemma SortedAppend(full: seq<int>, now: int)
    requires Sorted(full) && forall i :: 0 <= i < |full| ==> full[i] <= now
    ensures Sorted(full + [now]) && forall i :: 0 <= i < |full + [now]| ==> (full + [now])[i] <= now
  {
  }

  lemma LogWithinLimits(a: Account, b: Book, now: int)
    requires b.clock <= now && b.open > 0 && WithinLimits(a, b)
    ensures WithinLimits(a, Apply(a, b, Log(now)))
  {
    var b' := Apply(a, b, Log(now));
    forall w: Window
      ensures HasRoom(a, b', w) && EachSendFitted(a, b'.full, w)
    {
      assert HasRoom(a, b, w) && EachSendFitted(a, b.full, w);
      LogKeepsRoom(a, b, now, w);
      LogKeepsFit(a, b.full, now, w);
    }
  }

  lemma LogConsistent(a: Account, b: Book, now: int)
    requires Consistent(a, b) && Allowed(b, Log(now))
    ensures Consistent(a, Apply(a, b, Log(now)))
  {
    SortedAppend(b.full, now);
    LogStoresRecent(b.ledger, b.full, b.clock, now);
    LogWithinLimits(a, b, now);
  }

  lemma ReleaseConsistent(a: Account, b: Book)
    requires Consistent(a, b) && Allowed(b, Release)
    ensures Consistent(a, Apply(a, b, Release))
  {
    var b' := Apply(a, b, Release);
    forall w: Window
      ensures HasRoom(a, b', w) && EachSendFitted(a, b'.full, w)
    {
      assert HasRoom(a, b, w) && EachSendFitted(a, b.full, w);
    }
  }

  /** Every operation keeps count + in-flight within every configured limit. */
  lemma StepConsistent(a: Account, b: Book, op: Op)
    requires Consistent(a, b) && Allowed(b, op)
    ensures Consistent(a, Apply(a, b, op))
  {
    match op
    case Check(now) => CheckConsistent(a, b, now);
    case Log(now) => LogConsistent(a, b, now);
    case Release => ReleaseConsistent(a, b);
  }

  lemma {:induction false} RunConsistent(a: Account, b: Book, trace: seq<Op>)
    requires Consistent(a, b) && Legal(a, b, trace)
    ensures Consistent(a, Run(a, b, trace))
    decreases |trace|
  {
    if trace != [] {
      StepConsistent(a, b, trace[0]);
      RunConsistent(a, Apply(a, b, trace[0]), trace[1..]);
    }
  }

  /** The number of sends logged in the half-open interval (t - W, t]. */
  function SendsInWindow(full: seq<int>, t: int, w: Window): int {
    CountAfter(full, t - Seconds(w)) - CountAfter(full, t)
  }

  /** When each send fitted, no interval of a window's length ever holds more sends than its limit. */
  lemma WindowBound(a: Account, full: seq<int>, w: Window, t: int)
    requires Sorted(full) && EachSendFitted(a, full, w) && Limit(a, w).Some?
    ensures 0 <= SendsInWindow(full, t, w) <= Limit(a, w).value
  {
    var k := UpTo(full, t);
    CountSplit(full, t, t, k);
    CountSplit(full, t - Seconds(w), t, k);
    CountNone(full[..k], t);
    if k > 0 {
      CountMonotone(full[..k], full[k - 1] - Seconds(w), t - Seconds(w));
    }
  }

  /** Entries from `k` on lie after `t`, so they count for every bound up to `t`. */
  lemma CountSplit(full: seq<int>, since: int, t: int, k: nat)
    requires k <= |full| && since <= t
    requires forall i :: k <= i < |full| ==> full[i] > t
    ensures CountAfter(full, since) == CountAfter(full[..k], since) + (|full| - k)
  {
    assert full == full[..k] + full[k..];
    CountAppend(full[..k], full[k..], since);
    CountAll(full[k..], since);
  }

  /** Where an ordered history passes time `t`. */
  lemma {:induction false} UpTo(full: seq<int>, t: int) returns (k: nat)
    requires Sorted(full)
    ensures k <= |full|
    ensures forall i :: 0 <= i < k ==> full[i] <= t
    ensures forall i :: k <= i < |full| ==> full[i] > t
  {
    if full == [] || full[|full| - 1] <= t {
      k := |full|;
    } else {
      k := UpTo(full[..|full| - 1], t);
    }
  }

  /**
    Safety over whole runs: however sends overlap and however much is pruned, at every time and
    for every configured window the logged sends stay within the limit.
   */
  lemma RateLimitNeverExceeded(a: Account, start: int, trace: seq<Op>, w: Window, t: int)
    requires Legal(a, Opening(start), trace) && Limit(a, w).Some?
    ensures SendsInWindow(Run(a, Opening(start), trace).full, t, w) <= Limit(a, w).value
  {
    OpeningConsistent(a, start);
    RunConsistent(a, Opening(start), trace);
    WindowBound(a, Run(a, Opening(start), trace).full, w, t);
  }

  /** The bound on the columns: in any minute, hour or day the logged sends stay within the limit set for it. */
  lemma ColumnsNeverExceeded(a: Account, start: int, trace: seq<Op>, t: int)
    requires Legal(a, Opening(start), trace)
    ensures var sends := Run(a, Opening(start), trace).full;
            && (a.limitPerMinute.Some? && a.limitPerMinute.value > 0 ==>
                  CountAfter(sends, t - 60) - CountAfter(sends, t) <= a.limitPerMinute.value)
            && (a.limitPerHour.Some? && a.limitPerHour.value > 0 ==>
                  CountAfter(sends, t - 3600) - CountAfter(sends, t) <= a.limitPerHour.value)
            && (a.limitPerDay.Some? && a.limitPerDay.value > 0 ==>
                  CountAfter(sends, t - 86400) - CountAfter(sends, t) <= a.limitPerDay.value)
  {
    forall w: Window | Limit(a, w).Some?
      ensures SendsInWindow(Run(a, Opening(start), trace).full, t, w) <= Limit(a, w).value
    {
      RateLimitNeverExceeded(a, start, trace, w, t);
    }
    BoundOnColumns(a, Run(a, Opening(start), trace).full, t);
  }

  lemma BoundOnColumns(a: Account, sends: seq<int>, t: int)
    requires forall w: Window :: Limit(a, w).Some? ==> SendsInWindow(sends, t, w) <= Limit(a, w).value
    ensures a.limitPerMinute.Some? && a.limitPerMinute.value > 0 ==>
              CountAfter(sends, t - 60) - CountAfter(sends, t) <= a.limitPerMinute.value
    ensures a.limitPerHour.Some? && a.limitPerHour.value > 0 ==>
              CountAfter(sends, t - 3600) - CountAfter(sends, t) <= a.limitPerHour.value
    ensures a.limitPerDay.Some? && a.limitPerDay.value > 0 ==>
              CountAfter(sends, t - 86400) - CountAfter(sends, t) <= a.limitPerDay.value
  {
    var minute, hour, day := Limit(a, Minute), Limit(a, Hour), Limit(a, Day);
  }

  // ---------------------------------------------------------------- pruning is invisible

  predicate Timed(trace: seq<Op>, clock: int) {
    trace == [] ||
    (match trace[0]
     case Check(now) => clock <= now && Timed(trace[1..], now)
     case Log(now) => clock <= now && Timed(trace[1..], now)
     case Release => Timed(trace[1..], clock))
  }

  /** The answers the limiter gives along a run of calls, disciplined or not. */
  function Answers(a: Account, l: Ledger, trace: seq<Op>): seq<Decision>
    decreases |trace|
  {
    if trace == [] then []
    else match trace[0]
      case Check(now) => [Decide(a, l, now)] + Answers(a, AfterCheck(a, l, now), trace[1..])
      case Log(now) => Answers(a, AfterLog(l, now), trace[1..])
      case Release => Answers(a, AfterRelease(l), trace[1..])
  }

  /** The same for a limiter that never prunes. */
  function AnswersUnpruned(a: Account, l: Ledger, trace: seq<Op>): seq<Decision>
    decreases |trace|
  {
    if trace == [] then []
    else match trace[0]
      case Check(now) =>
        var d := if Limited(a) then DecideOn(a, l, now) else Granted;
        [d] + AnswersUnpruned(a, if Limited(a) && d.Granted? then l.(inFlight := l.inFlight + 1) else l, trace[1..])
      case Log(now) => AnswersUnpruned(a, AfterLog(l, now), trace[1..])
      case Release => AnswersUnpruned(a, AfterRelease(l), trace[1..])
  }

  /** One decision, taken on the pruned and on the whole history. */
  lemma SameDecision(a: Account, l: Ledger, whole: Ledger, now: int)
    requires l.inFlight == whole.inFlight && StoresRecent(l, whole.history, now)
    ensures Decide(a, l, now) == if Limited(a) then DecideOn(a, whole, now) else Granted
  {
    forall w: Window
      ensures Full(a, Pruned(l, now), now, w) <==> Full(a, whole, now, w)
    {
      PruneKeepsCounts(l.history, now, now - Seconds(w));
      RecentCounts(l, whole.history, now, now - Seconds(w));
    }
  }

  lemma {:induction false} PruningInvisible(a: Account, l: Ledger, whole: Ledger, clock: int, trace: seq<Op>)
    requires l.inFlight == whole.inFlight && StoresRecent(l, whole.history, clock) && Timed(trace, clock)
    ensures Answers(a, l, trace) == AnswersUnpruned(a, whole, trace)
    decreases |trace|
  {
    if trace != [] {
      match trace[0]
      case Check(now) =>
        StillRecent(l, whole.history, clock, now);
        SameDecision(a, l, whole, now);
        CheckStoresRecent(a, Book(l, whole.history, 0, clock), now);
        var granted := Limited(a) && DecideOn(a, whole, now).Granted?;
        PruningInvisible(a, AfterCheck(a, l, now),
                         if granted then whole.(inFlight := whole.inFlight + 1) else whole, now, trace[1..]);
      case Log(now) =>
        LogStoresRecent(l, whole.history, clock, now);
        PruningInvisible(a, AfterLog(l, now), AfterLog(whole, now), now, trace[1..]);
      case Release =>
        PruningInvisible(a, AfterRelease(l), AfterRelease(whole), clock, trace[1..]);
    }
  }

  /** From the start, no run of calls can tell a pruning limiter from one that keeps everything. */
  lemma PrunedLimiterEqualsUnpruned(a: Account, start: int, trace: seq<Op>)
    requires Timed(trace, start)
    ensures Answers(a, Ledger([], 0), trace) == AnswersUnpruned(a, Ledger([], 0), trace)
  {
    PruningInvisible(a, Ledger([], 0), Ledger([], 0), start, trace);
  }

  // ---------------------------------------------------------------- the boundary of the guarantee

  /**
    Ledgers are keyed by the account id alone.  When an account limited to one send a minute and
    an unlimited one share an id, the unlimited account's release gives away the other's
    reservation, and two sends of the limited account are logged in one second.
   */
  lemma SharedIdOverrunsLimit()
    ensures var limited := Account("acc", Some(1), None, None, None);
            var unlimited := Account("acc", None, None, None, None);
            var l1 := AfterCheck(limited, Ledger([], 0), 10);
            var l2 := AfterRelease(AfterCheck(unlimited, l1, 10));
            var l3 := AfterCheck(limited, l2, 10);
            && Decide(limited, Ledger([], 0), 10).Granted?
            && Decide(unlimited, l1, 10).Granted?
            && Decide(limited, l2, 10).Granted?
            && SendsInWindow(AfterLog(AfterLog(l3, 10), 10).history, 10, Minute) == 2
  {
    assert [10, 10][..1] == [10] && [10][..0] == [];
    assert CountAfter([10], -50) == 1 && CountAfter([10], 10) == 0;
    assert CountAfter([10, 10], -50) == 2 && CountAfter([10, 10], 10) == 0;
  }
}
