/**
  The in-memory attachment cache (`MemoryCache` in src/core/mail_proxy/smtp/cache.py): an ordered
  dictionary, least recently used entry first, with a byte budget and a time to live.  The clock
  is a parameter of every operation that reads it.
 */
module MemoryCache {
  import opened Options
  import opened Sequences

  datatype Key = Key(md5: string)

  datatype Content = Content(bytes: seq<bv8>)

  datatype Entry = Entry(key: Key, content: Content, stamp: int)

  function Size(v: Content): nat {
    |v.bytes|
  }

  function Total(c: seq<Entry>): nat {
    if c == [] then 0 else Size(c[0].content) + Total(c[1..])
  }

  predicate DistinctKeys(c: seq<Entry>) {
    forall i, j :: 0 <= i < j < |c| ==> c[i].key != c[j].key
  }

  function Find(c: seq<Entry>, k: Key): (at: Option<nat>)
    ensures at.Some? ==> at.value < |c| && c[at.value].key == k
    ensures at.None? ==> forall i :: 0 <= i < |c| ==> c[i].key != k
  {
    if c == [] then None
    else if c[0].key == k then Some(0)
    else
      var at := Find(c[1..], k);
      assert forall i :: 0 < i < |c| ==> c[i] == c[1..][i - 1];
      if at.Some? then Some(at.value + 1) else None
  }

  predicate Present(c: seq<Entry>, k: Key) {
    exists i :: 0 <= i < |c| && c[i].key == k
  }

  predicate AllPresent(c: seq<Entry>, ks: seq<Key>) {
    forall i :: 0 <= i < |ks| ==> Present(c, ks[i])
  }

  /** The entries whose keys are not gone, in their order. */
  function Dropping(c: seq<Entry>, gone: set<Key>): seq<Entry> {
    if c == [] then []
    else
      var n := |c| - 1;
      Dropping(c[..n], gone) + (if c[n].key in gone then [] else [c[n]])
  }

  predicate Expired(e: Entry, now: int, ttl: int) {
    now - e.stamp > ttl
  }

  function ExpiredKeys(c: seq<Entry>, now: int, ttl: int): set<Key> {
    set i | 0 <= i < |c| && Expired(c[i], now, ttl) :: c[i].key
  }

  // ---------------------------------------------------------------- what each operation does

  function Answer(c: seq<Entry>, k: Key, now: int, ttl: int): Option<Content> {
    var at := Find(c, k);
    if at.None? || Expired(c[at.value], now, ttl) then None else Some(c[at.value].content)
  }

  /** A hit moves the entry to the end and keeps its stamp; an expired entry is removed. */
  function AfterGet(c: seq<Entry>, k: Key, now: int, ttl: int): seq<Entry> {
    var at := Find(c, k);
    if at.None? then c
    else if Expired(c[at.value], now, ttl) then Dropping(c, {k})
    else Dropping(c, {k}) + [c[at.value]]
  }

  function Evict(c: seq<Entry>, need: nat, max: int): seq<Entry> {
    if Total(c) + need > max && c != [] then Evict(c[1..], need, max) else c
  }

  function AfterSet(c: seq<Entry>, k: Key, v: Content, now: int, max: int): seq<Entry> {
    if Size(v) > max then c
    else Evict(Dropping(c, {k}), Size(v), max) + [Entry(k, v, now)]
  }

  function AfterCleanup(c: seq<Entry>, now: int, ttl: int): seq<Entry> {
    Dropping(c, ExpiredKeys(c, now, ttl))
  }

  // ---------------------------------------------------------------- the class

  class MemoryCache {
    const maxBytes: int
    const ttl: int
    var cache: seq<Entry>
    var currentBytes: int

    /** The byte counter is exact and within the budget. */
    predicate Valid()
      reads this
    {
      && DistinctKeys(cache)
      && currentBytes == Total(cache)
      && (cache != [] ==> currentBytes <= maxBytes)
    }

    constructor (maxBytes: int, ttl: int)
      ensures this.maxBytes == maxBytes && this.ttl == ttl && Valid() && cache == []
    {
      this.maxBytes, this.ttl := maxBytes, ttl;
      cache, currentBytes := [], 0;
    }

    method Get(k: Key, now: int) returns (r: Option<Content>)
      requires Valid()
      modifies this
      ensures Valid()
      ensures r == Answer(old(cache), k, now, ttl)
      ensures cache == AfterGet(old(cache), k, now, ttl)
    {
      var at := Find(cache, k);
      if at.None? {
        return None;
      }
      var i := at.value;
      var e := cache[i];
      DropOne(cache, i);
      if now - e.stamp > ttl {
        Remove(k);
        return None;
      }
      MovedToEnd(cache, i);
      cache := cache[..i] + cache[i + 1..] + [e];
      return Some(e.content);
    }

    method Set(k: Key, v: Content, now: int)
      requires Valid()
      modifies this
      ensures Valid()
      ensures cache == AfterSet(old(cache), k, v, now, maxBytes)
    {
      if Size(v) > maxBytes {
        return;
      }
      if Find(cache, k).Some? {
        Remove(k);
      } else {
        DropNothing(cache, {k});
      }
      MakeRoom(k, Size(v));
      TotalAppend(cache, [Entry(k, v, now)]);
      cache := cache + [Entry(k, v, now)];
      currentBytes := currentBytes + Size(v);
    }

    /** The eviction loop; `k` is the key about to be stored, already removed. */
    method MakeRoom(ghost k: Key, need: nat)
      requires Valid() && NoneOf(cache, {k})
      modifies this
      ensures Valid() && NoneOf(cache, {k})
      ensures cache == Evict(old(cache), need, maxBytes)
      ensures currentBytes + need <= maxBytes || cache == []
    {
      while currentBytes + need > maxBytes && cache != []
        invariant Valid() && NoneOf(cache, {k})
        invariant Evict(cache, need, maxBytes) == Evict(old(cache), need, maxBytes)
        decreases |cache|
      {
        DropOne(cache, 0);
        assert cache[..0] + cache[1..] == cache[1..];
        Remove(cache[0].key);
      }
    }

    method Remove(k: Key)
      requires Valid()
      modifies this
      ensures Valid()
      ensures cache == Dropping(old(cache), {k}) && NoneOf(cache, {k})
    {
      var at := Find(cache, k);
      if at.None? {
        DropNothing(cache, {k});
        return;
      }
      var i := at.value;
      RemovedAt(cache, i);
      currentBytes := currentBytes - Size(cache[i].content);
      cache := cache[..i] + cache[i + 1..];
    }

    method Clear()
      modifies this
      ensures Valid() && cache == []
    {
      cache, currentBytes := [], 0;
    }

    method CleanupExpired(now: int) returns (removed: nat)
      requires Valid()
      modifies this
      ensures Valid()
      ensures cache == AfterCleanup(old(cache), now, ttl)
      ensures removed == |old(cache)| - |cache|
    {
      var expired := ListExpired(now);
      RemoveEachSpec(cache, expired);
      RemoveAll(expired);
      removed := |expired|;
    }

    method ListExpired(now: int) returns (expired: seq<Key>)
      requires Valid()
      ensures Elements(expired) == ExpiredKeys(cache, now, ttl) && Distinct(expired) && AllPresent(cache, expired)
    {
      expired := [];
      for i := 0 to |cache|
        invariant Elements(expired) == ExpiredKeys(cache[..i], now, ttl)
        invariant Distinct(expired) && AllPresent(cache, expired)
      {
        ExpiredStep(cache, i, now, ttl);
        if now - cache[i].stamp > ttl {
          assert cache[i].key !in Elements(expired) && Present(cache, cache[i].key);
          expired := expired + [cache[i].key];
        }
      }
      assert cache[..|cache|] == cache;
    }

    method RemoveAll(keys: seq<Key>)
      requires Valid()
      modifies this
      ensures Valid()
      ensures cache == RemoveEach(old(cache), keys)
    {
      for i := 0 to |keys|
        invariant Valid()
        invariant RemoveEach(cache, keys[i..]) == RemoveEach(old(cache), keys)
      {
        assert keys[i..][1..] == keys[i + 1..];
        Remove(keys[i]);
      }
    }
  }

  // ---------------------------------------------------------------- lists

  lemma {:induction false} TotalAppend(a: seq<Entry>, b: seq<Entry>)
    ensures Total(a + b) == Total(a) + Total(b)
  {
    if a == [] {
      assert a + b == b;
    } else {
      assert (a + b)[1..] == a[1..] + b;
      TotalAppend(a[1..], b);
    }
  }

  lemma MovedToEnd(c: seq<Entry>, i: nat)
    requires DistinctKeys(c) && i < |c|
    ensures var moved := c[..i] + c[i + 1..] + [c[i]];
            DistinctKeys(moved) && Total(moved) == Total(c)
  {
    TotalSplit(c, i);
    TotalAppend(c[..i] + c[i + 1..], [c[i]]);
    TotalAppend(c[..i], c[i + 1..]);
  }

  lemma TotalSplit(c: seq<Entry>, i: nat)
    requires i < |c|
    ensures Total(c) == Total(c[..i]) + Size(c[i].content) + Total(c[i + 1..])
  {
    assert c == c[..i] + c[i..];
    TotalAppend(c[..i], c[i..]);
    assert c[i..][1..] == c[i + 1..];
  }

  lemma {:induction false} DropMembers(c: seq<Entry>, gone: set<Key>)
    ensures forall e :: e in Dropping(c, gone) <==> e in c && e.key !in gone
  {
    if c != [] {
      var n := |c| - 1;
      DropMembers(c[..n], gone);
      assert c == c[..n] + [c[n]];
    }
  }

  lemma DropLast(c: seq<Entry>, e: Entry, gone: set<Key>)
    ensures Dropping(c + [e], gone) == Dropping(c, gone) + (if e.key in gone then [] else [e])
  {
    assert (c + [e])[..|c|] == c;
  }

  lemma {:induction false} DropAppend(a: seq<Entry>, b: seq<Entry>, gone: set<Key>)
    ensures Dropping(a + b, gone) == Dropping(a, gone) + Dropping(b, gone)
  {
    if b == [] {
      assert a + b == a;
    } else {
      var n := |b| - 1;
      var init, e := b[..n], b[n];
      DropAppend(a, init, gone);
      DropLast(a + init, e, gone);
      assert a + b == (a + init) + [e];
      assert Dropping(b, gone) == Dropping(init, gone) + (if e.key in gone then [] else [e]);
    }
  }

  predicate NoneOf(c: seq<Entry>, gone: set<Key>) {
    forall i :: 0 <= i < |c| ==> c[i].key !in gone
  }

  lemma {:induction false} DropNothing(c: seq<Entry>, gone: set<Key>)
    requires NoneOf(c, gone)
    ensures Dropping(c, gone) == c
  {
    if c != [] {
      DropNothing(c[..|c| - 1], gone);
    }
  }

  lemma DropEmpty(c: seq<Entry>)
    ensures Dropping(c, {}) == c
  {
    DropNothing(c, {});
  }

  lemma DropMiddle(a: seq<Entry>, e: Entry, b: seq<Entry>)
    requires NoneOf(a, {e.key}) && NoneOf(b, {e.key})
    ensures Dropping(a + [e] + b, {e.key}) == a + b
  {
    DropAppend(a + [e], b, {e.key});
    DropLast(a, e, {e.key});
    DropNothing(a, {e.key});
    DropNothing(b, {e.key});
  }

  lemma KeyOnlyAt(c: seq<Entry>, i: nat)
    requires i < |c| && DistinctKeys(c)
    ensures NoneOf(c[..i], {c[i].key}) && NoneOf(c[i + 1..], {c[i].key})
  {
  }

  lemma SplitAt(c: seq<Entry>, i: nat)
    requires i < |c|
    ensures c == c[..i] + [c[i]] + c[i + 1..]
  {
  }

  lemma DropOne(c: seq<Entry>, i: nat)
    requires i < |c| && DistinctKeys(c)
    ensures Dropping(c, {c[i].key}) == c[..i] + c[i + 1..]
  {
    KeyOnlyAt(c, i);
    SplitAt(c, i);
    DropMiddle(c[..i], c[i], c[i + 1..]);
  }

  lemma RemovedAt(c: seq<Entry>, i: nat)
    requires i < |c| && DistinctKeys(c)
    ensures Dropping(c, {c[i].key}) == c[..i] + c[i + 1..]
    ensures Total(c[..i] + c[i + 1..]) == Total(c) - Size(c[i].content)
    ensures DistinctKeys(c[..i] + c[i + 1..]) && NoneOf(c[..i] + c[i + 1..], {c[i].key})
  {
    DropOne(c, i);
    TotalSplit(c, i);
    TotalAppend(c[..i], c[i + 1..]);
    KeyOnlyAt(c, i);
  }

  lemma {:induction false} DropTwice(c: seq<Entry>, a: set<Key>, b: set<Key>)
    ensures Dropping(Dropping(c, a), b) == Dropping(c, a + b)
  {
    if c != [] {
      var n := |c| - 1;
      DropTwice(c[..n], a, b);
      if c[n].key !in a {
        DropLast(Dropping(c[..n], a), c[n], b);
      } else {
        assert Dropping(c, a) == Dropping(c[..n], a);
      }
    }
  }

  lemma StillThere(c: seq<Entry>, gone: set<Key>, k: Key)
    requires k !in gone && Present(c, k)
    ensures Find(Dropping(c, gone), k).Some?
  {
    DropMembers(c, gone);
    var i :| 0 <= i < |c| && c[i].key == k;
    assert c[i] in Dropping(c, gone);
  }

  function RemoveEach(c: seq<Entry>, ks: seq<Key>): seq<Entry>
    decreases ks
  {
    if ks == [] then c else RemoveEach(Dropping(c, {ks[0]}), ks[1..])
  }

  /** Removing different present keys one by one drops them all, one entry each. */
  lemma {:induction false} RemoveEachSpec(c: seq<Entry>, ks: seq<Key>)
    requires DistinctKeys(c) && Distinct(ks) && AllPresent(c, ks)
    ensures RemoveEach(c, ks) == Dropping(c, Elements(ks))
    ensures |RemoveEach(c, ks)| == |c| - |ks|
    decreases ks
  {
    if ks == [] {
      DropEmpty(c);
      assert Elements(ks) == {};
    } else {
      RemoveFirst(c, ks);
      RemoveEachSpec(Dropping(c, {ks[0]}), ks[1..]);
    }
  }

  lemma RemoveFirst(c: seq<Entry>, ks: seq<Key>)
    requires ks != [] && DistinctKeys(c) && Distinct(ks) && AllPresent(c, ks)
    ensures var rest := Dropping(c, {ks[0]});
            && DistinctKeys(rest) && Distinct(ks[1..]) && AllPresent(rest, ks[1..])
            && |rest| == |c| - 1
            && Dropping(rest, Elements(ks[1..])) == Dropping(c, Elements(ks))
  {
    var k := ks[0];
    assert Present(c, k);
    DropOne(c, Find(c, k).value);
    DropKeepsDistinct(c, {k});
    forall i | 0 <= i < |ks[1..]|
      ensures Present(Dropping(c, {k}), ks[1..][i])
    {
      assert Present(c, ks[i + 1]);
      StillThere(c, {k}, ks[i + 1]);
    }
    DropTwice(c, {k}, Elements(ks[1..]));
    assert Elements(ks) == {k} + Elements(ks[1..]);
  }

  lemma ExpiredStep(c: seq<Entry>, i: nat, now: int, ttl: int)
    requires i < |c| && DistinctKeys(c)
    ensures ExpiredKeys(c[..i + 1], now, ttl)
         == ExpiredKeys(c[..i], now, ttl) + (if Expired(c[i], now, ttl) then {c[i].key} else {})
    ensures c[i].key !in ExpiredKeys(c[..i], now, ttl)
  {
    forall k | k in ExpiredKeys(c[..i], now, ttl)
      ensures k in ExpiredKeys(c[..i + 1], now, ttl)
    {
      var j :| 0 <= j < |c[..i]| && Expired(c[..i][j], now, ttl) && c[..i][j].key == k;
      assert c[..i + 1][j] == c[..i][j];
    }
    if Expired(c[i], now, ttl) {
      assert c[..i + 1][i] == c[i];
    }
  }

  // ---------------------------------------------------------------- eviction

  /**
    An entry survives an eviction exactly when it, everything used more recently, and the new
    content fit the budget together; so what is removed is the shortest least recent prefix that
    makes room.
   */
  lemma {:induction false} EvictionExact(c: seq<Entry>, need: nat, max: int) returns (n: nat)
    requires need <= max
    ensures n <= |c| && Evict(c, need, max) == c[n..]
    ensures forall i :: 0 <= i < |c| ==> (i >= n <==> Total(c[i..]) + need <= max)
    ensures Total(Evict(c, need, max)) + need <= max
  {
    if Total(c) + need > max && c != [] {
      var m := EvictionExact(c[1..], need, max);
      n := m + 1;
      forall i | 0 <= i < |c|
        ensures i >= n <==> Total(c[i..]) + need <= max
      {
        if i == 0 {
          assert c[0..] == c;
        } else {
          assert c[i..] == c[1..][i - 1..];
        }
      }
    } else {
      n := 0;
      forall i | 0 <= i < |c|
        ensures Total(c[i..]) + need <= max
      {
        assert c == c[..i] + c[i..];
        TotalAppend(c[..i], c[i..]);
      }
    }
  }

  // ---------------------------------------------------------------- runs

  datatype Op =
    | Get(key: Key, now: int)
    | Set(key: Key, content: Content, now: int)
    | Clear
    | Cleanup(now: int)

  function Apply(c: seq<Entry>, op: Op, max: int, ttl: int): seq<Entry> {
    match op
    case Get(k, now) => AfterGet(c, k, now, ttl)
    case Set(k, v, now) => AfterSet(c, k, v, now, max)
    case Clear => []
    case Cleanup(now) => AfterCleanup(c, now, ttl)
  }

  /** The contents after a run that starts empty. */
  function Replay(ops: seq<Op>, max: int, ttl: int): seq<Entry> {
    if ops == [] then []
    else Apply(Replay(ops[..|ops| - 1], max, ttl), ops[|ops| - 1], max, ttl)
  }

  datatype Stored = Stored(content: Content, stamp: int)

  /** The plain map: the last content set under a key that is not larger than the whole budget. */
  function LastSet(ops: seq<Op>, k: Key, max: int): Option<Stored> {
    if ops == [] then None
    else
      var op := ops[|ops| - 1];
      if op.Set? && op.key == k && Size(op.content) <= max then Some(Stored(op.content, op.now))
      else LastSet(ops[..|ops| - 1], k, max)
  }

  /** An operation uses a key when it stores it or finds it. */
  predicate Uses(c: seq<Entry>, op: Op, k: Key, max: int, ttl: int) {
    match op
    case Get(key, now) => key == k && Answer(c, k, now, ttl).Some?
    case Set(key, v, _) => key == k && Size(v) <= max
    case Clear => false
    case Cleanup(_) => false
  }

  /** When a key was last used, as a place in the run; -1 for never. */
  function LastUse(ops: seq<Op>, k: Key, max: int, ttl: int): (at: int)
    ensures -1 <= at < |ops|
  {
    if ops == [] then -1
    else
      var n := |ops| - 1;
      if Uses(Replay(ops[..n], max, ttl), ops[n], k, max, ttl) then n else LastUse(ops[..n], k, max, ttl)
  }

  // ---------------------------------------------------------------- the invariant of every run

  predicate WithinBudget(c: seq<Entry>, max: int) {
    c != [] ==> Total(c) <= max
  }

  /** The cache's order is the order of last use. */
  predicate InUseOrder(c: seq<Entry>, ops: seq<Op>, max: int, ttl: int) {
    && (forall i :: 0 <= i < |c| ==> LastUse(ops, c[i].key, max, ttl) >= 0)
    && (forall i, j :: 0 <= i < j < |c| ==> LastUse(ops, c[i].key, max, ttl) < LastUse(ops, c[j].key, max, ttl))
  }

  predicate Current(e: Entry, ops: seq<Op>, max: int) {
    LastSet(ops, e.key, max) == Some(Stored(e.content, e.stamp))
  }

  predicate AllCurrent(c: seq<Entry>, ops: seq<Op>, max: int) {
    forall e :: e in c ==> Current(e, ops, max)
  }

  lemma {:induction false} DropTotal(c: seq<Entry>, gone: set<Key>)
    ensures Total(Dropping(c, gone)) <= Total(c)
  {
    if c != [] {
      var n := |c| - 1;
      DropTotal(c[..n], gone);
      assert c == c[..n] + [c[n]];
      TotalAppend(c[..n], [c[n]]);
      TotalAppend(Dropping(c[..n], gone), [c[n]]);
      assert Dropping(c[..n], gone) + [] == Dropping(c[..n], gone);
    }
  }

  lemma BudgetKept(c: seq<Entry>, op: Op, max: int, ttl: int)
    requires WithinBudget(c, max) && DistinctKeys(c)
    ensures WithinBudget(Apply(c, op, max, ttl), max)
  {
    match op
    case Get(k, now) =>
      DropTotal(c, {k});
      DropMembers(c, {k});
      var at := Find(c, k);
      if at.Some? {
        MoveKeepsTotal(c, at.value);
      }
    case Set(k, v, now) =>
      if Size(v) <= max {
        var n := EvictionExact(Dropping(c, {k}), Size(v), max);
        TotalAppend(Evict(Dropping(c, {k}), Size(v), max), [Entry(k, v, now)]);
      }
    case Clear =>
    case Cleanup(now) =>
      DropTotal(c, ExpiredKeys(c, now, ttl));
      DropMembers(c, ExpiredKeys(c, now, ttl));
  }

  lemma MoveKeepsTotal(c: seq<Entry>, i: nat)
    requires i < |c| && DistinctKeys(c)
    ensures Total(Dropping(c, {c[i].key}) + [c[i]]) == Total(c)
  {
    DropOne(c, i);
    TotalSplit(c, i);
    TotalAppend(c[..i] + c[i + 1..], [c[i]]);
    TotalAppend(c[..i], c[i + 1..]);
  }

  lemma {:induction false} DropKeepsDistinct(c: seq<Entry>, gone: set<Key>)
    requires DistinctKeys(c)
    ensures DistinctKeys(Dropping(c, gone))
  {
    if c != [] {
      var n := |c| - 1;
      DropKeepsDistinct(c[..n], gone);
      DropMembers(c[..n], gone);
      forall i | 0 <= i < |Dropping(c[..n], gone)|
        ensures Dropping(c[..n], gone)[i].key != c[n].key
      {
        assert Dropping(c[..n], gone)[i] in c[..n];
      }
    }
  }

  // ---------------------------------------------------------------- order and currency, step by step

  predicate Embeds(kept: seq<Entry>, c: seq<Entry>, at: seq<nat>) {
    && |at| == |kept|
    && (forall i :: 0 <= i < |at| ==> at[i] < |c| && kept[i] == c[at[i]])
    && (forall i, j :: 0 <= i < j < |at| ==> at[i] < at[j])
  }

  lemma EmbedsLonger(kept: seq<Entry>, c: seq<Entry>, at: seq<nat>, e: Entry)
    requires Embeds(kept, c, at)
    ensures Embeds(kept, c + [e], at) && Embeds(kept + [e], c + [e], at + [|c|])
  {
  }

  /** What is left stands in its old order. */
  lemma {:induction false} DropIndices(c: seq<Entry>, gone: set<Key>) returns (at: seq<nat>)
    ensures Embeds(Dropping(c, gone), c, at)
  {
    if c == [] {
      return [];
    }
    var init, e := c[..|c| - 1], c[|c| - 1];
    at := DropIndices(init, gone);
    EmbedsLonger(Dropping(init, gone), init, at, e);
    DropLast(init, e, gone);
    assert init + [e] == c;
    if e.key !in gone {
      at := at + [|init|];
    }
  }

  lemma DropKeepsOrder(c: seq<Entry>, gone: set<Key>, ops: seq<Op>, max: int, ttl: int)
    requires InUseOrder(c, ops, max, ttl)
    ensures InUseOrder(Dropping(c, gone), ops, max, ttl)
  {
    var kept := Dropping(c, gone);
    var at := DropIndices(c, gone);
    forall i | 0 <= i < |kept|
      ensures LastUse(ops, kept[i].key, max, ttl) >= 0
    {
      assert kept[i] == c[at[i]];
    }
    forall i, j | 0 <= i < j < |kept|
      ensures LastUse(ops, kept[i].key, max, ttl) < LastUse(ops, kept[j].key, max, ttl)
    {
      assert kept[i] == c[at[i]] && kept[j] == c[at[j]] && at[i] < at[j];
    }
  }

  /** What the next operation does to the time of last use, and to the map. */
  lemma UseStep(ops: seq<Op>, op: Op, k: Key, max: int, ttl: int)
    ensures LastUse(ops + [op], k, max, ttl)
         == if Uses(Replay(ops, max, ttl), op, k, max, ttl) then |ops| else LastUse(ops, k, max, ttl)
    ensures LastSet(ops + [op], k, max)
         == if op.Set? && op.key == k && Size(op.content) <= max then Some(Stored(op.content, op.now))
            else LastSet(ops, k, max)
  {
    assert (ops + [op])[..|ops|] == ops;
  }

  predicate NoneUsed(c: seq<Entry>, ops: seq<Op>, op: Op, max: int, ttl: int) {
    forall i :: 0 <= i < |c| ==> !Uses(Replay(ops, max, ttl), op, c[i].key, max, ttl)
  }

  /** Entries the operation does not use keep their order, and their place before one it does use. */
  lemma OrderExtends(c: seq<Entry>, ops: seq<Op>, op: Op, max: int, ttl: int)
    requires InUseOrder(c, ops, max, ttl) && NoneUsed(c, ops, op, max, ttl)
    ensures InUseOrder(c, ops + [op], max, ttl)
    ensures forall e: Entry :: Uses(Replay(ops, max, ttl), op, e.key, max, ttl) ==>
        InUseOrder(c + [e], ops + [op], max, ttl)
  {
    forall i | 0 <= i < |c|
      ensures LastUse(ops + [op], c[i].key, max, ttl) == LastUse(ops, c[i].key, max, ttl)
    {
      UseStep(ops, op, c[i].key, max, ttl);
    }
    forall e: Entry | Uses(Replay(ops, max, ttl), op, e.key, max, ttl)
      ensures InUseOrder(c + [e], ops + [op], max, ttl)
    {
      UseStep(ops, op, e.key, max, ttl);
    }
  }

  lemma DropLeavesNone(c: seq<Entry>, k: Key)
    ensures NoneOf(Dropping(c, {k}), {k})
  {
    DropMembers(c, {k});
    forall i | 0 <= i < |Dropping(c, {k})|
      ensures Dropping(c, {k})[i].key != k
    {
      assert Dropping(c, {k})[i] in Dropping(c, {k});
    }
  }

  lemma OrderKept(ops: seq<Op>, op: Op, max: int, ttl: int)
    requires InUseOrder(Replay(ops, max, ttl), ops, max, ttl)
    ensures InUseOrder(Apply(Replay(ops, max, ttl), op, max, ttl), ops + [op], max, ttl)
  {
    var c := Replay(ops, max, ttl);
    match op
    case Get(k, now) =>
      DropKeepsOrder(c, {k}, ops, max, ttl);
      DropLeavesNone(c, k);
      OrderExtends(Dropping(c, {k}), ops, op, max, ttl);
      if Find(c, k).None? {
        OrderExtends(c, ops, op, max, ttl);
      }
    case Set(k, v, now) =>
      DropKeepsOrder(c, {k}, ops, max, ttl);
      DropLeavesNone(c, k);
      if Size(v) <= max {
        var n := EvictionExact(Dropping(c, {k}), Size(v), max);
        OrderExtends(Dropping(c, {k})[n..], ops, op, max, ttl);
      } else {
        OrderExtends(c, ops, op, max, ttl);
      }
    case Clear =>
    case Cleanup(now) =>
      DropKeepsOrder(c, ExpiredKeys(c, now, ttl), ops, max, ttl);
      OrderExtends(Dropping(c, ExpiredKeys(c, now, ttl)), ops, op, max, ttl);
  }

  lemma CurrentExtends(c: seq<Entry>, ops: seq<Op>, op: Op, max: int, ttl: int)
    requires AllCurrent(c, ops, max)
    requires op.Set? && Size(op.content) <= max ==> forall e :: e in c ==> e.key != op.key
    ensures AllCurrent(c, ops + [op], max)
  {
    forall e | e in c
      ensures Current(e, ops + [op], max)
    {
      UseStep(ops, op, e.key, max, ttl);
    }
  }

  lemma CurrentKept(ops: seq<Op>, op: Op, max: int, ttl: int)
    requires AllCurrent(Replay(ops, max, ttl), ops, max)
    ensures AllCurrent(Apply(Replay(ops, max, ttl), op, max, ttl), ops + [op], max)
  {
    var c := Replay(ops, max, ttl);
    match op
    case Get(k, now) =>
      DropMembers(c, {k});
      CurrentExtends(c, ops, op, max, ttl);
    case Set(k, v, now) =>
      var kept := Dropping(c, {k});
      DropMembers(c, {k});
      if Size(v) <= max {
        CurrentExtends(kept, ops, op, max, ttl);
        UseStep(ops, op, k, max, ttl);
        var n := EvictionExact(kept, Size(v), max);
        assert forall e :: e in kept[n..] ==> e in kept;
      } else {
        CurrentExtends(c, ops, op, max, ttl);
      }
    case Clear =>
    case Cleanup(now) =>
      DropMembers(c, ExpiredKeys(c, now, ttl));
      CurrentExtends(c, ops, op, max, ttl);
  }

  /**
    After any run: the budget holds, the entries stand in the order of their last use, and each
    is what the plain map has under its key.
   */
  lemma {:induction false} EveryRunSound(ops: seq<Op>, max: int, ttl: int)
    ensures WithinBudget(Replay(ops, max, ttl), max)
    ensures InUseOrder(Replay(ops, max, ttl), ops, max, ttl)
    ensures AllCurrent(Replay(ops, max, ttl), ops, max)
  {
    if ops != [] {
      var before, op := ops[..|ops| - 1], ops[|ops| - 1];
      EveryRunSound(before, max, ttl);
      assert ops == before + [op];
      OrderedIsDistinct(Replay(before, max, ttl), before, max, ttl);
      BudgetKept(Replay(before, max, ttl), op, max, ttl);
      OrderKept(before, op, max, ttl);
      CurrentKept(before, op, max, ttl);
    }
  }

  lemma OrderedIsDistinct(c: seq<Entry>, ops: seq<Op>, max: int, ttl: int)
    requires InUseOrder(c, ops, max, ttl)
    ensures DistinctKeys(c)
  {
    forall i, j | 0 <= i < j < |c|
      ensures c[i].key != c[j].key
    {
      assert LastUse(ops, c[i].key, max, ttl) < LastUse(ops, c[j].key, max, ttl);
    }
  }

  /**
    The cache refines the plain map: after any run, `get` answers nothing, or the content last set
    under the key by a set that fits the budget, and never one set more than the time to live ago,
    however often it was read since.
   */
  lemma CacheRefinesMap(ops: seq<Op>, max: int, ttl: int, k: Key, now: int)
    ensures var r := Answer(Replay(ops, max, ttl), k, now, ttl);
            r.Some? ==>
              && LastSet(ops, k, max).Some?
              && r.value == LastSet(ops, k, max).value.content
              && now - LastSet(ops, k, max).value.stamp <= ttl
  {
    EveryRunSound(ops, max, ttl);
    var c := Replay(ops, max, ttl);
    var at := Find(c, k);
    if at.Some? {
      assert c[at.value] in c;
    }
  }

  /** Reading back what was just set succeeds exactly when it fits the budget and has not aged out. */
  lemma SetThenGetIff(ops: seq<Op>, max: int, ttl: int, k: Key, v: Content, t: int, now: int)
    requires Answer(Replay(ops, max, ttl), k, now, ttl).None?
    ensures Answer(Replay(ops + [Set(k, v, t)], max, ttl), k, now, ttl).Some? <==> Size(v) <= max && now - t <= ttl
  {
    assert (ops + [Set(k, v, t)])[..|ops|] == ops;
    EveryRunSound(ops + [Set(k, v, t)], max, ttl);
    var c' := Replay(ops + [Set(k, v, t)], max, ttl);
    if Size(v) <= max {
      assert c'[|c'| - 1].key == k;
      OrderedIsDistinct(c', ops + [Set(k, v, t)], max, ttl);
      assert Find(c', k) == Some(|c'| - 1);
    }
  }

  /**
    Why the map needs the size condition: a content larger than the budget is not stored, and the
    older content stays readable under its key.
   */
  lemma OversizedSetLeavesOld(ops: seq<Op>, max: int, ttl: int, k: Key, v: Content, t: int)
    requires Size(v) > max
    ensures Replay(ops + [Set(k, v, t)], max, ttl) == Replay(ops, max, ttl)
  {
    assert (ops + [Set(k, v, t)])[..|ops|] == ops;
  }

  // ---------------------------------------------------------------- what disappears, and when

  /** The entry at `i` and everything used more recently, without the key to be replaced. */
  function NewerFrom(c: seq<Entry>, i: nat, k: Key): nat
    requires i <= |c|
  {
    Total(Dropping(c[i..], {k}))
  }

  lemma DropSplit(c: seq<Entry>, i: nat, gone: set<Key>)
    requires i <= |c|
    ensures Dropping(c, gone) == Dropping(c[..i], gone) + Dropping(c[i..], gone)
  {
    DropAppend(c[..i], c[i..], gone);
    assert c == c[..i] + c[i..];
  }

  lemma DropKeepsFirst(c: seq<Entry>, gone: set<Key>)
    requires c != [] && c[0].key !in gone
    ensures Dropping(c, gone) != [] && Dropping(c, gone)[0] == c[0]
  {
    DropNothing(c[..1], gone);
    DropSplit(c, 1, gone);
  }

  lemma InSuffixIff(c: seq<Entry>, at: nat, n: nat)
    requires at < |c| && n <= |c| && DistinctKeys(c)
    ensures c[at] in c[n..] <==> at >= n
  {
    if at >= n {
      assert c[n..][at - n] == c[at];
    } else {
      forall j | n <= j < |c|
        ensures c[j] != c[at]
      {
        assert c[at].key != c[j].key;
      }
    }
  }

  lemma SetKeepsIff(c: seq<Entry>, i: nat, k: Key, v: Content, now: int, max: int)
    requires i < |c| && DistinctKeys(c) && c[i].key != k && Size(v) <= max
    ensures c[i] in AfterSet(c, k, v, now, max) <==> NewerFrom(c, i, k) + Size(v) <= max
  {
    var kept, at := Dropping(c, {k}), |Dropping(c[..i], {k})|;
    DropSplit(c, i, {k});
    DropKeepsFirst(c[i..], {k});
    DropKeepsDistinct(c, {k});
    assert kept[at] == c[i] && kept[at..] == Dropping(c[i..], {k});
    var n := EvictionExact(kept, Size(v), max);
    InSuffixIff(kept, at, n);
  }

  /**
    When an entry leaves the cache: by a read or a cleanup exactly when it has expired, by a set
    of another key exactly when it and everything used more recently leave too little room.
   */
  lemma EntrySurvivesIff(c: seq<Entry>, i: nat, op: Op, max: int, ttl: int)
    requires i < |c| && DistinctKeys(c) && (op.Set? ==> op.key != c[i].key)
    ensures c[i] in Apply(c, op, max, ttl) <==>
              match op
              case Get(k, now) => k != c[i].key || now - c[i].stamp <= ttl
              case Set(k, v, _) => |v.bytes| > max || NewerFrom(c, i, k) + |v.bytes| <= max
              case Clear => false
              case Cleanup(now) => now - c[i].stamp <= ttl
  {
    match op
    case Get(k, now) =>
      DropMembers(c, {k});
      if k == c[i].key {
        assert Find(c, k) == Some(i);
      }
    case Set(k, v, now) =>
      if Size(v) <= max {
        SetKeepsIff(c, i, k, v, now, max);
      }
    case Clear =>
    case Cleanup(now) =>
      DropMembers(c, ExpiredKeys(c, now, ttl));
      KeyExpiredIff(c, i, now, ttl);
  }

  lemma KeyExpiredIff(c: seq<Entry>, i: nat, now: int, ttl: int)
    requires i < |c| && DistinctKeys(c)
    ensures c[i].key in ExpiredKeys(c, now, ttl) <==> Expired(c[i], now, ttl)
  {
  }

  /** A hit makes its entry the most recent, and leaves the others as they are, in their order. */
  lemma HitIsMostRecent(c: seq<Entry>, k: Key, now: int, ttl: int, i: nat)
    requires DistinctKeys(c) && i < |c| && c[i].key == k && now - c[i].stamp <= ttl
    ensures AfterGet(c, k, now, ttl) == c[..i] + c[i + 1..] + [c[i]] && Answer(c, k, now, ttl) == Some(c[i].content)
  {
    assert Find(c, k) == Some(i);
    DropOne(c, i);
  }
}
