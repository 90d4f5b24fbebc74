/**
  The disk tier of the attachment cache (`DiskCache` in src/core/mail_proxy/smtp/cache.py): one
  file per key, aged by its modification time, kept within a byte budget by deleting the oldest
  files first.  The files stand in the order in which the directories list them; which deletions,
  reads and writes the file system refuses comes from outside.
 */
module DiskCache {
  import opened Options
  import opened CachePath
  import M = MemoryCache

  /** How far a write gets: all bytes, the first `count` of them, or not even the opening of the file. */
  datatype Write = Whole | Partial(count: nat) | Refused

  /**
    What a path that leads out of the cache directory meets: the bytes it finds, if they are not too
    old, and the files of the cache it comes back to and deletes for their age.
   */
  datatype Outside = Outside(found: Option<M.Content>, deleted: set<M.Key>)

  /**
    The file system's part: keys whose file cannot be deleted, those whose file cannot be read, how
    writing goes, and what lies outside the directory.
   */
  datatype Faults = Faults(stuck: set<M.Key>, unreadable: set<M.Key>, write: Write, outside: Outside)

  const SOUND := Faults({}, {}, Whole, Outside(None, {}))

  /** A write that does not finish raises. */
  predicate WriteRaises(v: M.Content, w: Write) {
    w.Refused? || (w.Partial? && w.count < M.Size(v))
  }

  /** What a write that opens the file leaves in it: the file is truncated first. */
  function Left(v: M.Content, w: Write): M.Content {
    if w.Partial? && w.count < M.Size(v) then M.Content(v.bytes[..w.count]) else v
  }

  /** The files sorted by age. */
  predicate ByAge(files: seq<M.Entry>, aged: seq<M.Entry>) {
    && multiset(aged) == multiset(files)
    && M.DistinctKeys(aged)
    && forall i, j :: 0 <= i < j < |aged| ==> aged[i].stamp <= aged[j].stamp
  }

  /** The keys deleted to make room: oldest first, until the rest and the new content fit. */
  function Reclaim(aged: seq<M.Entry>, stuck: set<M.Key>, current: int, need: nat, max: int): set<M.Key> {
    if aged == [] || current + need <= max then {}
    else if aged[0].key in stuck then Reclaim(aged[1..], stuck, current, need, max)
    else {aged[0].key} + Reclaim(aged[1..], stuck, current - M.Size(aged[0].content), need, max)
  }

  /** Deleting them one by one. */
  function AfterEnsureSpace(files: seq<M.Entry>, aged: seq<M.Entry>, stuck: set<M.Key>, need: nat,
                            max: int): seq<M.Entry>
    decreases aged
  {
    if aged == [] || M.Total(files) + need <= max then files
    else AfterEnsureSpace(Unlinked(files, aged[0].key, stuck), aged[1..], stuck, need, max)
  }

  function Unlinked(files: seq<M.Entry>, k: M.Key, stuck: set<M.Key>): seq<M.Entry> {
    if k in stuck then files else M.Dropping(files, {k})
  }

  /** A file is rewritten in its place, a new one is added. */
  function Written(files: seq<M.Entry>, e: M.Entry): seq<M.Entry> {
    var at := M.Find(files, e.key);
    if at.Some? then files[at.value := e] else files + [e]
  }

  function AfterSet(files: seq<M.Entry>, aged: seq<M.Entry>, f: Faults, k: M.Key, v: M.Content, now: int,
                    max: int): seq<M.Entry> {
    if M.Size(v) > max then files
    else
      var kept := AfterEnsureSpace(files, aged, f.stuck, M.Size(v), max);
      if f.write.Refused? then kept else Written(kept, M.Entry(k, Left(v, f.write), now))
  }

  function Answer(files: seq<M.Entry>, f: Faults, k: M.Key, now: int, ttl: int): Option<M.Content> {
    match Locate(k)
    case Inside(h) => if h in f.unreadable then None else M.Answer(files, h, now, ttl)
    case Nowhere => None
    case Beyond => f.outside.found
  }

  function AfterGet(files: seq<M.Entry>, f: Faults, k: M.Key, now: int, ttl: int): seq<M.Entry> {
    match Locate(k)
    case Inside(h) =>
      var at := M.Find(files, h);
      if at.Some? && M.Expired(files[at.value], now, ttl) && h !in f.stuck then M.Dropping(files, {h}) else files
    case Nowhere => files
    case Beyond => M.Dropping(files, f.outside.deleted)
  }

  function AfterCleanup(files: seq<M.Entry>, f: Faults, now: int, ttl: int): seq<M.Entry> {
    M.Dropping(files, M.ExpiredKeys(files, now, ttl) - f.stuck)
  }

  class DiskCache {
    const maxBytes: int
    const ttl: int
    var files: seq<M.Entry>

    constructor (maxBytes: int, ttl: int, files: seq<M.Entry>)
      ensures this.maxBytes == maxBytes && this.ttl == ttl && this.files == files
    {
      this.maxBytes, this.ttl, this.files := maxBytes, ttl, files;
    }

    method Get(k: M.Key, now: int, f: Faults) returns (r: Option<M.Content>)
      requires M.DistinctKeys(files)
      modifies this
      ensures r == Answer(old(files), f, k, now, ttl)
      ensures files == AfterGet(old(files), f, k, now, ttl)
    {
      match Locate(k)
      case Nowhere =>
        return None;
      case Beyond =>
        files := M.Dropping(files, f.outside.deleted);
        return f.outside.found;
      case Inside(h) =>
        var at := M.Find(files, h);
        if at.None? {
          return None;
        }
        var e := files[at.value];
        if now - e.stamp > ttl {
          if h !in f.stuck {
            files := M.Dropping(files, {h});
          }
          return None;
        }
        if h in f.unreadable {
          return None;
        }
        return Some(e.content);
    }

    /** Not `ok` when the write raises.  The keys stored are hexadecimal digests, plain names. */
    method Set(k: M.Key, v: M.Content, now: int, aged: seq<M.Entry>, f: Faults) returns (ok: bool)
      requires PlainName(k.md5) && M.DistinctKeys(files) && ByAge(files, aged)
      modifies this
      ensures M.DistinctKeys(files)
      ensures files == AfterSet(old(files), aged, f, k, v, now, maxBytes)
      ensures ok <==> M.Size(v) > maxBytes || !WriteRaises(v, f.write)
    {
      if M.Size(v) > maxBytes {
        return true;
      }
      EnsureSpace(M.Size(v), aged, f.stuck);
      if f.write.Refused? {
        return false;
      }
      var e := M.Entry(k, Left(v, f.write), now);
      WrittenDistinct(files, e);
      files := Written(files, e);
      return !WriteRaises(v, f.write);
    }

    method EnsureSpace(need: nat, aged: seq<M.Entry>, stuck: set<M.Key>)
      requires M.DistinctKeys(files) && ByAge(files, aged)
      modifies this
      ensures M.DistinctKeys(files)
      ensures files == AfterEnsureSpace(old(files), aged, stuck, need, maxBytes)
    {
      var current := M.Total(files);
      AgedArePresent(files, aged);
      for i := 0 to |aged|
        invariant current == M.Total(files) && M.DistinctKeys(files) && RestPresent(files, aged[i..])
        invariant AfterEnsureSpace(files, aged[i..], stuck, need, maxBytes)
            == AfterEnsureSpace(old(files), aged, stuck, need, maxBytes)
      {
        if current + need <= maxBytes {
          break;
        }
        UnlinkStep(files, aged[i..], stuck);
        assert aged[i..][1..] == aged[i + 1..];
        if aged[i].key !in stuck {
          files := M.Dropping(files, {aged[i].key});
          current := current - M.Size(aged[i].content);
        }
      }
    }

    method CleanupExpired(now: int, f: Faults) returns (removed: nat)
      requires M.DistinctKeys(files)
      modifies this
      ensures files == AfterCleanup(old(files), f, now, ttl)
      ensures removed == |old(files)| - |files|
    {
      var kept: seq<M.Entry> := [];
      removed := 0;
      ghost var gone := M.ExpiredKeys(files, now, ttl) - f.stuck;
      for i := 0 to |files|
        invariant files == old(files)
        invariant kept == M.Dropping(files[..i], gone) && |kept| + removed == i
      {
        assert files[..i + 1] == files[..i] + [files[i]];
        M.DropLast(files[..i], files[i], gone);
        ExpiredHere(files, i, now, ttl);
        if now - files[i].stamp > ttl && files[i].key !in f.stuck {
          removed := removed + 1;
        } else {
          kept := kept + [files[i]];
        }
      }
      assert files[..|files|] == files;
      files := kept;
    }
  }

  lemma GetDistinct(files: seq<M.Entry>, f: Faults, k: M.Key, now: int, ttl: int)
    requires M.DistinctKeys(files)
    ensures M.DistinctKeys(AfterGet(files, f, k, now, ttl))
  {
    match Locate(k)
    case Inside(h) => M.DropKeepsDistinct(files, {h});
    case Nowhere =>
    case Beyond => M.DropKeepsDistinct(files, f.outside.deleted);
  }

  // ---------------------------------------------------------------- the eviction loop

  predicate RestPresent(files: seq<M.Entry>, aged: seq<M.Entry>) {
    M.DistinctKeys(aged) && forall i :: 0 <= i < |aged| ==> aged[i] in files
  }

  lemma AgedArePresent(files: seq<M.Entry>, aged: seq<M.Entry>)
    requires ByAge(files, aged)
    ensures RestPresent(files, aged) && forall e :: e in files ==> e in aged
  {
    forall e
      ensures e in aged <==> e in files
    {
      assert e in multiset(aged) <==> e in multiset(files);
    }
  }

  lemma UnlinkOne(files: seq<M.Entry>, e: M.Entry)
    requires M.DistinctKeys(files) && e in files
    ensures M.DistinctKeys(M.Dropping(files, {e.key}))
    ensures M.Total(M.Dropping(files, {e.key})) == M.Total(files) - M.Size(e.content)
  {
    var i :| 0 <= i < |files| && files[i] == e;
    M.RemovedAt(files, i);
  }

  /** Deleting the next file of the list leaves the rest of the list in place. */
  lemma UnlinkStep(files: seq<M.Entry>, aged: seq<M.Entry>, stuck: set<M.Key>)
    requires M.DistinctKeys(files) && RestPresent(files, aged) && aged != []
    ensures var files' := Unlinked(files, aged[0].key, stuck);
            && M.DistinctKeys(files') && RestPresent(files', aged[1..])
            && M.Total(files') == M.Total(files) - (if aged[0].key in stuck then 0 else M.Size(aged[0].content))
  {
    if aged[0].key !in stuck {
      UnlinkOne(files, aged[0]);
      M.DropMembers(files, {aged[0].key});
      forall i | 0 <= i < |aged[1..]|
        ensures aged[1..][i] in M.Dropping(files, {aged[0].key})
      {
        assert aged[i + 1].key != aged[0].key && aged[i + 1] in files;
      }
    }
  }

  /** One by one or all together: the same files are left. */
  lemma {:induction false} EvictionIsReclaim(files: seq<M.Entry>, aged: seq<M.Entry>, stuck: set<M.Key>, need: nat,
                                             max: int)
    requires M.DistinctKeys(files) && RestPresent(files, aged)
    ensures AfterEnsureSpace(files, aged, stuck, need, max)
        == M.Dropping(files, Reclaim(aged, stuck, M.Total(files), need, max))
    decreases aged
  {
    if aged == [] || M.Total(files) + need <= max {
      M.DropEmpty(files);
    } else {
      var files', head := Unlinked(files, aged[0].key, stuck), HeadTaken(aged, stuck);
      var later := Reclaim(aged[1..], stuck, M.Total(files'), need, max);
      UnlinkStep(files, aged, stuck);
      EvictionStep(files, aged, stuck, need, max);
      EvictionIsReclaim(files', aged[1..], stuck, need, max);
      M.DropEmpty(files);
      M.DropTwice(files, head, later);
    }
  }

  /** The first file of the list, if it can be deleted. */
  function HeadTaken(aged: seq<M.Entry>, stuck: set<M.Key>): set<M.Key>
    requires aged != []
  {
    if aged[0].key in stuck then {} else {aged[0].key}
  }

  /** Short of room, both ways begin with the first file of the list. */
  lemma EvictionStep(files: seq<M.Entry>, aged: seq<M.Entry>, stuck: set<M.Key>, need: nat, max: int)
    requires aged != [] && M.Total(files) + need > max
    requires M.Total(Unlinked(files, aged[0].key, stuck))
          == M.Total(files) - (if aged[0].key in stuck then 0 else M.Size(aged[0].content))
    ensures var files' := Unlinked(files, aged[0].key, stuck);
            && AfterEnsureSpace(files, aged, stuck, need, max) == AfterEnsureSpace(files', aged[1..], stuck, need, max)
            && Reclaim(aged, stuck, M.Total(files), need, max)
               == HeadTaken(aged, stuck) + Reclaim(aged[1..], stuck, M.Total(files'), need, max)
            && (HeadTaken(aged, stuck) == {} ==> files' == files)
            && (HeadTaken(aged, stuck) != {} ==> files' == M.Dropping(files, HeadTaken(aged, stuck)))
  {
  }

  lemma ExpiredHere(files: seq<M.Entry>, i: nat, now: int, ttl: int)
    requires i < |files| && M.DistinctKeys(files)
    ensures files[i].key in M.ExpiredKeys(files, now, ttl) <==> M.Expired(files[i], now, ttl)
  {
  }

  lemma WrittenDistinct(files: seq<M.Entry>, e: M.Entry)
    requires M.DistinctKeys(files)
    ensures M.DistinctKeys(Written(files, e))
  {
  }

  // ---------------------------------------------------------------- what eviction removes

  /** The bytes of the deletable ones among the first `i` files. */
  function Freed(aged: seq<M.Entry>, stuck: set<M.Key>, i: nat): nat
    requires i <= |aged|
  {
    if i == 0 then 0
    else (if aged[0].key in stuck then 0 else M.Size(aged[0].content)) + Freed(aged[1..], stuck, i - 1)
  }

  /**
    Eviction is exact: a file goes exactly when it can be deleted and what remains after deleting
    every deletable older file still leaves too little room.
   */
  lemma {:induction false} ReclaimExact(aged: seq<M.Entry>, stuck: set<M.Key>, current: int, need: nat, max: int,
                                        i: nat)
    requires M.DistinctKeys(aged) && i < |aged|
    ensures aged[i].key in Reclaim(aged, stuck, current, need, max) <==>
              aged[i].key !in stuck && current - Freed(aged, stuck, i) + need > max
    decreases aged
  {
    ReclaimFrom(aged, stuck, current, need, max);
    if current + need > max {
      if i > 0 {
        var left := if aged[0].key in stuck then current else current - M.Size(aged[0].content);
        ReclaimExact(aged[1..], stuck, left, need, max, i - 1);
        assert aged[i].key != aged[0].key;
      } else {
        ReclaimFrom(aged[1..], stuck, current, need, max);
        assert forall j :: 0 <= j < |aged[1..]| ==> aged[1..][j].key != aged[0].key;
      }
    }
  }

  lemma {:induction false} ReclaimFrom(aged: seq<M.Entry>, stuck: set<M.Key>, current: int, need: nat, max: int)
    ensures forall k :: k in Reclaim(aged, stuck, current, need, max) ==>
              k !in stuck && exists i :: 0 <= i < |aged| && aged[i].key == k
    decreases aged
  {
    if aged != [] {
      ReclaimFrom(aged[1..], stuck, current, need, max);
      ReclaimFrom(aged[1..], stuck, current - M.Size(aged[0].content), need, max);
      forall k | k in Reclaim(aged, stuck, current, need, max)
        ensures k !in stuck && exists i :: 0 <= i < |aged| && aged[i].key == k
      {
        if k == aged[0].key {
        } else {
          var i :| 0 <= i < |aged[1..]| && aged[1..][i].key == k;
          assert aged[i + 1].key == k;
        }
      }
    }
  }

  lemma ReclaimPrefix(aged: seq<M.Entry>, stuck: set<M.Key>, current: int, need: nat, max: int, j: nat, i: nat)
    requires M.DistinctKeys(aged) && j < i < |aged| && aged[j].key !in stuck
    requires aged[i].key in Reclaim(aged, stuck, current, need, max)
    ensures aged[j].key in Reclaim(aged, stuck, current, need, max)
  {
    ReclaimExact(aged, stuck, current, need, max, i);
    ReclaimExact(aged, stuck, current, need, max, j);
    FreedGrows(aged, stuck, j, i);
  }

  /** No file goes while an older one that could be deleted stays. */
  lemma OldestGoFirst(files: seq<M.Entry>, aged: seq<M.Entry>, stuck: set<M.Key>, need: nat, max: int, gone: M.Entry,
                      kept: M.Entry)
    requires M.DistinctKeys(files) && ByAge(files, aged) && gone in files && kept in files && kept.key !in stuck
    requires gone !in AfterEnsureSpace(files, aged, stuck, need, max)
        && kept in AfterEnsureSpace(files, aged, stuck, need, max)
    ensures gone.stamp <= kept.stamp
  {
    AgedArePresent(files, aged);
    KeptIff(files, aged, stuck, need, max, gone);
    KeptIff(files, aged, stuck, need, max, kept);
    var i, j := IndexOf(aged, gone), IndexOf(aged, kept);
    if j < i {
      ReclaimPrefix(aged, stuck, M.Total(files), need, max, j, i);
    }
  }

  lemma KeptIff(files: seq<M.Entry>, aged: seq<M.Entry>, stuck: set<M.Key>, need: nat, max: int, e: M.Entry)
    requires M.DistinctKeys(files) && RestPresent(files, aged) && e in files
    ensures e in AfterEnsureSpace(files, aged, stuck, need, max) <==>
              e.key !in Reclaim(aged, stuck, M.Total(files), need, max)
  {
    EvictionIsReclaim(files, aged, stuck, need, max);
    M.DropMembers(files, Reclaim(aged, stuck, M.Total(files), need, max));
  }

  ghost function IndexOf(aged: seq<M.Entry>, e: M.Entry): (i: nat)
    requires e in aged
    ensures i < |aged| && aged[i] == e
  {
    var i: nat :| i < |aged| && aged[i] == e;
    i
  }

  lemma {:induction false} FreedGrows(aged: seq<M.Entry>, stuck: set<M.Key>, i: nat, j: nat)
    requires i <= j <= |aged|
    ensures Freed(aged, stuck, i) <= Freed(aged, stuck, j)
    decreases aged
  {
    if i > 0 {
      FreedGrows(aged[1..], stuck, i - 1, j - 1);
    }
  }

  /** The keys of the files that can be deleted. */
  function Loose(files: seq<M.Entry>, stuck: set<M.Key>): set<M.Key> {
    set i | 0 <= i < |files| && files[i].key !in stuck :: files[i].key
  }

  /**
    Whether the eviction makes room: exactly when the files that cannot be deleted leave enough.
    So without refusals it always does.
   */
  lemma RoomIff(files: seq<M.Entry>, aged: seq<M.Entry>, stuck: set<M.Key>, need: nat, max: int)
    requires M.DistinctKeys(files) && ByAge(files, aged)
    ensures M.Total(AfterEnsureSpace(files, aged, stuck, need, max)) + need <= max <==>
              M.Total(M.Dropping(files, Loose(files, stuck))) + need <= max
  {
    AgedArePresent(files, aged);
    EvictionIsReclaim(files, aged, stuck, need, max);
    var gone := Reclaim(aged, stuck, M.Total(files), need, max);
    ReclaimedAreLoose(files, aged, stuck, M.Total(files), need, max);
    DropMore(files, gone, Loose(files, stuck));
    if M.Total(M.Dropping(files, gone)) + need > max {
      EvictAll(files, aged, stuck, need, max);
      LooseAreListed(files, aged, stuck, gone);
      assert Loose(files, stuck) == gone;
    }
  }

  lemma DropMore(files: seq<M.Entry>, some: set<M.Key>, all: set<M.Key>)
    requires some <= all
    ensures M.Total(M.Dropping(files, all)) <= M.Total(M.Dropping(files, some))
  {
    M.DropTwice(files, some, all);
    assert some + all == all;
    M.DropTotal(M.Dropping(files, some), all);
  }

  lemma ReclaimedAreLoose(files: seq<M.Entry>, aged: seq<M.Entry>, stuck: set<M.Key>, current: int, need: nat, max: int)
    requires RestPresent(files, aged)
    ensures Reclaim(aged, stuck, current, need, max) <= Loose(files, stuck)
  {
    ReclaimFrom(aged, stuck, current, need, max);
    forall k | k in Reclaim(aged, stuck, current, need, max)
      ensures k in Loose(files, stuck)
    {
      var i :| 0 <= i < |aged| && aged[i].key == k;
      assert aged[i] in files;
    }
  }

  /** Everything deletable in a list is among the given keys. */
  predicate AllTaken(aged: seq<M.Entry>, stuck: set<M.Key>, gone: set<M.Key>) {
    forall i :: 0 <= i < |aged| && aged[i].key !in stuck ==> aged[i].key in gone
  }

  lemma LooseAreListed(files: seq<M.Entry>, aged: seq<M.Entry>, stuck: set<M.Key>, gone: set<M.Key>)
    requires AllTaken(aged, stuck, gone) && forall e :: e in files ==> e in aged
    ensures Loose(files, stuck) <= gone
  {
    forall k | k in Loose(files, stuck)
      ensures k in gone
    {
      var i :| 0 <= i < |files| && files[i].key == k;
      assert files[i] in aged;
      var j :| 0 <= j < |aged| && aged[j] == files[i];
    }
  }

  /** Short of room, the loop has freed all it could. */
  lemma {:induction false} AllFreed(files: seq<M.Entry>, aged: seq<M.Entry>, stuck: set<M.Key>, need: nat, max: int)
    requires M.DistinctKeys(files) && RestPresent(files, aged)
    requires M.Total(AfterEnsureSpace(files, aged, stuck, need, max)) + need > max
    ensures M.Total(AfterEnsureSpace(files, aged, stuck, need, max)) == M.Total(files) - Freed(aged, stuck, |aged|)
    decreases aged
  {
    if aged != [] {
      UnlinkStep(files, aged, stuck);
      AllFreed(Unlinked(files, aged[0].key, stuck), aged[1..], stuck, need, max);
    }
  }

  /** So it has deleted everything it could. */
  lemma EvictAll(files: seq<M.Entry>, aged: seq<M.Entry>, stuck: set<M.Key>, need: nat, max: int)
    requires M.DistinctKeys(files) && RestPresent(files, aged)
    requires M.Total(AfterEnsureSpace(files, aged, stuck, need, max)) + need > max
    ensures AllTaken(aged, stuck, Reclaim(aged, stuck, M.Total(files), need, max))
  {
    AllFreed(files, aged, stuck, need, max);
    forall i | 0 <= i < |aged| && aged[i].key !in stuck
      ensures aged[i].key in Reclaim(aged, stuck, M.Total(files), need, max)
    {
      FreedGrows(aged, stuck, i, |aged|);
      ReclaimExact(aged, stuck, M.Total(files), need, max, i);
    }
  }

  /**
    Every accepted set leaves the directory within the budget when nothing is stuck, whatever was
    in it before and however far the write gets; what was written is read back.
   */
  lemma SetRestoresBudget(files: seq<M.Entry>, aged: seq<M.Entry>, f: Faults, k: M.Key, v: M.Content, now: int,
                          max: int)
    requires PlainName(k.md5) && M.DistinctKeys(files) && ByAge(files, aged) && f.stuck == {} && M.Size(v) <= max
    ensures M.Total(AfterSet(files, aged, f, k, v, now, max)) <= max
    ensures !f.write.Refused? ==>
              Answer(AfterSet(files, aged, f, k, v, now, max), SOUND, k, now, 0)
                  == Some(Left(v, f.write))
  {
    var kept := AfterEnsureSpace(files, aged, f.stuck, M.Size(v), max);
    RoomIff(files, aged, {}, M.Size(v), max);
    AllLoose(files);
    EnsureSpaceDistinct(files, aged, {}, M.Size(v), max);
    WrittenTotal(kept, M.Entry(k, Left(v, f.write), now));
    PlainIff(k);
  }

  lemma AllLoose(files: seq<M.Entry>)
    ensures M.Total(M.Dropping(files, Loose(files, {}))) == 0
  {
    DropAll(files, Loose(files, {}));
  }

  lemma {:induction false} DropAll(files: seq<M.Entry>, gone: set<M.Key>)
    requires forall i :: 0 <= i < |files| ==> files[i].key in gone
    ensures M.Dropping(files, gone) == []
  {
    if files != [] {
      DropAll(files[..|files| - 1], gone);
    }
  }

  lemma EnsureSpaceDistinct(files: seq<M.Entry>, aged: seq<M.Entry>, stuck: set<M.Key>, need: nat, max: int)
    requires M.DistinctKeys(files) && ByAge(files, aged)
    ensures M.DistinctKeys(AfterEnsureSpace(files, aged, stuck, need, max))
  {
    AgedArePresent(files, aged);
    EvictionIsReclaim(files, aged, stuck, need, max);
    M.DropKeepsDistinct(files, Reclaim(aged, stuck, M.Total(files), need, max));
  }

  lemma WrittenTotal(files: seq<M.Entry>, e: M.Entry)
    requires M.DistinctKeys(files)
    ensures M.Total(Written(files, e)) <= M.Total(files) + M.Size(e.content)
    ensures M.Answer(Written(files, e), e.key, e.stamp, 0) == Some(e.content)
  {
    WrittenDistinct(files, e);
    var written := Written(files, e);
    var at := M.Find(files, e.key);
    if at.Some? {
      var i := at.value;
      M.TotalSplit(files, i);
      M.TotalSplit(written, i);
      assert written[..i] == files[..i] && written[i + 1..] == files[i + 1..];
      assert M.Find(written, e.key) == Some(i) by {
        assert written[i] == e;
      }
    } else {
      M.TotalAppend(files, [e]);
      assert written[|files|] == e;
    }
  }

  // ---------------------------------------------------------------- single operations, file by file

  /**
    What a read finds and leaves: the content of the key's file unless it is older than the time to
    live or cannot be read; and the file goes exactly when it is older and can be deleted.
   */
  lemma GetOnFiles(files: seq<M.Entry>, f: Faults, k: M.Key, now: int, ttl: int, e: M.Entry)
    requires M.DistinctKeys(files) && PlainName(k.md5) && e in files
    ensures e.key == k ==>
              Answer(files, f, k, now, ttl)
              == if now - e.stamp <= ttl && k !in f.unreadable then Some(e.content) else None
    ensures e in AfterGet(files, f, k, now, ttl) <==> !(e.key == k && now - e.stamp > ttl && k !in f.stuck)
    ensures forall d :: d in AfterGet(files, f, k, now, ttl) ==> d in files
  {
    PlainIff(k);
    M.DropMembers(files, {k});
    var at := M.Find(files, k);
    if e.key == k {
      var i :| 0 <= i < |files| && files[i] == e;
      assert at == Some(i);
    }
  }

  lemma NoFileNoAnswer(files: seq<M.Entry>, f: Faults, k: M.Key, now: int, ttl: int)
    requires PlainName(k.md5) && forall e :: e in files ==> e.key != k
    ensures Answer(files, f, k, now, ttl) == None && AfterGet(files, f, k, now, ttl) == files
  {
    PlainIff(k);
  }

  /** Cleanup deletes exactly the files that are older than the time to live and can be deleted. */
  lemma CleanupOnFiles(files: seq<M.Entry>, f: Faults, now: int, ttl: int, e: M.Entry)
    requires M.DistinctKeys(files)
    ensures e in AfterCleanup(files, f, now, ttl) <==> e in files && (now - e.stamp <= ttl || e.key in f.stuck)
  {
    M.DropMembers(files, M.ExpiredKeys(files, now, ttl) - f.stuck);
    if e in files {
      var i :| 0 <= i < |files| && files[i] == e;
      ExpiredHere(files, i, now, ttl);
    }
  }

  /**
    A write leaves, under its key and the present time, all the bytes or the first of them; an
    oversized content or a file that cannot be opened leaves none.  Every other file is there exactly
    if the eviction left it.
   */
  lemma SetOnFiles(files: seq<M.Entry>, aged: seq<M.Entry>, f: Faults, k: M.Key, v: M.Content, now: int, max: int,
                   e: M.Entry)
    requires M.DistinctKeys(files) && ByAge(files, aged)
    ensures var files' := AfterSet(files, aged, f, k, v, now, max);
            var kept := AfterEnsureSpace(files, aged, f.stuck, |v.bytes|, max);
            var written := if f.write.Partial? && f.write.count < |v.bytes| then v.bytes[..f.write.count] else v.bytes;
            && (|v.bytes| > max ==> files' == files)
            && (|v.bytes| <= max && f.write.Refused? ==> files' == kept)
            && (|v.bytes| <= max && !f.write.Refused? ==>
                  (e in files' <==> if e.key == k then e == M.Entry(k, M.Content(written), now) else e in kept))
  {
    if M.Size(v) <= max && !f.write.Refused? {
      EnsureSpaceDistinct(files, aged, f.stuck, M.Size(v), max);
      WrittenMembers(AfterEnsureSpace(files, aged, f.stuck, M.Size(v), max), M.Entry(k, Left(v, f.write), now), e);
    }
  }

  lemma WrittenMembers(files: seq<M.Entry>, w: M.Entry, e: M.Entry)
    requires M.DistinctKeys(files)
    ensures e in Written(files, w) <==> if e.key == w.key then e == w else e in files
  {
    var at := M.Find(files, w.key);
    if at.Some? {
      var i := at.value;
      assert Written(files, w)[i] == w;
      if e in files && e.key != w.key {
        var j :| 0 <= j < |files| && files[j] == e;
        assert Written(files, w)[j] == e;
      }
      if e in Written(files, w) {
        var j :| 0 <= j < |files| && Written(files, w)[j] == e;
        assert j != i ==> files[j] == e;
      }
    }
  }

  /** A write raises exactly when it leaves less than the whole content under its key. */
  lemma RaisesUnlessStored(files: seq<M.Entry>, aged: seq<M.Entry>, f: Faults, k: M.Key, v: M.Content, now: int,
                           max: int)
    requires M.DistinctKeys(files) && ByAge(files, aged) && |v.bytes| <= max && M.Entry(k, v, now) !in files
    ensures WriteRaises(v, f.write) <==> M.Entry(k, v, now) !in AfterSet(files, aged, f, k, v, now, max)
  {
    SetOnFiles(files, aged, f, k, v, now, max, M.Entry(k, v, now));
    AgedArePresent(files, aged);
    EvictionIsReclaim(files, aged, f.stuck, |v.bytes|, max);
    M.DropMembers(files, Reclaim(aged, f.stuck, M.Total(files), |v.bytes|, max));
  }

  /** A path that leads out of the directory gives what is there, and may cost files of the cache. */
  lemma OutsideOnFiles(files: seq<M.Entry>, f: Faults, k: M.Key, now: int, ttl: int, e: M.Entry)
    requires Locate(k).Beyond?
    ensures Answer(files, f, k, now, ttl) == f.outside.found
    ensures e in AfterGet(files, f, k, now, ttl) <==> e in files && e.key !in f.outside.deleted
  {
    M.DropMembers(files, f.outside.deleted);
  }
}
