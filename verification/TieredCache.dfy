/**
  The two-tiered attachment cache (`TieredCache` in src/core/mail_proxy/smtp/cache.py) and the
  fetch that uses it (`fetch` in src/core/mail_proxy/smtp/attachments.py).  Contents below the
  size threshold go to memory, others to disk if there is one; a small content found on disk is
  promoted to memory.  `fetch` looks up the key the client gave, and stores what it fetched under
  the digest of the bytes.  The digest is any function to names that are plain, as hexadecimal
  digits are.
 */
module TieredCache {
  import opened Options
  import opened CachePath
  import M = MemoryCache
  import D = DiskCache

  datatype Settings = Settings(memoryMax: int, memoryTtl: int, diskMax: int, diskTtl: int, threshold: int)

  datatype Tiers = Tiers(memory: seq<M.Entry>, disk: Option<seq<M.Entry>>)

  type Digest = M.Content -> M.Key

  ghost predicate Hexadecimal(digest: Digest) {
    forall v :: PlainName(digest(v).md5)
  }

  // ---------------------------------------------------------------- what each operation does

  function DiskAnswer(t: Tiers, s: Settings, k: M.Key, now: int, f: D.Faults): Option<M.Content> {
    if t.disk.Some? then D.Answer(t.disk.value, f, k, now, s.diskTtl) else None
  }

  function Answer(t: Tiers, s: Settings, k: M.Key, now: int, f: D.Faults): Option<M.Content> {
    var m := M.Answer(t.memory, k, now, s.memoryTtl);
    if m.Some? then m else DiskAnswer(t, s, k, now, f)
  }

  function AfterGet(t: Tiers, s: Settings, k: M.Key, now: int, f: D.Faults): Tiers {
    var memory := M.AfterGet(t.memory, k, now, s.memoryTtl);
    if M.Answer(t.memory, k, now, s.memoryTtl).Some? || t.disk.None? then t.(memory := memory)
    else
      var found := DiskAnswer(t, s, k, now, f);
      Tiers(
        if found.Some? && M.Size(found.value) < s.threshold then M.AfterSet(memory, k, found.value, now, s.memoryMax)
        else memory,
        Some(D.AfterGet(t.disk.value, f, k, now, s.diskTtl)))
  }

  function AfterSet(t: Tiers, s: Settings, k: M.Key, v: M.Content, now: int, aged: seq<M.Entry>, f: D.Faults): Tiers {
    if M.Size(v) < s.threshold then t.(memory := M.AfterSet(t.memory, k, v, now, s.memoryMax))
    else if t.disk.Some? then t.(disk := Some(D.AfterSet(t.disk.value, aged, f, k, v, now, s.diskMax)))
    else t
  }

  /** An empty key counts as none. */
  predicate LooksUp(key: Option<M.Key>) {
    key.Some? && key.value.md5 != ""
  }

  function Looked(t: Tiers, s: Settings, key: Option<M.Key>, now: int, f: D.Faults): Tiers {
    if LooksUp(key) then AfterGet(t, s, key.value, now, f) else t
  }

  function Hit(t: Tiers, s: Settings, key: Option<M.Key>, now: int, f: D.Faults): Option<M.Content> {
    if LooksUp(key) then Answer(t, s, key.value, now, f) else None
  }

  /** The contents that are written to disk. */
  predicate ForDisk(s: Settings, v: M.Content) {
    s.threshold <= M.Size(v) <= s.diskMax
  }

  /** A store that raises: the content goes to disk and its write does not finish. */
  predicate StoreRaises(t: Tiers, s: Settings, v: M.Content, w: D.Write) {
    ForDisk(s, v) && t.disk.Some? && D.WriteRaises(v, w)
  }

  datatype Fetched = Raised | Returned(content: Option<M.Content>)

  function FetchResult(t: Tiers, s: Settings, key: Option<M.Key>, backend: Option<M.Content>, now: int,
                       f: D.Faults): Fetched {
    var hit := Hit(t, s, key, now, f);
    if hit.None? && backend.Some? && StoreRaises(t, s, backend.value, f.write) then Raised
    else Returned(if hit.Some? then hit else backend)
  }

  function AfterFetch(t: Tiers, s: Settings, digest: Digest, key: Option<M.Key>, backend: Option<M.Content>, now: int,
                      aged: seq<M.Entry>, f: D.Faults): Tiers {
    var looked := Looked(t, s, key, now, f);
    if Hit(t, s, key, now, f).Some? || backend.None? then looked
    else AfterSet(looked, s, digest(backend.value), backend.value, now, aged, f)
  }

  // ---------------------------------------------------------------- the classes

  class TieredCache {
    const memory: M.MemoryCache
    const disk: D.DiskCache?
    const threshold: int

    predicate Valid()
      reads this, memory, disk
    {
      memory.Valid() && (disk != null ==> M.DistinctKeys(disk.files))
    }

    function Value(): Tiers
      reads this, memory, disk
    {
      Tiers(memory.cache, if disk == null then None else Some(disk.files))
    }

    function Config(): Settings
      reads this, memory, disk
    {
      if disk == null then Settings(memory.maxBytes, memory.ttl, 0, 0, threshold)
      else Settings(memory.maxBytes, memory.ttl, disk.maxBytes, disk.ttl, threshold)
    }

    constructor (memory: M.MemoryCache, disk: D.DiskCache?, threshold: int)
      requires memory.Valid() && (disk != null ==> M.DistinctKeys(disk.files))
      ensures this.memory == memory && this.disk == disk && this.threshold == threshold && Valid()
    {
      this.memory, this.disk, this.threshold := memory, disk, threshold;
    }

    method Get(k: M.Key, now: int, f: D.Faults) returns (r: Option<M.Content>)
      requires Valid()
      modifies memory, disk
      ensures Valid()
      ensures r == Answer(old(Value()), Config(), k, now, f)
      ensures Value() == AfterGet(old(Value()), Config(), k, now, f)
    {
      r := memory.Get(k, now);
      if r.Some? || disk == null {
        return;
      }
      ghost var files := disk.files;
      r := disk.Get(k, now, f);
      D.GetDistinct(files, f, k, now, disk.ttl);
      assert memory.cache == M.AfterGet(old(memory.cache), k, now, memory.ttl);
      if r.Some? && M.Size(r.value) < threshold {
        memory.Set(k, r.value, now);
      }
    }

    method Set(k: M.Key, v: M.Content, now: int, aged: seq<M.Entry>, f: D.Faults) returns (ok: bool)
      requires PlainName(k.md5) && Valid() && (disk != null ==> D.ByAge(disk.files, aged))
      modifies memory, disk
      ensures Valid()
      ensures Value() == AfterSet(old(Value()), Config(), k, v, now, aged, f)
      ensures ok <==> !StoreRaises(old(Value()), Config(), v, f.write)
    {
      ok := true;
      if M.Size(v) < threshold {
        memory.Set(k, v, now);
      } else if disk != null {
        ok := disk.Set(k, v, now, aged, f);
      }
    }
  }

  /** The lookup, then the storage back end, then the store; `aged` lists the files at that time. */
  method Fetch(cache: TieredCache, digest: Digest, key: Option<M.Key>, backend: Option<M.Content>, now: int,
               aged: seq<M.Entry>, f: D.Faults) returns (r: Fetched)
    requires cache.Valid() && Hexadecimal(digest)
    requires cache.disk != null ==> D.ByAge(Looked(cache.Value(), cache.Config(), key, now, f).disk.value, aged)
    modifies cache.memory, cache.disk
    ensures cache.Valid()
    ensures r == FetchResult(old(cache.Value()), cache.Config(), key, backend, now, f)
    ensures cache.Value() == AfterFetch(old(cache.Value()), cache.Config(), digest, key, backend, now, aged, f)
  {
    ghost var before, s := cache.Value(), cache.Config();
    if key.Some? && key.value.md5 != "" {
      var cached := cache.Get(key.value, now, f);
      if cached.Some? {
        return Returned(cached);
      }
    }
    assert cache.Value() == Looked(before, s, key, now, f) && cache.Config() == s && Hit(before, s, key, now, f).None?;
    if backend.None? {
      return Returned(None);
    }
    var ok := cache.Set(digest(backend.value), backend.value, now, aged, f);
    return if ok then Returned(backend) else Raised;
  }

  // ---------------------------------------------------------------- content addressing

  predicate AllAddressed(c: seq<M.Entry>, digest: Digest, torn: set<M.Key>) {
    forall e :: e in c ==> Addresses(e.key, e.content, digest, torn)
  }

  /**
    What a key answers with: the content whose digest names the same file, or part of it after a
    torn write; anything, if its path leads out of the cache directory.
   */
  predicate Addresses(k: M.Key, v: M.Content, digest: Digest, torn: set<M.Key>) {
    match Locate(k)
    case Inside(h) => digest(v) == h || h in torn
    case Nowhere => false
    case Beyond => true
  }

  lemma InsideAddresses(k: M.Key)
    requires Locate(k).Inside?
    ensures Locate(Locate(k).key) == Locate(k)
  {
    InsideIsPlain(k);
    PlainIff(Locate(k).key);
  }

  predicate Addressed(t: Tiers, digest: Digest, torn: set<M.Key>) {
    AllAddressed(t.memory, digest, torn) && (t.disk.Some? ==> AllAddressed(t.disk.value, digest, torn))
  }

  /** The key under which storing this content leaves only a part of it. */
  function TornBy(v: M.Content, s: Settings, w: D.Write, digest: Digest): set<M.Key> {
    if ForDisk(s, v) && w.Partial? && w.count < M.Size(v) then {digest(v)} else {}
  }

  lemma DropAddressed(c: seq<M.Entry>, gone: set<M.Key>, digest: Digest, torn: set<M.Key>)
    requires AllAddressed(c, digest, torn)
    ensures AllAddressed(M.Dropping(c, gone), digest, torn)
  {
    M.DropMembers(c, gone);
  }

  lemma AnswerAddressed(c: seq<M.Entry>, k: M.Key, now: int, ttl: int, digest: Digest, torn: set<M.Key>)
    requires AllAddressed(c, digest, torn)
    ensures M.Answer(c, k, now, ttl).Some? ==> Addresses(k, M.Answer(c, k, now, ttl).value, digest, torn)
  {
    var at := M.Find(c, k);
    if at.Some? {
      assert c[at.value] in c;
    }
  }

  lemma MemoryGetAddressed(c: seq<M.Entry>, k: M.Key, now: int, ttl: int, digest: Digest, torn: set<M.Key>)
    requires AllAddressed(c, digest, torn)
    ensures AllAddressed(M.AfterGet(c, k, now, ttl), digest, torn)
  {
    DropAddressed(c, {k}, digest, torn);
    var at := M.Find(c, k);
    if at.Some? {
      assert c[at.value] in c;
    }
  }

  lemma MemorySetAddressed(c: seq<M.Entry>, k: M.Key, v: M.Content, now: int, max: int, digest: Digest,
                           torn: set<M.Key>)
    requires AllAddressed(c, digest, torn) && Addresses(k, v, digest, torn)
    ensures AllAddressed(M.AfterSet(c, k, v, now, max), digest, torn)
  {
    DropAddressed(c, {k}, digest, torn);
    if M.Size(v) <= max {
      var kept := M.Dropping(c, {k});
      var n := M.EvictionExact(kept, M.Size(v), max);
      assert forall e :: e in kept[n..] ==> e in kept;
    }
  }

  lemma {:induction false} EvictedAddressed(files: seq<M.Entry>, aged: seq<M.Entry>, stuck: set<M.Key>, need: nat,
                                            max: int, digest: Digest, torn: set<M.Key>)
    requires AllAddressed(files, digest, torn)
    ensures AllAddressed(D.AfterEnsureSpace(files, aged, stuck, need, max), digest, torn)
    decreases aged
  {
    if aged != [] && M.Total(files) + need > max {
      DropAddressed(files, {aged[0].key}, digest, torn);
      EvictedAddressed(D.Unlinked(files, aged[0].key, stuck), aged[1..], stuck, need, max, digest, torn);
    }
  }

  lemma GetAddressed(t: Tiers, s: Settings, k: M.Key, now: int, f: D.Faults, digest: Digest, torn: set<M.Key>)
    requires Addressed(t, digest, torn)
    ensures Addressed(AfterGet(t, s, k, now, f), digest, torn)
    ensures Answer(t, s, k, now, f).Some? ==> Addresses(k, Answer(t, s, k, now, f).value, digest, torn)
  {
    AnswerAddressed(t.memory, k, now, s.memoryTtl, digest, torn);
    MemoryGetAddressed(t.memory, k, now, s.memoryTtl, digest, torn);
    if t.disk.Some? {
      DiskGetAddressed(t.disk.value, k, now, s.diskTtl, f, digest, torn);
      var found := DiskAnswer(t, s, k, now, f);
      if found.Some? {
        MemorySetAddressed(M.AfterGet(t.memory, k, now, s.memoryTtl), k, found.value, now, s.memoryMax, digest, torn);
      }
    }
  }

  lemma DiskGetAddressed(files: seq<M.Entry>, k: M.Key, now: int, ttl: int, f: D.Faults, digest: Digest,
                         torn: set<M.Key>)
    requires AllAddressed(files, digest, torn)
    ensures AllAddressed(D.AfterGet(files, f, k, now, ttl), digest, torn)
    ensures D.Answer(files, f, k, now, ttl).Some? ==> Addresses(k, D.Answer(files, f, k, now, ttl).value, digest, torn)
  {
    match Locate(k)
    case Inside(h) =>
      InsideAddresses(k);
      AnswerAddressed(files, h, now, ttl, digest, torn);
      DropAddressed(files, {h}, digest, torn);
    case Nowhere =>
    case Beyond => DropAddressed(files, f.outside.deleted, digest, torn);
  }

  lemma SetAddressed(t: Tiers, s: Settings, v: M.Content, now: int, aged: seq<M.Entry>, f: D.Faults, digest: Digest,
                     torn: set<M.Key>)
    requires Hexadecimal(digest) && Addressed(t, digest, torn) && TornBy(v, s, f.write, digest) <= torn
    ensures Addressed(AfterSet(t, s, digest(v), v, now, aged, f), digest, torn)
  {
    PlainIff(digest(v));
    MemorySetAddressed(t.memory, digest(v), v, now, s.memoryMax, digest, torn);
    if t.disk.Some? {
      EvictedAddressed(t.disk.value, aged, f.stuck, M.Size(v), s.diskMax, digest, torn);
    }
  }

  // ---------------------------------------------------------------- runs of fetches

  /**
    A fetch whose write is torn stands for a write that failed and for one still under way, which
    other fetches can read from; the latter ends with `Finishing`.
   */
  datatype Op =
    | Fetching(key: Option<M.Key>, backend: Option<M.Content>, now: int, aged: seq<M.Entry>, faults: D.Faults)
    | Finishing(written: M.Content, now: int)
    | Cleanup(now: int, faults: D.Faults)
    | Clear(faults: D.Faults)

  /** The rest of the bytes reaches the file, if it has not been deleted meanwhile. */
  function Finished(t: Tiers, s: Settings, k: M.Key, v: M.Content, now: int): Tiers {
    if ForDisk(s, v) && t.disk.Some? && M.Find(t.disk.value, k).Some?
    then t.(disk := Some(D.Written(t.disk.value, M.Entry(k, v, now))))
    else t
  }

  /** Clearing the disk leaves the files that cannot be deleted. */
  function Apply(t: Tiers, s: Settings, digest: Digest, op: Op): Tiers {
    match op
    case Fetching(key, backend, now, aged, f) => AfterFetch(t, s, digest, key, backend, now, aged, f)
    case Finishing(v, now) => Finished(t, s, digest(v), v, now)
    case Cleanup(now, f) =>
      Tiers(M.AfterCleanup(t.memory, now, s.memoryTtl),
            if t.disk.Some? then Some(D.AfterCleanup(t.disk.value, f, now, s.diskTtl)) else None)
    case Clear(f) =>
      Tiers([], if t.disk.Some? then Some(M.Dropping(t.disk.value, D.Loose(t.disk.value, f.stuck))) else None)
  }

  function Replay(t: Tiers, s: Settings, digest: Digest, ops: seq<Op>): Tiers {
    if ops == [] then t else Apply(Replay(t, s, digest, ops[..|ops| - 1]), s, digest, ops[|ops| - 1])
  }

  function TornIn(op: Op, s: Settings, digest: Digest): set<M.Key> {
    if op.Fetching? && op.backend.Some? then TornBy(op.backend.value, s, op.faults.write, digest) else {}
  }

  /** The keys under which a write of the run was torn, for good or for a while. */
  function TornKeys(ops: seq<Op>, s: Settings, digest: Digest): set<M.Key> {
    if ops == [] then {} else TornKeys(ops[..|ops| - 1], s, digest) + TornIn(ops[|ops| - 1], s, digest)
  }

  /**
    Which keys are torn: those of contents for the disk, at least the threshold and at most its budget,
    whose write some fetch of the run ended before their last byte.
   */
  lemma {:induction false} TornKeysIff(ops: seq<Op>, s: Settings, digest: Digest, k: M.Key)
    ensures k in TornKeys(ops, s, digest) <==>
              exists i :: 0 <= i < |ops| && ops[i].Fetching? && ops[i].backend.Some?
                          && var v := ops[i].backend.value;
                             && digest(v) == k && s.threshold <= |v.bytes| <= s.diskMax
                             && ops[i].faults.write.Partial? && ops[i].faults.write.count < |v.bytes|
  {
    if ops != [] {
      var front, last := ops[..|ops| - 1], ops[|ops| - 1];
      TornKeysIff(front, s, digest, k);
      assert forall i :: 0 <= i < |front| ==> front[i] == ops[i];
    }
  }

  lemma ApplyAddressed(t: Tiers, s: Settings, digest: Digest, op: Op, torn: set<M.Key>)
    requires Hexadecimal(digest) && Addressed(t, digest, torn) && TornIn(op, s, digest) <= torn
    ensures Addressed(Apply(t, s, digest, op), digest, torn)
  {
    match op
    case Fetching(key, backend, now, aged, f) =>
      if LooksUp(key) {
        GetAddressed(t, s, key.value, now, f, digest, torn);
      }
      if backend.Some? {
        SetAddressed(Looked(t, s, key, now, f), s, backend.value, now, aged, f, digest, torn);
      }
    case Finishing(v, now) => PlainIff(digest(v));
    case Cleanup(now, f) =>
      DropAddressed(t.memory, M.ExpiredKeys(t.memory, now, s.memoryTtl), digest, torn);
      if t.disk.Some? {
        DropAddressed(t.disk.value, M.ExpiredKeys(t.disk.value, now, s.diskTtl) - f.stuck, digest, torn);
      }
    case Clear(f) =>
      if t.disk.Some? {
        DropAddressed(t.disk.value, D.Loose(t.disk.value, f.stuck), digest, torn);
      }
  }

  lemma {:induction false} EveryRunAddressed(t: Tiers, s: Settings, digest: Digest, ops: seq<Op>)
    requires Hexadecimal(digest) && Addressed(t, digest, {})
    ensures Addressed(Replay(t, s, digest, ops), digest, TornKeys(ops, s, digest))
  {
    if ops != [] {
      EveryRunAddressed(t, s, digest, ops[..|ops| - 1]);
      ApplyAddressed(Replay(t, s, digest, ops[..|ops| - 1]), s, digest, ops[|ops| - 1], TornKeys(ops, s, digest));
    }
  }

  /** No write was torn under the file that the key names. */
  predicate Untorn(k: M.Key, torn: set<M.Key>) {
    Locate(k).Inside? ==> Locate(k).key !in torn
  }

  /**
    Exactly when a hit is genuine: after any run of fetches, cleanups and clears, whatever was
    promoted, evicted, left undeleted or torn elsewhere, the content the cache gives for a key has
    that key as its digest if and only if the key is a plain name.  And if the key names a file of
    the cache at all, the content is the one stored under that file's own key.
   */
  lemma HitsAreGenuine(t: Tiers, s: Settings, digest: Digest, ops: seq<Op>, k: M.Key, now: int, f: D.Faults)
    requires Hexadecimal(digest) && Addressed(t, digest, {}) && Untorn(k, TornKeys(ops, s, digest))
    ensures var r := Answer(Replay(t, s, digest, ops), s, k, now, f);
            r.Some? ==>
              && (digest(r.value) == k <==> PlainName(k.md5))
              && (Locate(k).Inside? ==> digest(r.value) == Locate(k).key)
              && !Locate(k).Nowhere?
  {
    EveryRunAddressed(t, s, digest, ops);
    GetAddressed(Replay(t, s, digest, ops), s, k, now, f, digest, TornKeys(ops, s, digest));
    PlainIff(k);
  }

  /**
    The case that fails: any content that goes to disk answers for a second key, which is not its
    digest and names the same file.
   */
  lemma AliasHitIsNotGenuine(s: Settings, digest: Digest, v: M.Content, now: int)
    requires Hexadecimal(digest) && ForDisk(s, v) && s.diskTtl >= 0
    ensures var run := [Fetching(None, Some(v), now, [], D.SOUND)];
            && Alias(digest(v)) != digest(v)
            && Answer(Replay(Tiers([], Some([])), s, digest, run), s, Alias(digest(v)), now, D.SOUND) == Some(v)
  {
    var run := [Fetching(None, Some(v), now, [], D.SOUND)];
    AliasNamesFile(digest(v));
    assert run[..0] == [];
    var stored := Apply(Tiers([], Some([])), s, digest, run[0]);
    assert Replay(Tiers([], Some([])), s, digest, run) == stored;
    assert D.AfterSet([], [], D.SOUND, digest(v), v, now, s.diskMax) == [M.Entry(digest(v), v, now)];
    assert stored == Tiers([], Some([M.Entry(digest(v), v, now)]));
  }

  /**
    A torn key is a real exception, and it can outlive the tear: read while only `count` bytes of
    a large content are in its file, the part is promoted to memory if it is below the threshold,
    and answers for the key even after the whole content has reached the file.
   */
  lemma TornReadOutlivesWrite(s: Settings, digest: Digest, v: M.Content, count: nat, now: int)
    requires ForDisk(s, v) && count < M.Size(v) && s.threshold <= s.memoryMax
    requires Hexadecimal(digest) && s.memoryTtl >= 0 && s.diskTtl >= 0
    ensures var sound := D.SOUND;
            var run := [Fetching(None, Some(v), now, [], D.SOUND.(write := D.Partial(count))),
                        Fetching(Some(digest(v)), None, now, [], sound),
                        Finishing(v, now)];
            && Answer(Replay(Tiers([], Some([])), s, digest, run[..1]), s, digest(v), now, sound)
                == Some(M.Content(v.bytes[..count]))
            && Answer(Replay(Tiers([], Some([])), s, digest, run), s, digest(v), now, sound)
                == Some(if count < s.threshold then M.Content(v.bytes[..count]) else v)
  {
    var sound := D.SOUND;
    var run := [Fetching(None, Some(v), now, [], D.SOUND.(write := D.Partial(count))),
                Fetching(Some(digest(v)), None, now, [], sound),
                Finishing(v, now)];
    var part := M.Content(v.bytes[..count]);
    var empty := Tiers([], Some([]));
    PlainIff(digest(v));
    ReplayThree(empty, s, digest, run);
    var torn := Apply(empty, s, digest, run[0]);
    TornStore(s, digest, v, count, now);
    assert run[..1] == [run[0]] && run[..1][..0] == [];
    assert Replay(empty, s, digest, run[..1]) == torn;
    TornRead(torn, s, digest, digest(v), part, now);
    FinishedWrite(Apply(torn, s, digest, run[1]), s, digest, v, part, now);
  }

  lemma TornStore(s: Settings, digest: Digest, v: M.Content, count: nat, now: int)
    requires ForDisk(s, v) && count < M.Size(v)
    ensures Apply(Tiers([], Some([])), s, digest, Fetching(None, Some(v), now, [], D.SOUND.(write := D.Partial(count))))
         == Tiers([], Some([M.Entry(digest(v), M.Content(v.bytes[..count]), now)]))
  {
    assert D.AfterSet([], [], D.SOUND.(write := D.Partial(count)), digest(v), v, now, s.diskMax)
        == [M.Entry(digest(v), M.Content(v.bytes[..count]), now)];
  }

  lemma TornRead(t: Tiers, s: Settings, digest: Digest, k: M.Key, part: M.Content, now: int)
    requires t == Tiers([], Some([M.Entry(k, part, now)])) && Locate(k) == Inside(k) && k.md5 != ""
    requires s.threshold <= s.memoryMax && s.diskTtl >= 0
    ensures Answer(t, s, k, now, D.SOUND) == Some(part)
    ensures Apply(t, s, digest, Fetching(Some(k), None, now, [], D.SOUND))
         == Tiers(if M.Size(part) < s.threshold then [M.Entry(k, part, now)] else [], t.disk)
  {
    assert D.Answer(t.disk.value, D.SOUND, k, now, s.diskTtl) == Some(part);
    assert D.AfterGet(t.disk.value, D.SOUND, k, now, s.diskTtl) == t.disk.value;
    M.DropNothing([], {k});
  }

  lemma FinishedWrite(t: Tiers, s: Settings, digest: Digest, v: M.Content, part: M.Content, now: int)
    requires ForDisk(s, v) && Locate(digest(v)) == Inside(digest(v)) && s.memoryTtl >= 0 && s.diskTtl >= 0
    requires t == Tiers(if M.Size(part) < s.threshold then [M.Entry(digest(v), part, now)] else [],
                        Some([M.Entry(digest(v), part, now)]))
    ensures Answer(Apply(t, s, digest, Finishing(v, now)), s, digest(v), now, D.SOUND)
         == Some(if M.Size(part) < s.threshold then part else v)
  {
    assert D.Written([M.Entry(digest(v), part, now)], M.Entry(digest(v), v, now)) == [M.Entry(digest(v), v, now)];
    assert Apply(t, s, digest, Finishing(v, now)) == t.(disk := Some([M.Entry(digest(v), v, now)]));
  }

  lemma ReplayThree(t: Tiers, s: Settings, digest: Digest, ops: seq<Op>)
    requires |ops| == 3
    ensures Replay(t, s, digest, ops)
        == Apply(Apply(Apply(t, s, digest, ops[0]), s, digest, ops[1]), s, digest, ops[2])
  {
    assert ops[..2][..1] == ops[..1] && ops[..1][..0] == [];
    assert Replay(t, s, digest, ops[..1]) == Apply(t, s, digest, ops[0]);
  }

  /**
    When the cache is transparent: if no two contents share a digest, no write under the file that
    the key names was torn, and its path stays in the directory, a fetch in any run returns what
    the back end holds exactly when nothing is found and storing it does not raise, or the file
    named is that of the content's digest.
   */
  lemma FetchIsTransparentIff(t: Tiers, s: Settings, digest: Digest, ops: seq<Op>, key: Option<M.Key>, held: M.Content,
                              now: int, f: D.Faults)
    requires Hexadecimal(digest) && Addressed(t, digest, {})
    requires LooksUp(key) ==> Untorn(key.value, TornKeys(ops, s, digest)) && !Locate(key.value).Beyond?
    requires forall v :: digest(v) == digest(held) ==> v == held
    ensures var reached := Replay(t, s, digest, ops);
            FetchResult(reached, s, key, Some(held), now, f) == Returned(Some(held)) <==>
              if Hit(reached, s, key, now, f).None? then !StoreRaises(reached, s, held, f.write)
              else Locate(key.value) == Inside(digest(held))
  {
    if LooksUp(key) {
      HitsAreGenuine(t, s, digest, ops, key.value, now, f);
    }
  }

  /**
    When a fetch raises: it finds nothing, the back end has a content for the disk, at least the
    threshold and at most the disk's budget, and its file cannot be opened or written to the end.
   */
  lemma FetchRaisesIff(t: Tiers, s: Settings, key: Option<M.Key>, backend: Option<M.Content>, now: int, f: D.Faults)
    ensures FetchResult(t, s, key, backend, now, f) == Raised <==>
              && Hit(t, s, key, now, f) == None && backend.Some? && t.disk.Some?
              && s.threshold <= |backend.value.bytes| <= s.diskMax
              && (f.write.Refused? || (f.write.Partial? && f.write.count < |backend.value.bytes|))
  {
  }

  /**
    What a fetch leaves: after a hit, whatever the lookup left, the back end not being asked; after a
    miss, also the content fetched, under its digest, as the most recent in memory if it is below
    the threshold and fits.
   */
  lemma FetchOnTiers(t: Tiers, s: Settings, digest: Digest, key: Option<M.Key>, held: M.Content, now: int,
                     aged: seq<M.Entry>, f: D.Faults)
    requires t.disk.Some? ==> M.DistinctKeys(t.disk.value)
    ensures var after := AfterFetch(t, s, digest, key, Some(held), now, aged, f);
            var looked := AfterFetch(t, s, digest, key, None, now, aged, f);
            && (Hit(t, s, key, now, f).Some? ==> after == looked)
            && (Hit(t, s, key, now, f).None? && |held.bytes| < s.threshold ==>
                  && after.disk == looked.disk
                  && (|held.bytes| <= s.memoryMax ==>
                        after.memory != [] && after.memory[|after.memory| - 1] == M.Entry(digest(held), held, now)))
            && (Hit(t, s, key, now, f).None? && |held.bytes| >= s.threshold ==> after.memory == looked.memory)
            && (key == None || key == Some(M.Key("")) ==> looked == t)
  {
  }

  /** What cleanup and clearing leave in the tiers: what has not expired or cannot be deleted, and only this. */
  lemma CleanupOnTiers(t: Tiers, s: Settings, digest: Digest, now: int, f: D.Faults, e: M.Entry)
    requires M.DistinctKeys(t.memory) && (t.disk.Some? ==> M.DistinctKeys(t.disk.value))
    ensures var t' := Apply(t, s, digest, Cleanup(now, f));
            && (e in t'.memory <==> e in t.memory && now - e.stamp <= s.memoryTtl)
            && (t.disk.Some? <==> t'.disk.Some?)
            && (t.disk.Some? ==>
                  (e in t'.disk.value <==> e in t.disk.value && (now - e.stamp <= s.diskTtl || e.key in f.stuck)))
    ensures var t' := Apply(t, s, digest, Clear(f));
            && t'.memory == [] && (t.disk.Some? <==> t'.disk.Some?)
            && (t.disk.Some? ==> (e in t'.disk.value <==> e in t.disk.value && e.key in f.stuck))
  {
    M.DropMembers(t.memory, M.ExpiredKeys(t.memory, now, s.memoryTtl));
    if e in t.memory {
      var i :| 0 <= i < |t.memory| && t.memory[i] == e;
      M.KeyExpiredIff(t.memory, i, now, s.memoryTtl);
    }
    if t.disk.Some? {
      D.CleanupOnFiles(t.disk.value, f, now, s.diskTtl, e);
      M.DropMembers(t.disk.value, D.Loose(t.disk.value, f.stuck));
      if e in t.disk.value {
        var i :| 0 <= i < |t.disk.value| && t.disk.value[i] == e;
      }
    }
  }

  /** So the back end's content under a path is not what a key of other, cached bytes returns. */
  lemma KeyWinsOverPath(s: Settings, digest: Digest, cached: M.Content, held: M.Content, t0: int, now: int, f: D.Faults)
    requires M.Size(cached) < s.threshold && M.Size(cached) <= s.memoryMax && now - t0 <= s.memoryTtl
    requires digest(cached).md5 != "" && cached != held
    ensures var run := [Fetching(None, Some(cached), t0, [], f)];
            FetchResult(Replay(Tiers([], None), s, digest, run), s, Some(digest(cached)), Some(held), now, f)
                == Returned(Some(cached))
  {
    var run := [Fetching(None, Some(cached), t0, [], f)];
    assert run[..0] == [];
    assert Replay(Tiers([], None), s, digest, run) == Apply(Tiers([], None), s, digest, run[0]);
    M.DropNothing([], {digest(cached)});
    assert Replay(Tiers([], None), s, digest, run).memory == [M.Entry(digest(cached), cached, t0)];
  }

  // ---------------------------------------------------------------- the tiers stay apart

  predicate AllSmall(c: seq<M.Entry>, threshold: int) {
    forall e :: e in c ==> M.Size(e.content) < threshold
  }

  predicate AllLarge(c: seq<M.Entry>, threshold: int, torn: set<M.Key>) {
    forall e :: e in c ==> M.Size(e.content) >= threshold || e.key in torn
  }

  /** Each tier holds what the threshold sends there, except for what torn writes left on disk. */
  predicate Apart(t: Tiers, threshold: int, torn: set<M.Key>) {
    AllSmall(t.memory, threshold) && (t.disk.Some? ==> AllLarge(t.disk.value, threshold, torn))
  }

  lemma {:induction false} EvictedSubset(files: seq<M.Entry>, aged: seq<M.Entry>, stuck: set<M.Key>, need: nat,
                                         max: int)
    ensures forall e :: e in D.AfterEnsureSpace(files, aged, stuck, need, max) ==> e in files
    decreases aged
  {
    if aged != [] && M.Total(files) + need > max {
      M.DropMembers(files, {aged[0].key});
      EvictedSubset(D.Unlinked(files, aged[0].key, stuck), aged[1..], stuck, need, max);
    }
  }

  lemma MemorySetSmall(c: seq<M.Entry>, k: M.Key, v: M.Content, now: int, max: int, threshold: int)
    requires AllSmall(c, threshold) && M.Size(v) < threshold
    ensures AllSmall(M.AfterSet(c, k, v, now, max), threshold)
  {
    M.DropMembers(c, {k});
    if M.Size(v) <= max {
      var kept := M.Dropping(c, {k});
      var n := M.EvictionExact(kept, M.Size(v), max);
      assert forall e :: e in kept[n..] ==> e in kept;
    }
  }

  /** Only what a torn write left, or what lies outside the directory, is promoted. */
  lemma GetApart(t: Tiers, s: Settings, k: M.Key, now: int, f: D.Faults, torn: set<M.Key>)
    requires Apart(t, s.threshold, torn)
    ensures Apart(AfterGet(t, s, k, now, f), s.threshold, torn)
    ensures AfterGet(t, s, k, now, f).memory == M.AfterGet(t.memory, k, now, s.memoryTtl)
            || !Untorn(k, torn) || Locate(k).Beyond?
  {
    M.DropMembers(t.memory, {k});
    var at := M.Find(t.memory, k);
    if at.Some? {
      assert t.memory[at.value] in t.memory;
    }
    if t.disk.Some? {
      DiskGetApart(t.disk.value, s, k, now, f, torn);
      var found := DiskAnswer(t, s, k, now, f);
      if found.Some? && M.Size(found.value) < s.threshold {
        MemorySetSmall(M.AfterGet(t.memory, k, now, s.memoryTtl), k, found.value, now, s.memoryMax, s.threshold);
      }
    }
  }

  lemma DiskGetApart(files: seq<M.Entry>, s: Settings, k: M.Key, now: int, f: D.Faults, torn: set<M.Key>)
    requires AllLarge(files, s.threshold, torn)
    ensures AllLarge(D.AfterGet(files, f, k, now, s.diskTtl), s.threshold, torn)
    ensures var found := D.Answer(files, f, k, now, s.diskTtl);
            found.Some? && M.Size(found.value) < s.threshold ==> !Untorn(k, torn) || Locate(k).Beyond?
  {
    match Locate(k)
    case Inside(h) =>
      M.DropMembers(files, {h});
      var at := M.Find(files, h);
      if at.Some? {
        assert files[at.value] in files;
      }
    case Nowhere =>
    case Beyond => M.DropMembers(files, f.outside.deleted);
  }

  lemma SetApart(t: Tiers, s: Settings, digest: Digest, v: M.Content, now: int, aged: seq<M.Entry>, f: D.Faults,
                 torn: set<M.Key>)
    requires Apart(t, s.threshold, torn) && TornBy(v, s, f.write, digest) <= torn
    ensures Apart(AfterSet(t, s, digest(v), v, now, aged, f), s.threshold, torn)
  {
    if M.Size(v) < s.threshold {
      MemorySetSmall(t.memory, digest(v), v, now, s.memoryMax, s.threshold);
    } else if t.disk.Some? {
      EvictedSubset(t.disk.value, aged, f.stuck, M.Size(v), s.diskMax);
    }
  }

  /**
    From a state where each tier holds what the threshold sends there (an empty cache is one),
    the tiers stay apart for ever, so that reading never promotes: only what torn writes left and
    files from an earlier, different threshold are ever promoted.
   */
  lemma {:induction false} TiersStayApart(t: Tiers, s: Settings, digest: Digest, ops: seq<Op>)
    requires Apart(t, s.threshold, {})
    ensures Apart(Replay(t, s, digest, ops), s.threshold, TornKeys(ops, s, digest))
  {
    if ops != [] {
      var before := Replay(t, s, digest, ops[..|ops| - 1]);
      TiersStayApart(t, s, digest, ops[..|ops| - 1]);
      ApplyApart(before, s, digest, ops[|ops| - 1], TornKeys(ops, s, digest));
    }
  }

  lemma ApplyApart(t: Tiers, s: Settings, digest: Digest, op: Op, torn: set<M.Key>)
    requires Apart(t, s.threshold, torn) && TornIn(op, s, digest) <= torn
    ensures Apart(Apply(t, s, digest, op), s.threshold, torn)
  {
    match op
    case Fetching(key, backend, now, aged, f) =>
      if LooksUp(key) {
        GetApart(t, s, key.value, now, f, torn);
      }
      if backend.Some? {
        SetApart(Looked(t, s, key, now, f), s, digest, backend.value, now, aged, f, torn);
      }
    case Finishing(v, now) =>
    case Cleanup(now, f) =>
      M.DropMembers(t.memory, M.ExpiredKeys(t.memory, now, s.memoryTtl));
      if t.disk.Some? {
        M.DropMembers(t.disk.value, M.ExpiredKeys(t.disk.value, now, s.diskTtl) - f.stuck);
      }
    case Clear(f) =>
      if t.disk.Some? {
        M.DropMembers(t.disk.value, D.Loose(t.disk.value, f.stuck));
      }
  }
}
