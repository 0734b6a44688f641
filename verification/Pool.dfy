/**
 The buffer pool as a value: a write-back cache of decoded nodes over a disk of page images. The
 functions below say what each operation does to that value, failures included; module BufferPools
 proves the code equal to them.
 */
module Pools {
  import opened Base
  import opened Nodes
  import opened Codec
  import opened Lru
  import opened Wal

  type PageImage = b: seq<Byte> | |b| == PAGE_SIZE witness seq(PAGE_SIZE, _ => 0)

  /** Page images as the process sees them and as they would survive a crash; the environment may
      make reads and writes of some pages, or writes of the header, fail. */
  datatype Disk = Disk(pages: map<PageId, PageImage>, stable: map<PageId, PageImage>, nextFree: U64,
                       faulty: set<PageId>, headerFails: bool)

  /** pins counts for each page the references handed out and not yet given back. */
  datatype Pool = Pool(cache: map<PageId, Node>, lru: seq<PageId>, pins: multiset<PageId>,
                       capacity: nat, disk: Disk, wal: Option<Log>)

  function Zeros(): PageImage {
    seq(PAGE_SIZE, _ => 0)
  }

  function Unpinned(pins: multiset<PageId>): PageId -> bool {
    p => pins[p] == 0
  }

  // ----- operations -----

  function ForceWal(wal: Option<Log>, lsn: U64): (Option<Log>, Result<()>) {
    match wal
    case None => (None, Ok(()))
    case Some(w) => var (w', r) := FlushUpto(w, lsn); (Some(w'), r)
  }

  /** Writes a dirty page out, the log up to its LSN first, and marks it clean. */
  function Flush(s: Pool, p: PageId): (Pool, Result<()>)
    requires p in s.cache ==> NodeIndexed(s.cache[p])
  {
    if p !in s.cache || !IsDirty(s.cache[p]) then (s, Ok(()))
    else
      var n := s.cache[p];
      var (wal', forced) := ForceWal(s.wal, LastLsn(n));
      var s1 := s.(wal := wal');
      if forced.Err? then (s1, forced)
      else
        match Encode(n, Zeros())
        case Err(e) => (s1, Err(e))
        case Ok(image) =>
          if p in s.disk.faulty then (s1, Err(Io))
          else (s1.(disk := s.disk.(pages := s.disk.pages[p := image]),
                    cache := s.cache[p := ClearDirty(n)]), Ok(()))
  }

  /** Evicts the least recently used page nobody holds. It leaves the LRU list before it is
      flushed, so after a failed flush it is cached but no longer tracked. */
  function Evict(s: Pool): (Pool, Result<()>)
    requires PoolWF(s)
  {
    match LastWhere(s.lru, Unpinned(s.pins))
    case None => (s, Err(LruEviction))
    case Some(i) =>
      var victim := s.lru[i];
      var (s1, flushed) := Flush(s.(lru := Drop(s.lru, i)), victim);
      if flushed.Err? then (s1, flushed) else (s1.(cache := s1.cache - {victim}), Ok(()))
  }

  function MakeRoom(s: Pool): (Pool, Result<()>)
    requires PoolWF(s)
  {
    if |s.cache| >= s.capacity then Evict(s) else (s, Ok(()))
  }

  function ReadDisk(d: Disk, p: PageId): Result<Node> {
    if p !in d.pages || p in d.faulty then Err(Io) else Decode(d.pages[p])
  }

  /** Hands out a reference to a page, loading it if needed. */
  function Fetch(s: Pool, p: PageId): (Pool, Result<()>)
    requires PoolWF(s)
  {
    if p in s.cache then (s.(lru := Touch(s.lru, p), pins := s.pins + multiset{p}), Ok(()))
    else
      var (s1, room) := MakeRoom(s);
      if room.Err? then (s1, room)
      else
        EvictKeepsWF(s);
        match ReadDisk(s1.disk, p)
        case Err(e) => (s1, Err(e))
        case Ok(n) =>
          (s1.(cache := s1.cache[p := n], lru := Touch(s1.lru, p), pins := s1.pins + multiset{p}), Ok(()))
  }

  /** Allocates a page and hands out a reference to it; the new node is not marked dirty. */
  function New(s: Pool, isLeaf: bool): (Pool, Result<PageId>)
    requires PoolWF(s)
  {
    var (s1, room) := MakeRoom(s);
    if room.Err? then (s1, Err(room.error)) else Allocate(s1, isLeaf)
  }

  /** Takes the next free page number and caches an empty node there. */
  function Allocate(s: Pool, isLeaf: bool): (Pool, Result<PageId>) {
    var p := s.disk.nextFree;
    if p + PAGE_SIZE >= 0x1_0000_0000_0000_0000 then (s, Err(Panic))
    else
      (s.(disk := s.disk.(nextFree := p + PAGE_SIZE), cache := s.cache[p := EmptyNode(p, isLeaf)],
          lru := Touch(s.lru, p), pins := s.pins + multiset{p}), Ok(p))
  }

  /** Changes a cached page. */
  function Put(s: Pool, p: PageId, n: Node): Pool {
    s.(cache := s.cache[p := n])
  }

  function Release(s: Pool, p: PageId): Pool {
    s.(pins := s.pins - multiset{p})
  }

  /** Flushes the pages of order one after the other until one fails. */
  function FlushEach(s: Pool, order: seq<PageId>): (Pool, Result<()>)
    requires PoolWF(s)
    decreases |order|
  {
    if order == [] then (s, Ok(()))
    else
      var (s1, r) := Flush(s, order[0]);
      if r.Err? then (s1, r)
      else
        FlushKeepsWF(s, order[0]);
        FlushEach(s1, order[1..])
  }

  /** Writing the header syncs the data file. */
  function SaveHeader(s: Pool): (Pool, Result<()>) {
    if s.disk.headerFails then (s, Err(Io)) else (s.(disk := s.disk.(stable := s.disk.pages)), Ok(()))
  }

  /** Flushes every page in the order the hash table happens to list them, then the header. */
  function FlushAll(s: Pool, order: seq<PageId>): (Pool, Result<()>)
    requires PoolWF(s)
  {
    var (s1, r) := FlushEach(s, order);
    if r.Err? then (s1, r) else SaveHeader(s1)
  }

  ghost predicate Lists(order: seq<PageId>, s: Pool) {
    Distinct(order) && forall p :: p in order <==> p in s.cache
  }

  // ----- well-formed pools -----

  ghost predicate DiskWF(d: Disk) {
    forall p :: p in d.pages ==> p < d.nextFree && (Decode(d.pages[p]).Ok? ==> NodeWell(Decode(d.pages[p]).value))
  }

  /** Tracked and held pages are cached, the cache stays within its capacity. */
  ghost predicate PoolWF(s: Pool) {
    && Distinct(s.lru)
    && (forall p :: p in s.lru ==> p in s.cache)
    && (forall p :: p in s.pins ==> p in s.cache)
    && |s.cache| <= s.capacity
    && (forall p :: p in s.cache ==> NodeWell(s.cache[p]) && p < s.disk.nextFree)
    && DiskWF(s.disk)
  }

  lemma WellStays(n: Node, lsn: U64)
    requires NodeWell(n)
    ensures NodeIndexed(n) && NodeWell(ClearDirty(n)) && NodeWell(MarkDirty(n, lsn))
    ensures NodeFits(n) ==> NodeWell(Reloaded(n))
  {
  }

  /** What a flush that writes changes. */
  function Written(s: Pool, p: PageId, wal: Option<Log>): Pool
    requires p in s.cache && NodeIndexed(s.cache[p]) && NodeFits(s.cache[p])
  {
    s.(wal := wal, disk := s.disk.(pages := s.disk.pages[p := Image(s.cache[p], Zeros())]),
       cache := s.cache[p := ClearDirty(s.cache[p])])
  }

  /** The outcome of writing a cached page back once the log allows it. */
  function WriteOutcome(s: Pool, p: PageId): Result<()>
    requires p in s.cache && NodeIndexed(s.cache[p])
  {
    if !NodeFits(s.cache[p]) then Err(PageFull) else if p in s.disk.faulty then Err(Io) else Ok(())
  }

  lemma FlushDirty(s: Pool, p: PageId)
    requires p in s.cache && NodeIndexed(s.cache[p]) && IsDirty(s.cache[p])
    ensures var (wal', forced) := ForceWal(s.wal, LastLsn(s.cache[p]));
            var out := WriteOutcome(s, p);
            Flush(s, p) == if forced.Err? then (s.(wal := wal'), forced)
                           else if out.Err? then (s.(wal := wal'), out)
                           else (Written(s, p, wal'), out)
  {
    hide Image, NodeFits, NodeIndexed;
  }

  /** A flush either only touches the log, or writes the page and cleans it. */
  lemma FlushCases(s: Pool, p: PageId)
    requires p in s.cache ==> NodeIndexed(s.cache[p])
    ensures var (s', r) := Flush(s, p);
            || s' == s.(wal := s'.wal)
            || (r.Ok? && p in s.cache && IsDirty(s.cache[p]) && NodeFits(s.cache[p]) && s' == Written(s, p, s'.wal))
    ensures Flush(s, p).1.Ok? && p in s.cache && IsDirty(s.cache[p]) ==>
            NodeFits(s.cache[p]) && Flush(s, p).0 == Written(s, p, Flush(s, p).0.wal)
    ensures p !in s.cache || !IsDirty(s.cache[p]) ==> Flush(s, p) == (s, Ok(()))
  {
    hide Image, NodeFits, NodeIndexed;
  }

  lemma ImageWell(n: Node)
    requires NodeWell(n) && NodeIndexed(n) && NodeFits(n)
    ensures Decode(Image(n, Zeros())) == Ok(Reloaded(n)) && NodeWell(Reloaded(n)) && NodeWell(ClearDirty(n))
  {
    RoundTrip(n, Zeros());
  }

  lemma WrittenWF(s: Pool, p: PageId, wal: Option<Log>)
    requires PoolWF(s) && p in s.cache && NodeIndexed(s.cache[p]) && NodeFits(s.cache[p])
    ensures PoolWF(Written(s, p, wal))
    ensures Written(s, p, wal).cache.Keys == s.cache.Keys
  {
    hide Image, NodeFits, NodeIndexed, NodeWell, Decode, ClearDirty, Reloaded;
    ImageWell(s.cache[p]);
    assert s.cache[p := ClearDirty(s.cache[p])].Keys == s.cache.Keys;
  }

  lemma FlushKeepsWF(s: Pool, p: PageId)
    requires PoolWF(s)
    ensures PoolWF(Flush(s, p).0)
    ensures Flush(s, p).0.cache.Keys == s.cache.Keys
    ensures Flush(s, p).0.lru == s.lru && Flush(s, p).0.pins == s.pins && Flush(s, p).0.capacity == s.capacity
    ensures Flush(s, p).0.disk.nextFree == s.disk.nextFree && Flush(s, p).0.disk.stable == s.disk.stable
  {
    hide Flush, NodeWell, NodeIndexed, NodeFits, Decode;
    if p in s.cache { WellStays(s.cache[p], 0); }
    FlushCases(s, p);
    if p in s.cache && NodeIndexed(s.cache[p]) && NodeFits(s.cache[p]) {
      WrittenWF(s, p, Flush(s, p).0.wal);
    }
  }

  lemma DroppedWF(s: Pool, p: PageId)
    requires PoolWF(s) && p in s.cache && p !in s.lru && s.pins[p] == 0
    ensures PoolWF(s.(cache := s.cache - {p}))
    ensures |s.cache - {p}| == |s.cache| - 1
  {
    hide NodeWell, Decode;
    var rest := s.cache - {p};
    assert rest.Keys == s.cache.Keys - {p};
    assert |rest.Keys| == |s.cache.Keys| - 1;
  }

  /** What eviction does, when it finds a page nobody holds. */
  lemma EvictCases(s: Pool)
    requires PoolWF(s)
    ensures match LastWhere(s.lru, Unpinned(s.pins))
            case None => Evict(s) == (s, Err(LruEviction))
            case Some(i) =>
              var victim, s0 := s.lru[i], s.(lru := Drop(s.lru, i));
              && victim in s.cache && s.pins[victim] == 0 && victim !in s0.lru && PoolWF(s0)
              && (Flush(s0, victim).1.Err? ==> Evict(s) == Flush(s0, victim))
              && (Flush(s0, victim).1.Ok? ==>
                    && PoolWF(Flush(s0, victim).0)
                    && Evict(s) == (Flush(s0, victim).0.(cache := Flush(s0, victim).0.cache - {victim}), Ok(())))
  {
    hide NodeWell, NodeIndexed, Flush, Drop, Decode;
    var found := LastWhere(s.lru, Unpinned(s.pins));
    if found.Some? {
      DropLaw(s.lru, found.value);
      FlushKeepsWF(s.(lru := Drop(s.lru, found.value)), s.lru[found.value]);
    }
  }

  /** Eviction keeps the pool well-formed even when its flush fails, and never takes a held page. */
  lemma EvictKeepsWF(s: Pool)
    requires PoolWF(s)
    ensures PoolWF(Evict(s).0) && PoolWF(MakeRoom(s).0)
    ensures Evict(s).0.cache.Keys <= s.cache.Keys && Evict(s).0.pins == s.pins
    ensures Evict(s).0.capacity == s.capacity && Evict(s).0.disk.nextFree == s.disk.nextFree
    ensures MakeRoom(s).1.Ok? ==> |MakeRoom(s).0.cache| < s.capacity
    ensures forall p :: p in s.cache && s.pins[p] > 0 ==> p in Evict(s).0.cache
  {
    hide NodeWell, Flush, Drop, Decode, Evict;
    EvictCases(s);
    var found := LastWhere(s.lru, Unpinned(s.pins));
    if found.Some? {
      var victim, s0 := s.lru[found.value], s.(lru := Drop(s.lru, found.value));
      FlushKeepsWF(s0, victim);
      WellStays(s0.cache[victim], 0);
      if Flush(s0, victim).1.Ok? { DroppedWF(Flush(s0, victim).0, victim); }
    }
  }
}
