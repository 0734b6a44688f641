/** When nothing is broken and every page fits, the pool does not fail. */
module PoolProgress {
  import opened Base
  import L = Leaves
  import opened Nodes
  import opened Codec
  import opened Lru
  import opened Wal
  import opened Pools
  import opened PoolLaws

  ghost predicate Sits(n: Node) {
    NodeWell(n) && NodeIndexed(n) && NodeFits(n)
  }

  ghost predicate Works(s: Pool) {
    && s.capacity > 0 && s.disk.faulty == {} && !s.disk.headerFails
    && (s.wal.Some? ==> !s.wal.value.faults.syncFails)
  }

  /** Every page fits, on disk and in the cache, and every cached page but those of loose can be
      evicted. */
  ghost predicate ReadyBut(s: Pool, loose: set<PageId>) {
    && PoolWF(s) && Works(s)
    && (forall p :: p in s.cache ==> (p in loose || p in s.lru) && Sits(s.cache[p]))
    && forall p :: p in s.disk.pages ==> Decode(s.disk.pages[p]).Ok? && Sits(Decode(s.disk.pages[p]).value)
  }

  ghost predicate Ready(s: Pool) {
    ReadyBut(s, {})
  }

  lemma SitsStays(n: Node)
    requires Sits(n)
    ensures Sits(ClearDirty(n)) && Sits(Reloaded(n))
  {
    WellStays(n, 0);
    match n
    case InnerNode(_) =>
    case LeafNode(l) =>
      assert Reloaded(n).leaf.slots == l.slots && Reloaded(n).leaf.records == l.records;
      SameBytes(Reloaded(n), n);
  }

  lemma SameBytes(n': Node, n: Node)
    requires NodeIndexed(n) && n.LeafNode? && n'.LeafNode? && n'.leaf.slots == n.leaf.slots
    requires n'.leaf.records == n.leaf.records
    ensures NodeIndexed(n') && NodeBytes(n') == NodeBytes(n)
  {
    assert L.Ordered(n'.leaf) == L.Ordered(n.leaf);
  }

  lemma WrittenReady(s: Pool, p: PageId, wal: Option<Log>, loose: set<PageId>)
    requires ReadyBut(s, loose) && p in s.cache && NodeIndexed(s.cache[p]) && NodeFits(s.cache[p])
    requires wal.Some? ==> !wal.value.faults.syncFails
    ensures ReadyBut(Written(s, p, wal), loose)
  {
    SitsStays(s.cache[p]);
    ImageWell(s.cache[p]);
    WrittenWF(s, p, wal);
    hide PoolWF, NodeWell, Sits, Decode, Image, NodeFits, NodeIndexed, Reloaded, ClearDirty;
  }

  lemma FlushReady(s: Pool, p: PageId, loose: set<PageId>)
    requires ReadyBut(s, loose)
    ensures p in s.cache ==> NodeIndexed(s.cache[p])
    ensures Flush(s, p).1.Ok? && ReadyBut(Flush(s, p).0, loose)
  {
    if p in s.cache && IsDirty(s.cache[p]) {
      assert Sits(s.cache[p]);
      FlushDirty(s, p);
      WrittenReady(s, p, ForceWal(s.wal, LastLsn(s.cache[p])).0, loose);
      hide PoolWF, Image, Decode, NodeFits, Flush, NodeWell, Sits;
    } else {
      hide PoolWF, Image, Decode, NodeFits;
      if p in s.cache { assert Sits(s.cache[p]); }
    }
  }

  lemma EvictReady(s: Pool, p: PageId)
    requires Ready(s) && p in s.cache && s.pins[p] == 0
    ensures Evict(s).1.Ok? && Ready(Evict(s).0)
  {
    hide PoolWF, NodeWell, NodeIndexed, Flush, Drop, Decode, Sits;
    EvictCases(s);
    EvictKeepsWF(s);
    assert Unpinned(s.pins)(p) && p in s.lru;
    var i := LastWhere(s.lru, Unpinned(s.pins)).value;
    var victim, s0 := s.lru[i], s.(lru := Drop(s.lru, i));
    VictimAside(s, i);
    FlushReady(s0, victim, {victim});
  }

  lemma VictimAside(s: Pool, i: nat)
    requires Ready(s) && i < |s.lru| && PoolWF(s.(lru := Drop(s.lru, i)))
    ensures ReadyBut(s.(lru := Drop(s.lru, i)), {s.lru[i]})
  {
    hide NodeWell, Drop, Decode, Sits;
    DropLaw(s.lru, i);
  }

  /** The cache can take one more page: it is not full, or somebody holds fewer pages than it has. */
  ghost predicate Spare(s: Pool) {
    |s.cache| < s.capacity || exists p :: p in s.cache && s.pins[p] == 0
  }

  lemma SpareUnlessAllHeld(s: Pool, held: set<PageId>)
    requires |held| < s.capacity && forall p :: p in s.cache && s.pins[p] > 0 ==> p in held
    ensures Spare(s)
  {
    if forall p :: p in s.cache ==> s.pins[p] > 0 {
      SubsetCount(s.cache.Keys, held);
    }
  }

  lemma SpareIfNothingHeld(s: Pool)
    requires Ready(s) && s.pins == multiset{}
    ensures Spare(s)
  {
    SpareUnlessAllHeld(s, {});
  }

  /** While the cache can take one more page, every page that is cached or on disk can be fetched. */
  lemma FetchReady(s: Pool, p: PageId)
    requires Ready(s) && Spare(s) && (p in s.cache || p in s.disk.pages)
    ensures Fetch(s, p).1.Ok? && Ready(Fetch(s, p).0)
  {
    hide PoolWF, NodeWell, NodeIndexed, Decode, Sits, Evict, Touch;
    FetchKeepsWF(s, p);
    TouchLaw0(s, p);
    if p !in s.cache {
      RoomReady(s);
      RoomKeepsPages(s, p);
      var s1 := MakeRoom(s).0;
      EvictKeepsWF(s);
      TouchLaw0(s1, p);
    }
  }

  /** The one way a cache full of pages refuses an uncached page for good: no page that is tracked is
      free. A page whose flush failed is cached but not tracked, so this can be with nothing held and
      the disk repaired. Nothing changes then, and it stays so until a reference to a tracked page is
      given back, or an untracked page is fetched, which tracks it again. */
  lemma StuckIffNoneTracked(s: Pool, p: PageId)
    requires PoolWF(s)
    ensures Fetch(s, p).1 == Err(LruEviction) <==>
              p !in s.cache && |s.cache| >= s.capacity && forall q :: q in s.lru ==> s.pins[q] > 0
    ensures Fetch(s, p).1 == Err(LruEviction) ==> Fetch(s, p).0 == s
    ensures p in s.cache ==> Fetch(s, p).1.Ok? && p in Fetch(s, p).0.lru
  {
    hide PoolWF, NodeWell, NodeIndexed, Evict, Flush, Drop, ReadDisk, Touch;
    TouchLaw0(s, p);
    EvictCases(s);
    var found := LastWhere(s.lru, Unpinned(s.pins));
    if found.Some? {
      var victim, s0 := s.lru[found.value], s.(lru := Drop(s.lru, found.value));
      assert Unpinned(s.pins)(victim) && victim in s.lru;
      CachedIndexed(s0);
      FlushErrors(s0, victim);
    } else {
      forall q | q in s.lru ensures s.pins[q] > 0 {
        var i :| 0 <= i < |s.lru| && s.lru[i] == q;
        assert !Unpinned(s.pins)(s.lru[i]);
      }
    }
    if p !in s.cache && MakeRoom(s).1.Ok? { ReadErrors(MakeRoom(s).0.disk, p); }
  }

  lemma FlushErrors(s: Pool, p: PageId)
    requires p in s.cache ==> NodeIndexed(s.cache[p])
    ensures Flush(s, p).1 != Err(LruEviction)
  {
    hide NodeIndexed, Image;
  }

  lemma ReadErrors(d: Disk, p: PageId)
    ensures ReadDisk(d, p).Err? ==> ReadDisk(d, p).error != LruEviction
  {
  }

  lemma TouchLaw0(s: Pool, p: PageId)
    requires PoolWF(s)
    ensures forall q :: q in Touch(s.lru, p) <==> q == p || q in s.lru
  {
    TouchLaw(s.lru, p);
  }

  lemma RoomReady(s: Pool)
    requires Ready(s) && Spare(s)
    ensures MakeRoom(s).1.Ok? && Ready(MakeRoom(s).0)
  {
    hide PoolWF, NodeWell, NodeIndexed, Decode, Sits, Evict;
    if |s.cache| >= s.capacity {
      var q :| q in s.cache && s.pins[q] == 0;
      EvictReady(s, q);
    }
  }

  lemma RoomKeepsPages(s: Pool, p: PageId)
    requires PoolWF(s) && p in s.disk.pages
    ensures p in MakeRoom(s).0.disk.pages
  {
    hide NodeWell, Decode, Image;
  }

  /** While the cache can take one more page and the file has page numbers left, a new page can be made.
      It can be evicted like any other once it is let go of. */
  lemma NewReady(s: Pool, isLeaf: bool)
    requires Ready(s) && Spare(s) && s.disk.nextFree + PAGE_SIZE < 0x1_0000_0000_0000_0000
    ensures var (s', r) := New(s, isLeaf);
            && r == Ok(s.disk.nextFree) && s'.disk.nextFree == s.disk.nextFree + PAGE_SIZE
            && Ready(s') && Ready(Release(s', r.value)) && s'.capacity == s.capacity
  {
    hide PoolWF, NodeWell, NodeIndexed, Decode, Sits, Evict, Touch, EmptyNode;
    RoomReady(s);
    EvictKeepsWF(s);
    var s1 := MakeRoom(s).0;
    NewKeepsWF(s, isLeaf);
    AllocateKeepsWF(s1, isLeaf);
    EmptySits(s1.disk.nextFree, isLeaf);
    hide MakeRoom;
    AllocatedReady(s1, isLeaf);
    ReleaseReady(New(s, isLeaf).0, s.disk.nextFree);
  }

  lemma EmptySits(p: PageId, isLeaf: bool)
    ensures Sits(EmptyNode(p, isLeaf))
  {
    EmptyWell(p, isLeaf);
    EmptyIsBlank(p, isLeaf);
  }

  lemma AllocatedReady(s: Pool, isLeaf: bool)
    requires Ready(s) && |s.cache| < s.capacity && Allocate(s, isLeaf).1.Ok?
    ensures Ready(Allocate(s, isLeaf).0)
  {
    hide PoolWF, NodeWell, NodeIndexed, Decode, Sits, Touch, EmptyNode;
    AllocateKeepsWF(s, isLeaf);
    EmptySits(s.disk.nextFree, isLeaf);
  }

  lemma ReleaseReady(s: Pool, p: PageId)
    requires Ready(s)
    ensures Ready(Release(s, p))
  {
    hide NodeWell, Decode, Sits;
  }

  lemma PutReady(s: Pool, p: PageId, n: Node)
    requires Ready(s) && p in s.cache && Sits(n)
    ensures Ready(s.(cache := s.cache[p := n]))
  {
    ReplacedWF(s, p, n);
    hide PoolWF, NodeWell, Decode, Sits;
  }

  lemma {:induction false} FlushEachReady(s: Pool, order: seq<PageId>)
    requires Ready(s)
    ensures FlushEach(s, order).1.Ok? && Ready(FlushEach(s, order).0)
    decreases |order|
  {
    hide PoolWF, NodeWell, Decode, Sits, Flush;
    if order != [] {
      FlushReady(s, order[0], {});
      FlushKeepsWF(s, order[0]);
      FlushEachReady(Flush(s, order[0]).0, order[1..]);
    }
  }
}
