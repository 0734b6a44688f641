/** The buffer pool is transparent: through every run it shows the content of a plain page map. */
module PoolLaws {
  import opened Base
  import opened Nodes
  import opened Codec
  import opened Lru
  import opened Wal
  import opened Pools

  // ----- well-formedness of the remaining operations -----

  lemma DiskPageWell(s: Pool, p: PageId)
    requires PoolWF(s) && ReadDisk(s.disk, p).Ok?
    ensures p < s.disk.nextFree && NodeWell(ReadDisk(s.disk, p).value)
  {
  }

  lemma CachedNodeWell(s: Pool, p: PageId)
    requires PoolWF(s) && p in s.cache
    ensures NodeWell(s.cache[p])
  {
  }

  lemma NextFreeIsNew(s: Pool)
    requires PoolWF(s)
    ensures s.disk.nextFree !in s.cache && s.disk.nextFree !in s.disk.pages
  {
  }

  lemma AddedWF(s: Pool, p: PageId, n: Node)
    requires PoolWF(s) && |s.cache| < s.capacity && p !in s.cache
    requires NodeWell(n) && p < s.disk.nextFree
    ensures PoolWF(s.(cache := s.cache[p := n]))
  {
    hide NodeWell, Decode;
    assert s.cache[p := n].Keys == s.cache.Keys + {p};
  }

  lemma CachedWF(s: Pool, p: PageId, n: Node)
    requires PoolWF(s) && |s.cache| < s.capacity && p !in s.cache
    requires NodeWell(n) && p < s.disk.nextFree
    ensures PoolWF(s.(cache := s.cache[p := n], lru := Touch(s.lru, p), pins := s.pins + multiset{p}))
  {
    hide NodeWell, Decode, Touch;
    TouchLaw(s.lru, p);
    assert s.cache[p := n].Keys == s.cache.Keys + {p};
  }

  lemma ReplacedWF(s: Pool, p: PageId, n: Node)
    requires PoolWF(s) && p in s.cache && NodeWell(n)
    ensures PoolWF(s.(cache := s.cache[p := n]))
  {
    hide NodeWell, Decode;
    assert s.cache[p := n].Keys == s.cache.Keys;
  }

  /** There is always a slot for a cached page, or for one more page when the cache has room: the
      replacer's capacity assertion cannot fail. */
  lemma ReplacerHasRoom(s: Pool, p: PageId)
    requires PoolWF(s) && (p in s.cache || |s.cache| < s.capacity)
    ensures p in s.lru || |s.lru| < s.capacity
  {
    var tracked := set q | q in s.lru;
    SeqCount(s.lru, tracked);
    if p in s.cache && p !in s.lru {
      SubsetCount(tracked, s.cache.Keys - {p});
    } else {
      SubsetCount(tracked, s.cache.Keys);
    }
  }

  lemma WalKeepsWF(s: Pool, wal: Option<Log>)
    requires PoolWF(s)
    ensures PoolWF(s.(wal := wal))
  {
    hide NodeWell, Decode;
  }

  lemma DiskKeepsWF(s: Pool, disk: Disk)
    requires PoolWF(s) && disk.pages == s.disk.pages && disk.nextFree == s.disk.nextFree
    ensures PoolWF(s.(disk := disk))
  {
    hide NodeWell, Decode;
  }

  lemma OutcomeSame(s: Pool, s': Pool, p: PageId)
    requires p in s.cache && NodeIndexed(s.cache[p]) && s' == s.(wal := s'.wal)
    ensures WriteOutcome(s', p) == WriteOutcome(s, p)
    ensures NodeFits(s.cache[p]) ==> Written(s', p, s'.wal) == Written(s, p, s'.wal)
  {
  }

  lemma TouchedWF(s: Pool, p: PageId)
    requires PoolWF(s) && p in s.cache
    ensures PoolWF(s.(lru := Touch(s.lru, p), pins := s.pins + multiset{p}))
  {
    hide NodeWell, Decode, Touch;
    TouchLaw(s.lru, p);
  }

  /** A fetch that succeeds leaves the page cached, most recently used and held once more. */
  lemma FetchKeepsWF(s: Pool, p: PageId)
    requires PoolWF(s)
    ensures PoolWF(Fetch(s, p).0)
    ensures Fetch(s, p).1.Ok? ==>
              && p in Fetch(s, p).0.cache && Fetch(s, p).0.pins == s.pins + multiset{p}
              && Fetch(s, p).0.lru[..1] == [p]
    ensures Fetch(s, p).1.Err? ==> Fetch(s, p).0.pins == s.pins
    ensures forall q :: q in s.cache && s.pins[q] > 0 ==> q in Fetch(s, p).0.cache
  {
    hide NodeWell, Decode, Touch, Evict;
    TouchLaw(s.lru, p);
    EvictKeepsWF(s);
    var s1 := MakeRoom(s).0;
    if p !in s.cache && MakeRoom(s).1.Ok? && ReadDisk(s1.disk, p).Ok? {
      TouchLaw(s1.lru, p);
      assert p !in s1.cache && p in s1.disk.pages;
      CachedWF(s1, p, ReadDisk(s1.disk, p).value);
    }
  }

  lemma EmptyWell(p: PageId, isLeaf: bool)
    ensures NodeWell(EmptyNode(p, isLeaf)) && !IsDirty(EmptyNode(p, isLeaf))
  {
  }

  /** A new node knows its page, has seen no LSN, links nowhere and holds nothing. */
  lemma EmptyIsBlank(p: PageId, isLeaf: bool)
    ensures var n := EmptyNode(p, isLeaf);
            && (n.LeafNode? <==> isLeaf) && LastLsn(n) == 0 && NodeIndexed(n) && NodeFits(n)
            && (isLeaf ==> n.leaf.pageId == p && !n.leaf.hasPrev && !n.leaf.hasNext
                           && n.leaf.prevId == 0 && n.leaf.nextId == 0
                           && n.leaf.slots == [] && n.leaf.records == [] && n.leaf.freeSize == 0)
            && (!isLeaf ==> n.inner.pageId == p && n.inner.rightmost == 0
                            && n.inner.slots == [] && n.inner.entries == [] && n.inner.freeSize == 0)
  {
  }

  lemma GrownDiskWF(s: Pool, nextFree: U64)
    requires PoolWF(s) && s.disk.nextFree <= nextFree
    ensures PoolWF(s.(disk := s.disk.(nextFree := nextFree)))
  {
    hide NodeWell, Decode;
  }

  lemma NewKeepsWF(s: Pool, isLeaf: bool)
    requires PoolWF(s)
    ensures var (s', r) := New(s, isLeaf);
            && PoolWF(s')
            && (r.Ok? ==> r.value in s'.cache && r.value !in s.cache && r.value !in s'.disk.pages
                          && s'.cache[r.value] == EmptyNode(r.value, isLeaf)
                          && s'.pins == s.pins + multiset{r.value} && s'.lru[..1] == [r.value])
            && (r.Err? ==> s'.pins == s.pins)
            && forall q :: q in s.cache && s.pins[q] > 0 ==> q in s'.cache
  {
    hide PoolWF, Allocate, Evict;
    EvictKeepsWF(s);
    if MakeRoom(s).1.Ok? { AllocateKeepsWF(MakeRoom(s).0, isLeaf); }
    NewIsNew(s, isLeaf);
  }

  lemma AllocateKeepsWF(s: Pool, isLeaf: bool)
    requires PoolWF(s) && |s.cache| < s.capacity
    ensures var (s', r) := Allocate(s, isLeaf);
            && PoolWF(s')
            && (r.Ok? ==> r.value == s.disk.nextFree && s'.cache == s.cache[r.value := EmptyNode(r.value, isLeaf)]
                          && r.value !in s'.disk.pages && s'.pins == s.pins + multiset{r.value}
                          && s'.lru[..1] == [r.value] && forall q :: q in s'.lru <==> q == r.value || q in s.lru)
            && (r.Err? ==> s' == s)
  {
    hide NodeWell, Decode, Touch, EmptyNode;
    if Allocate(s, isLeaf).1.Ok? {
      var p := s.disk.nextFree;
      GrownDiskWF(s, p + PAGE_SIZE);
      EmptyWell(p, isLeaf);
      NextFreeIsNew(s);
      FrontOf(s.lru, p);
      CachedWF(s.(disk := s.disk.(nextFree := p + PAGE_SIZE)), p, EmptyNode(p, isLeaf));
    }
  }

  lemma FrontOf(lru: seq<PageId>, p: PageId)
    requires Distinct(lru)
    ensures Touch(lru, p)[..1] == [p] && forall q :: q in Touch(lru, p) <==> q == p || q in lru
  {
    TouchLaw(lru, p);
  }

  lemma NewIsNew(s: Pool, isLeaf: bool)
    requires PoolWF(s)
    ensures New(s, isLeaf).1.Ok? ==> New(s, isLeaf).1.value !in s.cache
  {
    hide NodeWell, Decode, Evict;
    EvictKeepsWF(s);
  }

  // ----- content -----

  /** What a disk page holds, counters and flags aside. */
  function DiskContent(pages: map<PageId, PageImage>, p: PageId): Option<Node> {
    if p in pages && Decode(pages[p]).Ok? then Some(Norm(Decode(pages[p]).value)) else None
  }

  /** The content of a page as a reader of the pool would find it. */
  function Content(s: Pool, p: PageId): Option<Node> {
    if p in s.cache then Some(Norm(s.cache[p])) else DiskContent(s.disk.pages, p)
  }

  /** Every clean cached page that nobody holds equals its disk image. */
  ghost predicate Coherent(s: Pool) {
    forall p :: p in s.cache && !IsDirty(s.cache[p]) && s.pins[p] == 0 ==>
      DiskContent(s.disk.pages, p) == Some(Norm(s.cache[p]))
  }

  ghost predicate SameContent(s: Pool, s': Pool) {
    forall p :: Content(s', p) == Content(s, p)
  }

  /** Letting go of a page is not observable. */
  lemma ReleaseShows(s: Pool, p: PageId)
    ensures SameContent(s, Release(s, p))
  {
  }

  lemma NormLaws(n: Node)
    ensures Norm(ClearDirty(n)) == Norm(n)
    ensures NodeIndexed(n) && NodeFits(n) ==> Norm(Reloaded(n)) == Norm(n)
    ensures !IsDirty(ClearDirty(n))
  {
  }

  /** Writing a page back is not observable. */
  lemma WrittenContent(s: Pool, p: PageId, wal: Option<Log>)
    requires PoolWF(s) && p in s.cache && NodeIndexed(s.cache[p]) && NodeFits(s.cache[p])
    ensures SameContent(s, Written(s, p, wal))
    ensures Coherent(s) ==> Coherent(Written(s, p, wal))
    ensures DiskContent(Written(s, p, wal).disk.pages, p) == Some(Norm(s.cache[p]))
  {
    hide Image, NodeFits, NodeIndexed, NodeWell, Decode, ClearDirty, Reloaded, Norm, IsDirty;
    ImageWell(s.cache[p]);
    NormLaws(s.cache[p]);
  }

  lemma FlushContent(s: Pool, p: PageId)
    requires PoolWF(s)
    ensures var (s', r) := Flush(s, p);
            && SameContent(s, s')
            && (Coherent(s) ==> Coherent(s'))
            && (r.Ok? && p in s.cache && IsDirty(s.cache[p])
                ==> DiskContent(s'.disk.pages, p) == Some(Norm(s.cache[p])))
            && (r.Ok? && p in s.cache ==> !IsDirty(s'.cache[p]))
  {
    hide Flush, NodeWell, NodeIndexed, NodeFits, Decode, Norm, ClearDirty;
    if p in s.cache {
      WellStays(s.cache[p], 0);
      NormLaws(s.cache[p]);
    }
    FlushCases(s, p);
    if p in s.cache && NodeIndexed(s.cache[p]) && NodeFits(s.cache[p]) {
      WrittenContent(s, p, Flush(s, p).0.wal);
    }
  }

  lemma DroppedContent(s: Pool, p: PageId)
    requires p in s.cache
    ensures var s' := s.(cache := s.cache - {p});
            && (forall q :: q != p ==> Content(s', q) == Content(s, q))
            && Content(s', p) == DiskContent(s.disk.pages, p)
            && (Coherent(s) ==> Coherent(s'))
  {
    hide Decode, Norm;
  }

  /** Eviction drops a page exactly as its disk image has it: unobservable when the page was dirty
      or agreed with its image, a loss when it was a new page nobody marked dirty. */
  lemma EvictContent(s: Pool)
    requires PoolWF(s) && Evict(s).1.Ok?
    ensures var p := s.lru[LastWhere(s.lru, Unpinned(s.pins)).value];
            && p in s.cache && s.pins[p] == 0
            && (forall q :: q != p ==> Content(Evict(s).0, q) == Content(s, q))
            && (Content(Evict(s).0, p) == Content(s, p) <==>
                  IsDirty(s.cache[p]) || DiskContent(s.disk.pages, p) == Some(Norm(s.cache[p])))
            && (Coherent(s) ==> Coherent(Evict(s).0))
  {
    hide NodeWell, NodeIndexed, Flush, Drop, Decode, Evict, Norm;
    EvictCases(s);
    var i := LastWhere(s.lru, Unpinned(s.pins)).value;
    var p, s0 := s.lru[i], s.(lru := Drop(s.lru, i));
    WellStays(s0.cache[p], 0);
    FlushKeepsWF(s0, p);
    FlushContent(s0, p);
    FlushCases(s0, p);
    assert SameContent(s, s0) && (Coherent(s) ==> Coherent(s0));
    DroppedContent(Flush(s0, p).0, p);
  }

  lemma RoomContent(s: Pool)
    requires PoolWF(s) && Coherent(s)
    ensures SameContent(s, MakeRoom(s).0) && Coherent(MakeRoom(s).0)
  {
    hide NodeWell, NodeIndexed, Flush, Drop, Decode, Evict, Norm;
    if |s.cache| >= s.capacity {
      if Evict(s).1.Ok? {
        EvictContent(s);
      } else {
        EvictFails(s);
      }
    }
  }

  lemma EvictFails(s: Pool)
    requires PoolWF(s) && Evict(s).1.Err?
    ensures SameContent(s, Evict(s).0) && (Coherent(s) ==> Coherent(Evict(s).0))
  {
    hide NodeWell, NodeIndexed, Flush, Drop, Decode, Evict, Norm;
    EvictCases(s);
    var found := LastWhere(s.lru, Unpinned(s.pins));
    if found.Some? {
      var s0 := s.(lru := Drop(s.lru, found.value));
      assert SameContent(s, s0) && (Coherent(s) ==> Coherent(s0));
      FlushContent(s0, s.lru[found.value]);
    }
  }

  /** Fetching shows the content of the page and changes no content at all. */
  lemma FetchContent(s: Pool, p: PageId)
    requires PoolWF(s) && Coherent(s)
    ensures SameContent(s, Fetch(s, p).0) && Coherent(Fetch(s, p).0)
    ensures Fetch(s, p).1.Ok? ==> p in Fetch(s, p).0.cache && Content(s, p) == Some(Norm(Fetch(s, p).0.cache[p]))
  {
    hide NodeWell, Decode, Touch, Evict, Norm;
    FetchKeepsWF(s, p);
    EvictKeepsWF(s);
    RoomContent(s);
    var s1 := MakeRoom(s).0;
    if p !in s.cache && MakeRoom(s).1.Ok? && ReadDisk(s1.disk, p).Ok? {
      assert p !in s1.cache;
      assert Content(s1, p) == Some(Norm(ReadDisk(s1.disk, p).value));
    }
  }

  /** A new page is empty; no other content changes. */
  lemma NewContent(s: Pool, isLeaf: bool)
    requires PoolWF(s) && Coherent(s)
    ensures var (s', r) := New(s, isLeaf);
            && Coherent(s')
            && (r.Err? ==> SameContent(s, s'))
            && (r.Ok? ==>
                  && Content(s, r.value) == None
                  && Content(s', r.value) == Some(Norm(EmptyNode(r.value, isLeaf)))
                  && forall q :: q != r.value ==> Content(s', q) == Content(s, q))
  {
    hide NodeWell, Decode, Touch, Evict, Norm;
    NewKeepsWF(s, isLeaf);
    EvictKeepsWF(s);
    RoomContent(s);
  }

  lemma CachedIndexed(s: Pool)
    requires PoolWF(s)
    ensures forall p :: p in s.cache ==> NodeIndexed(s.cache[p])
  {
  }

  lemma FlushEachKeeps(s: Pool, order: seq<PageId>)
    requires PoolWF(s)
    ensures var (s', r) := FlushEach(s, order);
            && PoolWF(s') && SameContent(s, s') && (Coherent(s) ==> Coherent(s'))
            && s'.cache.Keys == s.cache.Keys && s'.lru == s.lru && s'.pins == s.pins
            && (forall p :: p in s.cache && !IsDirty(s.cache[p]) ==> !IsDirty(s'.cache[p]))
            && (r.Ok? ==> forall p :: p in order && p in s'.cache ==> !IsDirty(s'.cache[p]))
    decreases |order|
  {
    hide NodeWell, NodeIndexed, Flush, Decode, Norm, IsDirty;
    if order != [] {
      CachedIndexed(s);
      FlushKeepsWF(s, order[0]);
      FlushContent(s, order[0]);
      FlushKeepsClean(s, order[0]);
      if Flush(s, order[0]).1.Ok? {
        FlushEachKeeps(Flush(s, order[0]).0, order[1..]);
      }
    }
  }

  lemma FlushKeepsClean(s: Pool, p: PageId)
    requires PoolWF(s)
    ensures forall q :: q in s.cache && !IsDirty(s.cache[q])
              ==> q in Flush(s, p).0.cache && !IsDirty(Flush(s, p).0.cache[q])
  {
    hide NodeWell, NodeIndexed, NodeFits, Decode;
    if p in s.cache { WellStays(s.cache[p], 0); }
  }
}
