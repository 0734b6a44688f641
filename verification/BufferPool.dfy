/** The buffer pool as the object the code mutates, proved equal to the functions of module Pools. */
module BufferPools {
  import opened Base
  import opened Nodes
  import opened Codec
  import opened PageIO
  import opened Lru
  import opened Wal
  import opened P = Pools
  import opened PoolLaws

  class DiskManager {
    var pages: map<PageId, PageImage>
    var stable: map<PageId, PageImage>
    var nextFreeOffset: U64
    var faulty: set<PageId>
    var headerFails: bool

    function Value(): Disk
      reads this
    {
      P.Disk(pages, stable, nextFreeOffset, faulty, headerFails)
    }

    constructor (d: Disk)
      ensures Value() == d
    {
      pages, stable, nextFreeOffset := d.pages, d.stable, d.nextFree;
      faulty, headerFails := d.faulty, d.headerFails;
    }

    method ReadPage(p: PageId) returns (r: Result<PageImage>)
      ensures r == if p !in pages || p in faulty then Err(Io) else Ok(pages[p])
    {
      r := if p !in pages || p in faulty then Err(Io) else Ok(pages[p]);
    }

    method WritePage(p: PageId, page: array<Byte>) returns (r: Result<()>)
      requires page.Length == PAGE_SIZE
      modifies this`pages
      ensures if p in faulty then r == Err(Io) && pages == old(pages)
              else r == Ok(()) && pages == old(pages)[p := page[..]]
    {
      if p in faulty { return Err(Io); }
      pages := pages[p := page[..]];
      r := Ok(());
    }

    /** The next free offset; None where adding to it would overflow. */
    method AllocatePage() returns (r: Option<PageId>)
      modifies this`nextFreeOffset
      ensures var next := old(nextFreeOffset) + PAGE_SIZE;
              if next >= 0x1_0000_0000_0000_0000 then r == None && nextFreeOffset == old(nextFreeOffset)
              else r == Some(old(nextFreeOffset)) && nextFreeOffset == next
    {
      if nextFreeOffset + PAGE_SIZE >= 0x1_0000_0000_0000_0000 { return None; }
      r := Some(nextFreeOffset);
      nextFreeOffset := nextFreeOffset + PAGE_SIZE;
    }

    method SaveHeader() returns (r: Result<()>)
      modifies this`stable
      ensures if headerFails then r == Err(Io) && stable == old(stable)
              else r == Ok(()) && stable == pages
    {
      if headerFails { return Err(Io); }
      stable := pages;
      r := Ok(());
    }
  }

  /** Pages in both tables have the same frames. */
  ghost predicate SameFrames(a: map<PageId, PageRef>, b: map<PageId, PageRef>) {
    forall p :: p in a && p in b ==> a[p] == b[p]
  }

  /** Table b has lost some pages of a and may have gained page p. */
  ghost predicate Follows(a: map<PageId, PageRef>, b: map<PageId, PageRef>, p: PageId) {
    SameFrames(a, b) && b.Keys <= a.Keys + {p}
  }

  lemma KeepsThenAdds(a: map<PageId, PageRef>, b: map<PageId, PageRef>, p: PageId, frame: PageRef)
    requires SameFrames(a, b) && b.Keys <= a.Keys && p !in a
    ensures Follows(a, b[p := frame], p) && Follows(a, b, p)
  {
  }

  lemma FailedFetchAddsNothing(s: Pool, p: PageId)
    requires PoolWF(s)
    ensures Fetch(s, p).1.Err? && p !in s.cache ==> p !in Fetch(s, p).0.cache
  {
    hide PoolWF, Evict, Decode, Touch;
    EvictKeepsWF(s);
  }

  class BufferPool {
    const disk: DiskManager
    const replacer: LruReplacer
    var pageTable: map<PageId, PageRef>
    const capacity: nat
    const walFlusher: WalManager?
    var pins: multiset<PageId>  // the references handed out, by page

    ghost function Frames(): set<object>
      reads this
    {
      set p | p in pageTable :: pageTable[p].Obj()
    }

    /** Every object the pool is made of. */
    ghost function Repr(): set<object?>
      reads this
    {
      {this, disk, replacer, walFlusher} + Frames()
    }

    ghost predicate Apart()
      reads this
    {
      forall p, q :: p in pageTable && q in pageTable && p != q ==> pageTable[p].Obj() != pageTable[q].Obj()
    }

    ghost function Cached(): (m: map<PageId, Node>)
      reads this, Frames()
      ensures m.Keys == pageTable.Keys && forall p :: p in pageTable ==> m[p] == pageTable[p].Value()
    {
      map p | p in pageTable :: pageTable[p].Value()
    }

    ghost function State(): Pool
      requires replacer.Linked()
      reads this, disk, replacer, walFlusher, Frames()
    {
      P.Pool(Cached(), replacer.Recency(), pins, capacity, disk.Value(),
             if walFlusher == null then None else Some(walFlusher.Value()))
    }

    ghost predicate Valid()
      reads this, disk, replacer, walFlusher, Frames()
    {
      replacer.Valid() && replacer.capacity == capacity && Apart() && PoolWF(State())
    }

    constructor (disk: DiskManager, capacity: nat, wal: WalManager?)
      requires DiskWF(disk.Value())
      ensures Valid() && this.disk == disk && this.walFlusher == wal && fresh(replacer)
      ensures State() == P.Pool(map[], [], multiset{}, capacity, disk.Value(),
                                if wal == null then None else Some(wal.Value()))
    {
      this.disk, this.capacity, this.walFlusher := disk, capacity, wal;
      replacer := new LruReplacer(capacity);
      pageTable, pins := map[], multiset{};
    }

    twostate lemma CachedChanged(p: PageId)
      requires old(Apart()) && p in pageTable && unchanged(this)
      requires forall o :: o in old(Frames()) && o != pageTable[p].Obj() ==> unchanged(o)
      ensures Cached() == old(Cached())[p := pageTable[p].Value()]
    {
      forall q | q in pageTable && q != p ensures pageTable[q].Value() == old(pageTable[q].Value()) {
        assert pageTable[q].Obj() in old(Frames());
      }
    }

    /** The pool's own parts are no nodes. */
    lemma FramesAreNodes()
      ensures this !in Frames() && disk !in Frames() && replacer !in Frames()
      ensures walFlusher == null || walFlusher !in Frames()
    {
    }

    lemma LogsAreNoFrames(w: WalManager)
      ensures w !in Frames()
    {
    }

    twostate lemma CachedSame()
      requires unchanged(this) && forall o :: o in old(Frames()) ==> unchanged(o)
      ensures Cached() == old(Cached())
    {
      forall q | q in pageTable ensures pageTable[q].Value() == old(pageTable[q].Value()) {
        assert pageTable[q].Obj() in old(Frames());
      }
    }

    /** After a change to nothing but the node of page p, only its entry of the state differs. */
    twostate lemma NodeChanged(p: PageId)
      requires old(Valid()) && p in pageTable
      requires unchanged(this) && unchanged(disk) && unchanged(replacer)
      requires walFlusher != null ==> unchanged(walFlusher)
      requires forall o :: o in old(Frames()) && o != pageTable[p].Obj() ==> unchanged(o)
      ensures replacer.Valid() && Apart()
      ensures State() == old(State()).(cache := old(State()).cache[p := pageTable[p].Value()])
      ensures NodeWell(pageTable[p].Value()) ==> Valid()
    {
      hide NodeWell, PoolWF;
      CachedChanged(p);
      if NodeWell(pageTable[p].Value()) {
        ReplacedWF(old(State()), p, pageTable[p].Value());
      }
    }

    /** All frames of the table are old ones or new objects, whatever fetches brought in. */
    twostate lemma FreshFrames(p: PageId)
      requires Follows(old(pageTable), pageTable, p)
      requires p in pageTable && p !in old(pageTable) ==> fresh(pageTable[p].Obj())
      ensures forall o :: o in Frames() ==> o in old(Frames()) || fresh(o)
    {
      forall x | x in pageTable ensures fresh(pageTable[x].Obj()) || pageTable[x].Obj() in old(Frames()) {
        if x in old(pageTable) { assert old(pageTable[x].Obj()) in old(Frames()); }
      }
    }

    /** After a change to nothing but the nodes of pages p and q. */
    twostate lemma PairChanged(pair: (PageId, PageId))
      requires old(Valid()) && pair.0 in pageTable && pair.1 in pageTable && pair.0 != pair.1
      requires unchanged(this) && unchanged(disk) && unchanged(replacer)
      requires walFlusher != null ==> unchanged(walFlusher)
      requires forall x :: x in pageTable && x != pair.0 && x != pair.1
                 ==> pageTable[x].Value() == old(pageTable[x].Value())
      ensures replacer.Valid() && Apart()
      ensures State() == Put(Put(old(State()), pair.0, pageTable[pair.0].Value()), pair.1, pageTable[pair.1].Value())
      ensures NodeWell(pageTable[pair.0].Value()) && NodeWell(pageTable[pair.1].Value()) ==> Valid()
    {
      var (p, q) := pair;
      hide NodeWell, PoolWF, LruReplacer.Valid, LruReplacer.Linked, LruReplacer.Recency;
      var s, np, nq := old(State()), pageTable[p].Value(), pageTable[q].Value();
      assert Cached() == old(Cached())[p := np][q := nq];
      if NodeWell(np) && NodeWell(nq) {
        ReplacedWF(s, p, np);
        ReplacedWF(Put(s, p, np), q, nq);
      }
    }

    // ----- flushing -----

    /** Writes a page out if it is dirty, the log first. */
    method FlushPage(p: PageId) returns (r: Result<()>)
      requires Valid()
      modifies Repr()
      ensures Valid() && pageTable == old(pageTable)
      ensures (CachedIndexed(old(State())); (State(), r) == Flush(old(State()), p))
    {
      hide PoolWF, NodeWell, NodeIndexed, NodeFits, WriteOutcome, Written, Flush, IsDirty, ForceWal;
      hide LruReplacer.Valid, LruReplacer.Linked, LruReplacer.Recency;
      ghost var s := State();
      CachedIndexed(s);
      FlushKeepsWF(s, p);
      FlushCases(s, p);
      if p !in pageTable { return Ok(()); }
      var frame := pageTable[p];
      assert s.cache[p] == frame.Value();
      var dirty := IsDirty(frame.Value());
      if !dirty { return Ok(()); }
      FlushDirty(s, p);
      var forced := ForceLog(LastLsn(frame.Value()));
      if forced.Err? { return forced; }
      OutcomeSame(s, State(), p);
      ghost var s1 := State();
      r := WriteBack(p, frame);
      assert State() == if r.Ok? then Written(s, p, s1.wal) else s1;
    }

    method ForceLog(lsn: U64) returns (r: Result<()>)
      requires Valid()
      modifies walFlusher
      ensures Valid()
      ensures State() == old(State()).(wal := ForceWal(old(State()).wal, lsn).0)
      ensures r == ForceWal(old(State()).wal, lsn).1
    {
      hide PoolWF;
      ghost var s := State();
      if walFlusher == null { return Ok(()); }
      r := walFlusher.ForceUpto(lsn);
      CachedSame();
      WalKeepsWF(s, State().wal);
    }

    /** Encodes a node into a fresh buffer and writes it to disk. */
    method WriteImage(p: PageId, frame: PageRef) returns (r: Result<()>)
      requires NodeIndexed(frame.Value())
      modifies disk`pages
      ensures r == if !NodeFits(frame.Value()) then Err(PageFull) else if p in disk.faulty then Err(Io) else Ok(())
      ensures disk.pages == if r.Ok? then old(disk.pages)[p := Image(frame.Value(), Zeros())] else old(disk.pages)
    {
      hide NodeFits, NodeIndexed, Image;
      var rawPage := new Byte[PAGE_SIZE](_ => 0);
      assert rawPage[..] == Zeros();
      r := EncodeNode(frame, rawPage);
      if r.Err? { return; }
      r := disk.WritePage(p, rawPage);
    }

    /** Writes a cached page back and clears its dirty flag. */
    method WriteBack(p: PageId, frame: PageRef) returns (r: Result<()>)
      requires Valid() && p in pageTable && pageTable[p] == frame
      modifies disk, frame.Obj()
      ensures Valid()
      ensures p in old(State()).cache && NodeIndexed(old(State()).cache[p])
      ensures r == WriteOutcome(old(State()), p)
      ensures State() == if r.Ok? then Written(old(State()), p, old(State()).wal) else old(State())
    {
      hide PoolWF, NodeWell, NodeIndexed, NodeFits, Image, ClearDirty, Cached;
      hide LruReplacer.Valid, LruReplacer.Linked, LruReplacer.Recency;
      ghost var s := State();
      CachedIndexed(s);
      assert s.cache[p] == frame.Value();
      r := WriteImage(p, frame);
      CachedSame();
      assert State() == s.(disk := disk.Value());
      if r.Ok? { Clean(p, frame, s); }
    }

    // ----- eviction -----

    /** Clears the dirty flag of a page whose image is on disk already. */
    method Clean(p: PageId, frame: PageRef, ghost s: Pool)
      requires replacer.Valid() && replacer.capacity == capacity && Apart()
      requires p in pageTable && pageTable[p] == frame
      requires PoolWF(s) && p in s.cache && NodeIndexed(s.cache[p]) && NodeFits(s.cache[p])
      requires State() == s.(disk := s.disk.(pages := s.disk.pages[p := Image(s.cache[p], Zeros())]))
      modifies frame.Obj()
      ensures Valid() && State() == Written(s, p, s.wal)
    {
      hide PoolWF, NodeWell, NodeIndexed, NodeFits, Image, ClearDirty, Cached;
      hide LruReplacer.Valid, LruReplacer.Linked, LruReplacer.Recency;
      frame.UnsetDirty();
      CachedChanged(p);
      WrittenWF(s, p, s.wal);
    }

    twostate lemma CachedDropped(p: PageId)
      requires pageTable == old(pageTable) - {p}
      requires forall o :: o in old(Frames()) ==> unchanged(o)
      ensures Cached() == old(Cached()) - {p} && (old(Apart()) ==> Apart())
    {
      forall q | q in pageTable ensures pageTable[q].Value() == old(pageTable[q].Value()) {
        assert pageTable[q].Obj() in old(Frames());
      }
    }

    /** Writes an untracked page nobody holds out and forgets it, or keeps it if that fails. */
    method DropPage(victim: PageId) returns (r: Result<()>)
      requires Valid() && victim in State().cache && victim !in State().lru && pins[victim] == 0
      modifies Repr()
      ensures Valid() && pageTable.Keys <= old(pageTable.Keys) && SameFrames(old(pageTable), pageTable)
      ensures (CachedIndexed(old(State()));
               (State(), r) == if Flush(old(State()), victim).1.Err? then Flush(old(State()), victim)
                               else (Flush(old(State()), victim).0
                                     .(cache := Flush(old(State()), victim).0.cache - {victim}), Ok(())))
    {
      hide PoolWF, NodeWell, NodeIndexed, Flush, Cached, Frames, Apart;
      hide LruReplacer.Valid, LruReplacer.Linked, LruReplacer.Recency;
      ghost var s := State();
      CachedIndexed(s);
      FlushKeepsWF(s, victim);
      r := FlushPage(victim);
      if r.Err? { return; }
      DroppedWF(State(), victim);
      FramesAreNodes();
      label flushed:
      pageTable := pageTable - {victim};
      CachedDropped@flushed(victim);
      r := Ok(());
    }

    /** Drops the least recently used page nobody holds, writing it out first. */
    method EvictPage() returns (r: Result<()>)
      requires Valid()
      modifies Repr()
      ensures Valid() && pageTable.Keys <= old(pageTable.Keys) && SameFrames(old(pageTable), pageTable)
      ensures (State(), r) == Evict(old(State()))
    {
      hide PoolWF, NodeWell, NodeIndexed, Flush, Cached, Drop, LastWhere, Evict;
      hide LruReplacer.Valid, LruReplacer.Linked, LruReplacer.Recency;
      ghost var s := State();
      EvictCases(s);
      var evictId := replacer.EvictIf(Unpinned(pins));
      CachedSame();
      if evictId.None? {
        assert State() == s;
        return Err(LruEviction);
      }
      assert State() == s.(lru := Drop(s.lru, LastWhere(s.lru, Unpinned(s.pins)).value));
      r := DropPage(evictId.value);
    }

    /** Evicts a page if the cache is full. */
    method EnsureRoom() returns (r: Result<()>)
      requires Valid()
      modifies Repr()
      ensures Valid() && pageTable.Keys <= old(pageTable.Keys) && SameFrames(old(pageTable), pageTable)
      ensures (State(), r) == MakeRoom(old(State()))
    {
      hide PoolWF, Evict, LruReplacer.Valid, LruReplacer.Linked, LruReplacer.Recency;
      assert |pageTable.Keys| == |State().cache.Keys|;
      if |pageTable| >= capacity {
        r := EvictPage();
      } else {
        r := Ok(());
      }
    }

    // ----- handing out pages -----

    twostate lemma CachedPinned()
      requires pageTable == old(pageTable) && forall o :: o in old(Frames()) ==> unchanged(o)
      ensures Cached() == old(Cached()) && (old(Apart()) ==> Apart())
    {
      forall q | q in pageTable ensures pageTable[q].Value() == old(pageTable[q].Value()) {
        assert pageTable[q].Obj() in old(Frames());
      }
    }

    twostate lemma CachedGrown(p: PageId)
      requires p !in old(pageTable) && p in pageTable && old(Apart())
      requires pageTable - {p} == old(pageTable)
      requires pageTable[p].Obj() !in old(Frames()) && forall o :: o in old(Frames()) ==> unchanged(o)
      ensures Cached() == old(Cached())[p := pageTable[p].Value()] && Apart()
    {
      forall q | q in old(pageTable)
        ensures q in pageTable && pageTable[q].Value() == old(pageTable[q].Value())
        ensures pageTable[q].Obj() != pageTable[p].Obj()
      {
        assert q in pageTable - {p};
        assert old(pageTable[q].Obj()) in old(Frames());
      }
    }

    lemma SizeOfTable()
      ensures |Cached()| == |pageTable|
    {
      assert |pageTable.Keys| == |Cached().Keys|;
    }

    /** Enters a new frame into the table. */
    method AddFrame(p: PageId, frame: PageRef)
      requires Valid() && p !in pageTable && |pageTable| < capacity
      requires frame.Obj() !in Frames() && NodeWell(frame.Value()) && p < disk.nextFreeOffset
      modifies this`pageTable
      ensures Valid() && pageTable == old(pageTable)[p := frame]
      ensures State() == old(State()).(cache := old(State()).cache[p := old(frame.Value())])
    {
      hide PoolWF, NodeWell, LruReplacer.Valid, LruReplacer.Linked, LruReplacer.Recency, Cached;
      ghost var s, v := State(), frame.Value();
      SizeOfTable();
      AddedWF(s, p, v);
      FramesAreNodes();
      pageTable := pageTable[p := frame];
      CachedGrown(p);
      assert frame.Value() == v;
    }

    /** Hands out a page that is cached already. */
    method HandOut(p: PageId)
      requires Valid() && p in pageTable
      modifies this`pins, replacer
      ensures Valid()
      ensures State() == old(State()).(lru := Touch(old(State()).lru, p), pins := old(pins) + multiset{p})
    {
      hide PoolWF, NodeWell, LruReplacer.Valid, LruReplacer.Linked, LruReplacer.Recency, Touch, Cached;
      ghost var s := State();
      ReplacerHasRoom(s, p);
      TouchedWF(s, p);
      replacer.RecordAccess(p);
      CachedSame();
      label touched:
      pins := pins + multiset{p};
      CachedPinned@touched();
    }

    /** Enters a new frame and hands it out. */
    method Install(p: PageId, frame: PageRef)
      requires Valid() && p !in pageTable && |pageTable| < capacity
      requires frame.Obj() !in Frames() && NodeWell(frame.Value()) && p < disk.nextFreeOffset
      modifies this, replacer
      ensures Valid() && pageTable == old(pageTable)[p := frame]
      ensures var s := old(State());
              State() == s.(cache := s.cache[p := old(frame.Value())],
                         lru := Touch(s.lru, p), pins := s.pins + multiset{p})
    {
      hide PoolWF, NodeWell, Touch, Cached, LruReplacer.Valid, LruReplacer.Linked, LruReplacer.Recency, Apart;
      AddFrame(p, frame);
      HandOut(p);
    }

    /** Hands out a reference to a page, loading it from disk on a miss. */
    method FetchPage(p: PageId) returns (r: Result<PageRef>)
      requires Valid()
      modifies Repr()
      ensures Valid() && Follows(old(pageTable), pageTable, p)
      ensures State() == Fetch(old(State()), p).0
      ensures r.Err? ==> Fetch(old(State()), p).1 == Err(r.error)
      ensures r.Ok? ==> Fetch(old(State()), p).1.Ok? && p in pageTable && r.value == pageTable[p]
      ensures r.Ok? && p !in old(pageTable) ==> fresh(r.value.Obj())
    {
      hide PoolWF, NodeWell, MakeRoom, Touch, Cached, Decode;
      hide LruReplacer.Valid, LruReplacer.Linked, LruReplacer.Recency, Apart;
      if p in pageTable {
        HandOut(p);
        r := Ok(pageTable[p]);
      } else {
        r := FetchMissing(p);
      }
    }

    method FetchMissing(p: PageId) returns (r: Result<PageRef>)
      requires Valid() && p !in pageTable
      modifies Repr()
      ensures Valid() && Follows(old(pageTable), pageTable, p)
      ensures State() == Fetch(old(State()), p).0
      ensures r.Err? ==> Fetch(old(State()), p).1 == Err(r.error)
      ensures r.Ok? ==> Fetch(old(State()), p).1.Ok? && p in pageTable && r.value == pageTable[p]
      ensures r.Ok? ==> fresh(r.value.Obj())
    {
      hide PoolWF, NodeWell, MakeRoom, Touch, Cached, Decode, SameFrames, Follows;
      hide LruReplacer.Valid, LruReplacer.Linked, LruReplacer.Recency, Apart;
      ghost var s, table := State(), pageTable;
      var room := EnsureRoom();
      if room.Err? {
        Unchanged(table, pageTable, p);
        return Err(room.error);
      }
      EvictKeepsWF(s);
      SizeOfTable();
      ghost var table1 := pageTable;
      r := Load(p);
      if r.Ok? { KeepsThenAdds(table, table1, p, r.value); } else { Unchanged(table, pageTable, p); }
    }

    lemma Unchanged(a: map<PageId, PageRef>, b: map<PageId, PageRef>, p: PageId)
      requires SameFrames(a, b) && b.Keys <= a.Keys
      ensures Follows(a, b, p)
    {
    }

    /** Reads a page from disk and decodes it. */
    method ReadNode(p: PageId) returns (r: Result<PageRef>)
      ensures match ReadDisk(disk.Value(), p)
              case Err(e) => r == Err(e)
              case Ok(n) => r.Ok? && fresh(r.value.Obj()) && r.value.Obj() !in Frames() && r.value.Value() == n
    {
      var rawPage := disk.ReadPage(p);
      if rawPage.Err? { return Err(rawPage.error); }
      r := DecodeNode(rawPage.value);
    }

    /** Reads a page that is not cached, and hands it out. */
    method Load(p: PageId) returns (r: Result<PageRef>)
      requires Valid() && p !in pageTable && |pageTable| < capacity
      modifies this, replacer
      ensures Valid()
      ensures r.Err? ==> pageTable == old(pageTable)
      ensures r.Ok? ==> fresh(r.value.Obj()) && pageTable == old(pageTable)[p := r.value]
      ensures var s := old(State());
              match ReadDisk(s.disk, p)
              case Err(e) => r == Err(e) && State() == s
              case Ok(n) =>
                r.Ok? && State() == s.(cache := s.cache[p := n], lru := Touch(s.lru, p), pins := s.pins + multiset{p})
    {
      hide NodeWell, Touch, Cached, PoolWF, ReadDisk, LruReplacer.Valid, LruReplacer.Linked, LruReplacer.Recency, Apart;
      ghost var s := State();
      r := ReadNode(p);
      CachedSame();
      assert State() == s && Valid();
      if r.Ok? {
        DiskPageWell(s, p);
        Install(p, r.value);
      }
    }

    /** Allocates a page, empty and not dirty, and hands it out. */
    method NewPage(isLeaf: bool) returns (r: Result<(PageId, PageRef)>)
      requires Valid()
      modifies Repr()
      ensures Valid() && State() == New(old(State()), isLeaf).0
      ensures r.Err? ==> New(old(State()), isLeaf).1 == Err(r.error)
                         && SameFrames(old(pageTable), pageTable) && pageTable.Keys <= old(pageTable.Keys)
      ensures r.Ok? ==> var (p, frame) := r.value;
                        && New(old(State()), isLeaf).1 == Ok(p)
                        && p in pageTable && frame == pageTable[p] && fresh(frame.Obj())
                        && p !in old(pageTable) && Follows(old(pageTable), pageTable, p)
    {
      hide PoolWF, NodeWell, MakeRoom, Touch, Cached, EmptyNode, SameFrames, Follows;
      hide LruReplacer.Valid, LruReplacer.Linked, LruReplacer.Recency, Apart;
      ghost var s, table := State(), pageTable;
      NewKeepsWF(s, isLeaf);
      var room := EnsureRoom();
      if room.Err? { return Err(room.error); }
      EvictKeepsWF(s);
      SizeOfTable();
      ghost var table1 := pageTable;
      r := Create(isLeaf);
      if r.Ok? { KeepsThenAdds(table, table1, r.value.0, r.value.1); }
    }

    method Create(isLeaf: bool) returns (r: Result<(PageId, PageRef)>)
      requires Valid() && |pageTable| < capacity
      modifies this, replacer, disk
      ensures Valid()
      ensures State() == Allocate(old(State()), isLeaf).0
      ensures Allocate(old(State()), isLeaf).1 == if r.Err? then Err(r.error) else Ok(r.value.0)
      ensures r.Err? ==> pageTable == old(pageTable)
      ensures r.Ok? ==> r.value.0 !in old(pageTable) && fresh(r.value.1.Obj())
                        && pageTable == old(pageTable)[r.value.0 := r.value.1]
    {
      hide NodeWell, Touch, Cached, EmptyNode, PoolWF, LruReplacer.Valid, LruReplacer.Linked, LruReplacer.Recency;
      hide Apart;
      var p := Reserve();
      if p.None? { return Err(Panic); }
      var frame := MakeEmpty(p.value, isLeaf);
      Install(p.value, frame);
      r := Ok((p.value, frame));
    }

    method MakeEmpty(p: PageId, isLeaf: bool) returns (frame: PageRef)
      requires Valid()
      ensures fresh(frame.Obj()) && frame.Obj() !in Frames()
      ensures frame.Value() == EmptyNode(p, isLeaf) && NodeWell(frame.Value())
      ensures Valid() && State() == old(State())
    {
      hide NodeWell, Cached, EmptyNode, PoolWF, LruReplacer.Valid, LruReplacer.Linked, LruReplacer.Recency;
      EmptyWell(p, isLeaf);
      frame := NewPageRef(EmptyNode(p, isLeaf));
      CachedSame();
    }

    /** Takes the next free page number. */
    method Reserve() returns (p: Option<PageId>)
      requires Valid()
      modifies disk
      ensures Valid()
      ensures var s, next := old(State()), old(disk.nextFreeOffset);
              if next + PAGE_SIZE >= 0x1_0000_0000_0000_0000 then p == None && State() == s
              else p == Some(next) && next !in pageTable && State() == s.(disk := s.disk.(nextFree := next + PAGE_SIZE))
    {
      hide NodeWell, Cached, PoolWF, LruReplacer.Valid, LruReplacer.Linked, LruReplacer.Recency, Apart;
      ghost var s := State();
      NextFreeIsNew(s);
      p := disk.AllocatePage();
      CachedSame();
      GrownDiskWF(s, disk.nextFreeOffset);
    }

    /** The end of a reference's life. */
    method GiveBack(p: PageId)
      requires Valid()
      modifies this`pins
      ensures Valid() && State() == Release(old(State()), p)
    {
      hide NodeWell, Cached, Decode, LruReplacer.Valid, LruReplacer.Linked, LruReplacer.Recency;
      pins := pins - multiset{p};
      CachedPinned();
    }

    // ----- flushing everything -----

    /** Flushes every cached page, in the order the page table lists them, then the header. */
    method FlushAllPages() returns (r: Result<()>, ghost order: seq<PageId>)
      requires Valid()
      modifies Repr()
      ensures Valid() && pageTable == old(pageTable)
      ensures Lists(order, old(State())) && (State(), r) == FlushAll(old(State()), order)
    {
      hide PoolWF, NodeWell, FlushEach, Cached, LruReplacer.Valid, LruReplacer.Linked, LruReplacer.Recency;
      var pageIds := Enumerate(pageTable.Keys);
      CachedSame();
      order := pageIds;
      r := FlushInOrder(pageIds);
      if r.Ok? { r := FinishFlush(); }
    }

    method FlushInOrder(pageIds: seq<PageId>) returns (r: Result<()>)
      requires Valid()
      modifies Repr()
      ensures Valid() && pageTable == old(pageTable)
      ensures (State(), r) == FlushEach(old(State()), pageIds)
    {
      hide PoolWF, NodeWell, Flush, Cached, LruReplacer.Valid, LruReplacer.Linked, LruReplacer.Recency;
      ghost var s := State();
      assert pageIds[0..] == pageIds;
      for i := 0 to |pageIds|
        invariant Valid() && pageTable == old(pageTable)
        invariant FlushEach(s, pageIds) == FlushEach(State(), pageIds[i..])
      {
        assert pageIds[i..][0] == pageIds[i] && pageIds[i..][1..] == pageIds[i + 1..];
        r := FlushPage(pageIds[i]);
        if r.Err? { return; }
      }
      r := Ok(());
    }

    method FinishFlush() returns (r: Result<()>)
      requires Valid()
      modifies disk
      ensures Valid() && (State(), r) == SaveHeader(old(State()))
    {
      hide PoolWF, Cached, LruReplacer.Valid, LruReplacer.Linked, LruReplacer.Recency;
      ghost var s := State();
      r := disk.SaveHeader();
      CachedSame();
      DiskKeepsWF(s, disk.Value());
    }
  }

  /** The elements of a set in some order. */
  method Enumerate(keys: set<PageId>) returns (order: seq<PageId>)
    ensures Distinct(order) && forall p :: p in order <==> p in keys
  {
    order := [];
    var rest := keys;
    while rest != {}
      invariant Distinct(order) && rest <= keys
      invariant forall p :: p in order <==> p in keys && p !in rest
    {
      var p :| p in rest;
      order := order + [p];
      rest := rest - {p};
    }
  }
}
