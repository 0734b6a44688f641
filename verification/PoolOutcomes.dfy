/** When the operations of the pool fail, with which error, and what they then leave behind. */
module PoolOutcomes {
  import opened Base
  import opened Nodes
  import opened Codec
  import opened Lru
  import opened Wal
  import opened Pools
  import opened PoolLaws

  /** The log would have to be synced up to this LSN first, and cannot be. */
  predicate LogBlocks(s: Pool, lsn: U64) {
    s.wal.Some? && lsn > s.wal.value.flushedLsn && s.wal.value.faults.syncFails
  }

  /** Flushing a cached page: what each result says of the page and its surroundings. A flush that fails
      leaves cache and disk alone; one that writes has the log flushed up to the page's LSN before. */
  lemma FlushOutcome(s: Pool, p: PageId)
    requires p in s.cache && NodeIndexed(s.cache[p])
    ensures var n, (s', r) := s.cache[p], Flush(s, p);
            var blocked := LogBlocks(s, LastLsn(n));
            && (r.Ok? <==> !IsDirty(n) || (!blocked && NodeFits(n) && p !in s.disk.faulty))
            && (r == Err(PageFull) <==> IsDirty(n) && !blocked && !NodeFits(n))
            && (r == Err(Io) <==> IsDirty(n) && (blocked || (NodeFits(n) && p in s.disk.faulty)))
            && (r.Err? ==> s' == s.(wal := s'.wal))
            && (r.Ok? && IsDirty(n) ==>
                  && s' == s.(wal := s'.wal, cache := s.cache[p := ClearDirty(n)],
                              disk := s.disk.(pages := s.disk.pages[p := Image(n, Zeros())]))
                  && (s'.wal.Some? ==> LastLsn(n) <= s'.wal.value.flushedLsn))
            && (s'.wal.Some? <==> s.wal.Some?)
            && (s.wal.Some? ==> s'.wal.value.bytes == s.wal.value.bytes && s'.wal.value.faults == s.wal.value.faults)
  {
    hide Image, NodeFits, NodeIndexed;
    if s.wal.Some? { ForcedUpto(s.wal.value, LastLsn(s.cache[p])); }
  }

  /** Making room for a page leaves the disk page of every uncached page, and the faults, as they are. */
  lemma RoomKeepsDisk(s: Pool, p: PageId)
    requires PoolWF(s)
    ensures var d := MakeRoom(s).0.disk;
            && (p !in s.cache ==> (p in d.pages <==> p in s.disk.pages)
                                  && (p in d.pages ==> d.pages[p] == s.disk.pages[p]))
            && d.faulty == s.disk.faulty && d.headerFails == s.disk.headerFails && d.nextFree == s.disk.nextFree
  {
    hide PoolWF, Decode, Evict, Flush, Drop, NodeIndexed, NodeFits, Image;
    EvictCases(s);
    var found := LastWhere(s.lru, Unpinned(s.pins));
    if found.Some? {
      var victim, s0 := s.lru[found.value], s.(lru := Drop(s.lru, found.value));
      CachedIndexed(s0);
      FlushCases(s0, victim);
    }
  }

  /** Fetching. A cached page is found, and only the replacer and the references change. Any other is
      read exactly when there is room and its image can be read and decoded; the error says what is in
      the way, and a failed fetch adds nothing to the cache. */
  lemma FetchOutcome(s: Pool, p: PageId)
    requires PoolWF(s)
    ensures var (s', r), (s1, room) := Fetch(s, p), MakeRoom(s);
            && (p in s.cache ==> r.Ok? && s'.lru[..1] == [p] && s' == s.(lru := s'.lru, pins := s.pins + multiset{p}))
            && (p !in s.cache && room.Err? ==> (s', r) == (s1, room))
            && (p !in s.cache && room.Ok? ==>
                  var unread := p !in s.disk.pages || p in s.disk.faulty;
                  && (r == Err(Io) <==> unread)
                  && (!unread ==> (r.Ok? <==> Decode(s.disk.pages[p]).Ok?))
                  && (!unread && r.Err? ==> r.error == Decode(s.disk.pages[p]).error)
                  && (r.Err? ==> s' == s1)
                  && (r.Ok? ==>
                        && s'.cache == s1.cache[p := Decode(s.disk.pages[p]).value]
                        && s' == s1.(cache := s'.cache, lru := s'.lru, pins := s.pins + multiset{p})))
  {
    hide PoolWF, Decode, Evict, Touch;
    RoomKeepsDisk(s, p);
    EvictKeepsWF(s);
    FrontTracks(s, p);
    ImageErrors(s, p);
  }

  lemma ImageErrors(s: Pool, p: PageId)
    ensures p in s.disk.pages && Decode(s.disk.pages[p]).Err? ==> Decode(s.disk.pages[p]).error != Io
  {
    if p in s.disk.pages { DecodeErrors(s.disk.pages[p]); }
  }

  /** A new page is made exactly when there is room in the cache and a page number left; it takes the
      next one, and only that, and the replacer tracks it besides what it tracked. */
  lemma NewOutcome(s: Pool, isLeaf: bool)
    requires PoolWF(s)
    ensures var (s', r), (s1, room) := New(s, isLeaf), MakeRoom(s);
            var spent := s.disk.nextFree + PAGE_SIZE >= 0x1_0000_0000_0000_0000;
            && (room.Err? ==> s' == s1 && r == Err(room.error))
            && (room.Ok? ==> (r == Err(Panic) <==> spent) && (r.Ok? <==> !spent) && (r.Err? ==> s' == s1))
            && (r.Ok? ==>
                  && r.value == s.disk.nextFree && s'.cache == s1.cache[r.value := EmptyNode(r.value, isLeaf)]
                  && s'.disk == s1.disk.(nextFree := r.value + PAGE_SIZE) && s'.wal == s1.wal
                  && s'.lru[..1] == [r.value] && (forall q :: q in s'.lru <==> q == r.value || q in s1.lru))
  {
    hide PoolWF, Decode, Evict, Touch, EmptyNode;
    EvictKeepsWF(s);
    FrontTracks(MakeRoom(s).0, s.disk.nextFree);
  }

  lemma FrontTracks(s: Pool, p: PageId)
    requires PoolWF(s)
    ensures Touch(s.lru, p)[..1] == [p] && forall q :: q in Touch(s.lru, p) <==> q == p || q in s.lru
  {
    FrontOf(s.lru, p);
  }

  /** Flushing pages one after the other stops at the first that fails: those before it are flushed,
      and it is that page's error which is reported. */
  lemma {:induction false} StopsAtFirst(s: Pool, order: seq<PageId>) returns (i: nat)
    requires PoolWF(s) && FlushEach(s, order).1.Err?
    ensures i < |order| && FlushEach(s, order[..i]).1.Ok?
    ensures PoolWF(FlushEach(s, order[..i]).0)
    ensures FlushEach(s, order) == Flush(FlushEach(s, order[..i]).0, order[i])
    decreases |order|
  {
    hide PoolWF, Flush, NodeIndexed;
    CachedIndexed(s);
    FlushKeepsWF(s, order[0]);
    var s1 := Flush(s, order[0]).0;
    if Flush(s, order[0]).1.Err? {
      i := 0;
    } else {
      var j := StopsAtFirst(s1, order[1..]);
      i := j + 1;
      assert order[..i][0] == order[0] && order[..i][1..] == order[1..][..j];
    }
  }

  /** Flushing everything succeeds exactly when every page is flushed and the header can be written; only
      then are the page images synced. */
  lemma FlushAllOutcome(s: Pool, order: seq<PageId>)
    requires PoolWF(s)
    ensures var (s', r), (s1, each) := FlushAll(s, order), FlushEach(s, order);
            && (r.Ok? <==> each.Ok? && !s.disk.headerFails)
            && (each.Err? ==> (s', r) == (s1, each)) && (each.Ok? && s.disk.headerFails ==> (s', r) == (s1, Err(Io)))
            && s'.disk.stable == (if r.Ok? then s'.disk.pages else s.disk.stable)
            && s'.disk.pages == s1.disk.pages && s'.cache == s1.cache && s'.wal == s1.wal && s'.pins == s.pins
  {
    hide PoolWF, FlushEach;
    FlushEachKeepsDisk(s, order);
    assert FlushAll(s, order).1.Ok? <==> FlushEach(s, order).1.Ok? && !s.disk.headerFails;
  }

  lemma {:induction false} FlushEachKeepsDisk(s: Pool, order: seq<PageId>)
    requires PoolWF(s)
    ensures var (s1, r) := FlushEach(s, order);
            s1.disk.stable == s.disk.stable && s1.disk.headerFails == s.disk.headerFails && s1.pins == s.pins
    decreases |order|
  {
    hide PoolWF, Flush, NodeIndexed;
    if order != [] {
      CachedIndexed(s);
      FlushKeepsWF(s, order[0]);
      FlushKeepsFaults(s, order[0]);
      if Flush(s, order[0]).1.Ok? { FlushEachKeepsDisk(Flush(s, order[0]).0, order[1..]); }
    }
  }

  lemma FlushKeepsFaults(s: Pool, p: PageId)
    requires p in s.cache ==> NodeIndexed(s.cache[p])
    ensures Flush(s, p).0.disk.headerFails == s.disk.headerFails
  {
    hide NodeIndexed, Image;
  }

  // ----- which errors there are -----

  /** What the pool may report about a page. */
  predicate PoolError(e: DbError) {
    e in {Io, LruEviction, PageFull, Panic, CorruptPage(UnknownNodeType)}
  }

  lemma FetchReports(s: Pool, p: PageId)
    requires PoolWF(s)
    ensures Fetch(s, p).1.Err? ==> PoolError(Fetch(s, p).1.error)
  {
    hide PoolWF, Evict, Decode, Touch;
    RoomReports(s);
    RoomKeepsDisk(s, p);
    FetchOutcome(s, p);
    if p in s.disk.pages { DecodeErrors(s.disk.pages[p]); }
  }

  lemma RoomReports(s: Pool)
    requires PoolWF(s)
    ensures MakeRoom(s).1.Err? ==> MakeRoom(s).1.error in {Io, LruEviction, PageFull}
  {
    hide PoolWF, Decode, Evict, Flush, Drop, NodeIndexed, NodeFits, Image;
    EvictCases(s);
    var found := LastWhere(s.lru, Unpinned(s.pins));
    if found.Some? {
      var victim, s0 := s.lru[found.value], s.(lru := Drop(s.lru, found.value));
      CachedIndexed(s0);
      FlushReports(s0, victim);
    }
  }

  lemma FlushReports(s: Pool, p: PageId)
    requires p in s.cache ==> NodeIndexed(s.cache[p])
    ensures Flush(s, p).1.Err? ==> Flush(s, p).1.error in {Io, PageFull}
  {
    hide NodeIndexed, Image;
  }

  lemma NewReports(s: Pool, isLeaf: bool)
    requires PoolWF(s)
    ensures New(s, isLeaf).1.Err? ==> PoolError(New(s, isLeaf).1.error)
  {
    hide PoolWF, Evict;
    RoomReports(s);
    EvictKeepsWF(s);
  }
}
