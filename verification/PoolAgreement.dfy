/** Cache and disk agree: clean pages are as their images, and only what was never written can be lost. */
module PoolAgreement {
  import opened Base
  import opened Nodes
  import opened Codec
  import opened Lru
  import opened Wal
  import opened Pools
  import opened PoolLaws

  /** Every clean cached page that has a disk image equals it. The pages of loose are exempt: somebody
      holds them and is in the middle of changing them. */
  ghost predicate Agrees(s: Pool, loose: set<PageId>) {
    forall p :: p in s.cache && p !in loose && !IsDirty(s.cache[p]) && p in s.disk.pages ==>
      DiskContent(s.disk.pages, p) == Some(Norm(s.cache[p]))
  }

  /** Every clean cached page has a disk image, or is a new one that its maker still holds. */
  ghost predicate Backed(s: Pool, loose: set<PageId>) {
    forall p :: p in s.cache && p !in loose && !IsDirty(s.cache[p]) ==> p in s.disk.pages || s.pins[p] > 0
  }

  ghost predicate Consistent(s: Pool, loose: set<PageId>) {
    Agrees(s, loose) && Backed(s, loose)
  }

  /** A page its last holder may let go of: it is dirty, or was written before. Only a new page that
      nobody marked dirty is neither. */
  predicate Releasable(s: Pool, p: PageId) {
    p in s.cache ==> s.pins[p] > 1 || IsDirty(s.cache[p]) || p in s.disk.pages
  }

  lemma ConsistentIsCoherent(s: Pool)
    requires Consistent(s, {})
    ensures Coherent(s)
  {
    hide IsDirty, DiskContent, Norm;
  }

  lemma MarkedDirty(n: Node, lsn: U64)
    ensures IsDirty(MarkDirty(n, lsn))
  {
  }

  // ----- flushing and eviction -----

  lemma WrittenAgrees(s: Pool, p: PageId, wal: Option<Log>, loose: set<PageId>)
    requires PoolWF(s) && p in s.cache && NodeIndexed(s.cache[p]) && NodeFits(s.cache[p])
    ensures Agrees(s, loose) ==> Agrees(Written(s, p, wal), loose)
    ensures Backed(s, loose) ==> Backed(Written(s, p, wal), loose)
  {
    WrittenContent(s, p, wal);
    NormLaws(s.cache[p]);
    hide Image, NodeFits, NodeIndexed, NodeWell, Decode, ClearDirty, Norm, IsDirty;
  }

  lemma FlushAgrees(s: Pool, p: PageId, loose: set<PageId>)
    requires PoolWF(s)
    ensures Agrees(s, loose) ==> Agrees(Flush(s, p).0, loose)
    ensures Backed(s, loose) ==> Backed(Flush(s, p).0, loose)
    ensures s.disk.pages.Keys <= Flush(s, p).0.disk.pages.Keys
  {
    hide PoolWF, Flush, NodeIndexed, NodeFits, DiskContent, Norm, IsDirty, Written;
    CachedIndexed(s);
    FlushCases(s, p);
    if p in s.cache && NodeFits(s.cache[p]) {
      WrittenAgrees(s, p, Flush(s, p).0.wal, loose);
      WrittenKeys(s, p, Flush(s, p).0.wal);
    }
  }

  lemma WrittenKeys(s: Pool, p: PageId, wal: Option<Log>)
    requires p in s.cache && NodeIndexed(s.cache[p]) && NodeFits(s.cache[p])
    ensures Written(s, p, wal).disk.pages.Keys == s.disk.pages.Keys + {p}
  {
    hide Image, NodeFits, NodeIndexed;
  }

  lemma EvictAgrees(s: Pool, loose: set<PageId>)
    requires PoolWF(s)
    ensures Agrees(s, loose) ==> Agrees(Evict(s).0, loose) && Agrees(MakeRoom(s).0, loose)
    ensures Backed(s, loose) ==> Backed(Evict(s).0, loose) && Backed(MakeRoom(s).0, loose)
    ensures s.disk.pages.Keys <= Evict(s).0.disk.pages.Keys
  {
    hide PoolWF, Flush, NodeIndexed, DiskContent, Norm, IsDirty, Drop, Evict;
    EvictCases(s);
    var found := LastWhere(s.lru, Unpinned(s.pins));
    if found.Some? {
      FlushAgrees(s.(lru := Drop(s.lru, found.value)), s.lru[found.value], loose);
    }
  }

  /** What eviction loses, exactly. It keeps the content of its victim if and only if that is dirty or
      was ever written to disk: a page is lost when it is new and nobody marked it dirty. */
  lemma LostIffNeverWritten(s: Pool)
    requires PoolWF(s) && Agrees(s, {}) && Evict(s).1.Ok?
    ensures var p := s.lru[LastWhere(s.lru, Unpinned(s.pins)).value];
            && p in s.cache && s.pins[p] == 0
            && (Content(Evict(s).0, p) == Content(s, p) <==> IsDirty(s.cache[p]) || p in s.disk.pages)
            && (forall q :: q != p ==> Content(Evict(s).0, q) == Content(s, q))
  {
    hide PoolWF, Evict, Norm, IsDirty, Decode;
    EvictContent(s);
  }

  // ----- the other operations -----

  lemma FetchAgrees(s: Pool, p: PageId, loose: set<PageId>)
    requires PoolWF(s)
    ensures Agrees(s, loose) ==> Agrees(Fetch(s, p).0, loose)
    ensures Backed(s, loose) ==> Backed(Fetch(s, p).0, loose)
    ensures s.disk.pages.Keys <= Fetch(s, p).0.disk.pages.Keys
  {
    hide PoolWF, Evict, Norm, IsDirty, Decode, Touch;
    EvictAgrees(s, loose);
  }

  lemma NewAgrees(s: Pool, isLeaf: bool, loose: set<PageId>)
    requires PoolWF(s)
    ensures Agrees(s, loose) ==> Agrees(New(s, isLeaf).0, loose)
    ensures Backed(s, loose) ==> Backed(New(s, isLeaf).0, loose)
    ensures s.disk.pages.Keys <= New(s, isLeaf).0.disk.pages.Keys
  {
    hide PoolWF, Evict, Norm, IsDirty, DiskContent, Touch;
    EvictAgrees(s, loose);
    NewKeepsWF(s, isLeaf);
  }

  /** Letting go of a page never makes it disagree with its image; it stays backed when it may be let
      go of. */
  lemma ReleaseAgrees(s: Pool, p: PageId, loose: set<PageId>)
    ensures Agrees(s, loose) ==> Agrees(Release(s, p), loose)
    ensures Backed(s, loose) && (p in loose || Releasable(s, p)) ==> Backed(Release(s, p), loose)
  {
    hide Norm, IsDirty, DiskContent;
  }

  /** A page may be changed unmarked while it is loose; once it is marked dirty it needs no exemption. */
  lemma PutAgrees(s: Pool, p: PageId, n: Node, loose: set<PageId>)
    requires IsDirty(n) || p in loose
    ensures Agrees(s, loose) ==> Agrees(Put(s, p, n), loose)
    ensures Backed(s, loose) ==> Backed(Put(s, p, n), loose)
    ensures IsDirty(n) && Consistent(s, loose) ==> Consistent(Put(s, p, n), loose - {p})
  {
    hide Norm, IsDirty, DiskContent;
  }

  lemma {:induction false} FlushEachAgrees(s: Pool, order: seq<PageId>, loose: set<PageId>)
    requires PoolWF(s)
    ensures Agrees(s, loose) ==> Agrees(FlushEach(s, order).0, loose)
    ensures Backed(s, loose) ==> Backed(FlushEach(s, order).0, loose)
    decreases |order|
  {
    hide PoolWF, Flush, Agrees, Backed;
    if order != [] {
      CachedIndexed(s);
      FlushKeepsWF(s, order[0]);
      FlushAgrees(s, order[0], loose);
      if Flush(s, order[0]).1.Ok? { FlushEachAgrees(Flush(s, order[0]).0, order[1..], loose); }
    }
  }

  /** A page just fetched may be let go of again: it was cached and backed, or has just been read. */
  lemma FetchedReleasable(s: Pool, p: PageId, loose: set<PageId>)
    requires PoolWF(s) && Backed(s, loose) && p !in loose && Fetch(s, p).1.Ok?
    ensures Releasable(Fetch(s, p).0, p)
  {
    hide PoolWF, Evict, IsDirty, Decode, Touch;
    FetchKeepsWF(s, p);
  }
}
