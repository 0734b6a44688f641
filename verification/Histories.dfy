/**
 What a pool and its log keep true of every page: it is its base image with a prefix of its log
 entries redone, and what is on disk has only durable ones.
 */
module Histories {
  import opened Base
  import opened Nodes
  import opened Codec
  import opened Lru
  import opened Wal
  import opened Pools
  import opened PoolLaws
  import opened Trees
  import opened Redo
  import opened Recoveries

  /** The pages as they were when the log was last cut, the entries written since, what a torn write
      left of a frame behind them, and the highest LSN of before. */
  datatype History = History(base: map<PageId, Node>, log: seq<WalEntry>, tail: seq<Byte>, past: U64)

  // ----- the log -----

  ghost predicate HistoryWF(h: History) {
    && AllFramable(h.log) && Rising(h.log) && Torn(h.tail)
    && (forall e :: e in h.log ==> h.past < e.lsn && e.pageId in h.base)
    && forall p :: p in h.base ==> NodeWell(h.base[p]) && h.base[p] == Norm(h.base[p]) && LastLsn(h.base[p]) <= h.past
  }

  /** How many entries of the log are durable. */
  function Acked(w: Log, h: History): (k: nat)
    ensures k <= |h.log|
  {
    Complete(h.log, w.durable)
  }

  function Max(a: U64, b: U64): U64 {
    if a < b then b else a
  }

  /** The file holds the entries of the history, and what counts as flushed is durable. */
  ghost predicate LogWF(w: Log, h: History) {
    && w.sync && w.bytes == Frames(h.log) + h.tail && w.durable <= |w.bytes|
    && w.flushedLsn <= Max(h.past, MaxLsn(h.log[..Acked(w, h)]))
  }

  lemma AckedAll(w: Log, h: History)
    requires w.durable >= |Frames(h.log)|
    ensures Acked(w, h) == |h.log|
  {
    CompleteAll(h.log);
    CompleteMonotone(h.log, |Frames(h.log)|, w.durable);
  }

  lemma MaxLsnIn(es: seq<WalEntry>)
    ensures es == [] ==> MaxLsn(es) == 0
    ensures es != [] ==> exists e :: e in es && e.lsn == MaxLsn(es)
  {
    if es != [] {
      MaxLsnIn(es[..|es| - 1]);
      assert es[|es| - 1] in es;
      if MaxLsn(es) != es[|es| - 1].lsn {
        var e :| e in es[..|es| - 1] && e.lsn == MaxLsn(es);
        assert e in es;
      }
    }
  }

  /** Entries that are not durable lie above the flushed LSN. */
  lemma FlushedBelow(w: Log, h: History, i: nat)
    requires HistoryWF(h) && LogWF(w, h) && Acked(w, h) <= i < |h.log|
    ensures w.flushedLsn < h.log[i].lsn
  {
    var durable := h.log[..Acked(w, h)];
    MaxLsnIn(durable);
    assert h.log[i] in h.log;
    if durable != [] {
      var e :| e in durable && e.lsn == MaxLsn(durable);
      var j :| 0 <= j < |durable| && durable[j] == e;
      assert h.log[j].lsn < h.log[i].lsn;
    }
  }

  lemma MaxLsnPrefix(es: seq<WalEntry>, i: nat, j: nat)
    requires i <= j <= |es|
    ensures MaxLsn(es[..i]) <= MaxLsn(es[..j])
  {
    MaxLsnIn(es[..i]);
    if i > 0 {
      var e :| e in es[..i] && e.lsn == MaxLsn(es[..i]);
      assert e in es[..j];
    }
  }

  /** Forcing the log keeps it in order, and afterwards all entries up to the LSN are durable. */
  lemma ForceKeeps(w: Log, h: History, lsn: U64)
    requires HistoryWF(h) && LogWF(w, h) && lsn <= Max(h.past, MaxLsn(h.log))
    ensures var (w', r) := FlushUpto(w, lsn);
            && LogWF(w', h) && Acked(w, h) <= Acked(w', h) && w'.bytes == w.bytes
            && (r.Ok? ==> forall i :: Acked(w', h) <= i < |h.log| ==> lsn < h.log[i].lsn)
  {
    hide HistoryWF, Frames, MaxLsn, Complete;
    var (w', r) := FlushUpto(w, lsn);
    CompleteMonotone(h.log, w.durable, w'.durable);
    if lsn > w.flushedLsn {
      if r.Ok? {
        AckedAll(w', h);
        assert h.log[..|h.log|] == h.log;
      }
    } else {
      forall i | Acked(w', h) <= i < |h.log| ensures lsn < h.log[i].lsn { FlushedBelow(w, h, i); }
    }
  }

  // ----- stages of a page -----

  /** n is page p with the entries among the first j redone, for some j from i to k. */
  ghost predicate Stage(h: History, p: PageId, n: Node, i: nat, k: nat)
    requires HistoryWF(h)
  {
    p in h.base && exists j: nat :: i <= j <= k && j <= |h.log| && Redone(h.base[p], p, h.log[..j]) == Ok(n)
  }

  lemma StageLsn(h: History, p: PageId, n: Node, k: nat)
    requires HistoryWF(h) && Stage(h, p, n, 0, k)
    ensures LastLsn(n) <= Max(h.past, MaxLsn(h.log)) && NodeWell(n) && n == Norm(n)
  {
    var j: nat :| j <= k && j <= |h.log| && Redone(h.base[p], p, h.log[..j]) == Ok(n);
    RedoneLsn(h.base[p], p, h.log[..j]);
    RedoneIsNorm(h.base[p], p, h.log[..j]);
    if LastLsn(n) != LastLsn(h.base[p]) {
      var e :| e in h.log[..j] && e.pageId == p && e.lsn == LastLsn(n);
      assert e in h.log;
    }
  }

  /** Entries of other pages do not matter. */
  lemma {:induction false} NoEntries(n: Node, p: PageId, es: seq<WalEntry>, i: nat, j: nat)
    requires NodeWell(n) && i <= j <= |es| && forall x :: i <= x < j ==> es[x].pageId != p
    ensures Redone(n, p, es[..j]) == Redone(n, p, es[..i])
    decreases j
  {
    hide NodeWell, Redone;
    if i < j {
      NoEntries(n, p, es, i, j - 1);
      RedoneStep(n, p, es, j - 1);
    }
  }

  /** A page whose LSN is below all entries from k on has none of them. */
  lemma StageCut(h: History, p: PageId, n: Node, k: nat)
    requires HistoryWF(h) && Stage(h, p, n, 0, |h.log|) && k <= |h.log|
    requires forall i :: k <= i < |h.log| ==> LastLsn(n) < h.log[i].lsn
    ensures Stage(h, p, n, 0, k)
  {
    hide NodeWell, Redone, Norm;
    var j: nat :| j <= |h.log| && Redone(h.base[p], p, h.log[..j]) == Ok(n);
    if j > k {
      RedoneLsn(h.base[p], p, h.log[..j]);
      forall x | k <= x < j ensures h.log[x].pageId != p { assert h.log[x] == h.log[..j][x]; }
      NoEntries(h.base[p], p, h.log, k, j);
    }
  }

  // ----- pools over a history -----

  /** Every page of the history is on disk, with durable entries only. */
  ghost predicate DiskStaged(pages: map<PageId, PageImage>, h: History, k: nat)
    requires HistoryWF(h)
  {
    && pages.Keys == h.base.Keys
    && forall p :: p in h.base ==> DiskContent(pages, p).Some? && Stage(h, p, DiskContent(pages, p).value, 0, k)
  }

  /** What survives of a pool and its log. */
  ghost predicate DiskLogged(s: Pool, h: History) {
    && HistoryWF(h) && s.wal.Some? && LogWF(s.wal.value, h) && DiskWF(s.disk)
    && DiskStaged(s.disk.pages, h, Acked(s.wal.value, h))
    && DiskStaged(s.disk.stable, h, Acked(s.wal.value, h))
  }

  /** Cached pages are stages of the history too, and the clean ones are as on disk. */
  ghost predicate CacheStaged(s: Pool, h: History)
    requires HistoryWF(h)
  {
    forall p :: p in s.cache ==>
      && Stage(h, p, Norm(s.cache[p]), 0, |h.log|)
      && (IsDirty(s.cache[p]) || DiskContent(s.disk.pages, p) == Some(Norm(s.cache[p])))
  }

  ghost predicate Logged(s: Pool, h: History) {
    PoolWF(s) && DiskLogged(s, h) && CacheStaged(s, h)
  }

  lemma StagedMore(pages: map<PageId, PageImage>, h: History, k: nat, k': nat)
    requires HistoryWF(h) && DiskStaged(pages, h, k) && k <= k'
    ensures DiskStaged(pages, h, k')
  {
    hide HistoryWF, Redone, Decode;
  }

  lemma LoggedIsCoherent(s: Pool, h: History)
    requires Logged(s, h)
    ensures Coherent(s)
  {
    hide HistoryWF, PoolWF, Stage, Decode;
  }

  /** A changed log that is still in order. */
  lemma ForcedLogged(s: Pool, h: History, w: Log)
    requires Logged(s, h) && LogWF(w, h) && Acked(s.wal.value, h) <= Acked(w, h)
    ensures Logged(s.(wal := Some(w)), h)
  {
    hide HistoryWF, LogWF, Acked, Stage, Decode, Norm, NodeWell, DiskWF;
    WalKeepsWF(s, Some(w));
    hide PoolWF;
    StagedMore(s.disk.pages, h, Acked(s.wal.value, h), Acked(w, h));
    StagedMore(s.disk.stable, h, Acked(s.wal.value, h), Acked(w, h));
  }

  /** Writing a page whose entries are durable. */
  lemma WrittenLogged(s: Pool, h: History, p: PageId)
    requires Logged(s, h) && p in s.cache && NodeIndexed(s.cache[p]) && NodeFits(s.cache[p])
    requires Stage(h, p, Norm(s.cache[p]), 0, Acked(s.wal.value, h))
    ensures Logged(Written(s, p, s.wal), h)
  {
    WrittenWF(s, p, s.wal);
    WrittenStays(s, p, s.wal);
    WrittenBase(s, h, p);
    hide Written, HistoryWF, LogWF, Stage, DiskStaged, PoolWF, DiskWF, Acked, Norm, CacheStaged, DiskContent;
    PoolHasDisk(Written(s, p, s.wal));
    PutStaged(s.disk.pages, Written(s, p, s.wal).disk.pages, h, p, Norm(s.cache[p]), Acked(s.wal.value, h));
    PutCacheStaged(s, Written(s, p, s.wal), h, p);
  }

  lemma PoolHasDisk(s: Pool)
    requires PoolWF(s)
    ensures DiskWF(s.disk)
  {
  }

  lemma PutStaged(pages: map<PageId, PageImage>, pages': map<PageId, PageImage>, h: History, p: PageId, n: Node, k: nat)
    requires HistoryWF(h) && DiskStaged(pages, h, k) && Stage(h, p, n, 0, k) && pages'.Keys == pages.Keys
    requires DiskContent(pages', p) == Some(n) && forall q :: q != p ==> DiskContent(pages', q) == DiskContent(pages, q)
    ensures DiskStaged(pages', h, k)
  {
    hide HistoryWF, Redone, Decode, Stage;
  }

  lemma PutCacheStaged(s: Pool, s': Pool, h: History, p: PageId)
    requires HistoryWF(h) && CacheStaged(s, h) && s'.cache.Keys == s.cache.Keys && p in s.cache
    requires forall q :: q in s.cache ==> Norm(s'.cache[q]) == Norm(s.cache[q])
    requires forall q :: q in s.cache && q != p ==> s'.cache[q] == s.cache[q]
    requires DiskContent(s'.disk.pages, p) == Some(Norm(s.cache[p]))
    requires forall q :: q != p ==> DiskContent(s'.disk.pages, q) == DiskContent(s.disk.pages, q)
    ensures CacheStaged(s', h)
  {
    hide HistoryWF, Redone, Decode, Stage, Norm, IsDirty;
  }

  /** What writing a page changes, and what it leaves alone. */
  lemma WrittenStays(s: Pool, p: PageId, wal: Option<Log>)
    requires PoolWF(s) && p in s.cache && NodeIndexed(s.cache[p]) && NodeFits(s.cache[p])
    ensures var s' := Written(s, p, wal);
            && s'.wal == wal && s'.disk.stable == s.disk.stable && s'.disk.pages.Keys == s.disk.pages.Keys + {p}
            && s'.cache.Keys == s.cache.Keys
            && s'.disk.faulty == s.disk.faulty && s'.disk.headerFails == s.disk.headerFails
            && (forall q :: q in s.cache ==> Norm(s'.cache[q]) == Norm(s.cache[q]))
            && (forall q :: q in s.cache && q != p ==> s'.cache[q] == s.cache[q])
            && DiskContent(s'.disk.pages, p) == Some(Norm(s.cache[p]))
            && forall q :: q != p ==> DiskContent(s'.disk.pages, q) == DiskContent(s.disk.pages, q)
  {
    WrittenContent(s, p, wal);
    NormLaws(s.cache[p]);
    hide Image, NodeFits, NodeIndexed, NodeWell, Decode, ClearDirty, Norm;
  }

  lemma WrittenBase(s: Pool, h: History, p: PageId)
    requires Logged(s, h) && p in s.cache
    ensures p in h.base && s.disk.pages.Keys + {p} == s.disk.pages.Keys
  {
    hide HistoryWF, LogWF, Acked, Norm, PoolWF, CacheStaged, DiskWF, Redone, DiskContent;
    CachedStage(s, h, p);
  }

  /** A flush keeps the pool in line with its history, whether it succeeds or fails: it forces the
      log before it writes. */
  lemma FlushLogged(s: Pool, h: History, p: PageId)
    requires Logged(s, h)
    ensures p in s.cache ==> NodeIndexed(s.cache[p])
    ensures Logged(Flush(s, p).0, h)
  {
    hide PoolWF, CacheStaged, LogWF, Acked, Stage, HistoryWF, Norm, NodeFits, NodeIndexed, Written, Flush, DiskWF;
    hide DiskStaged;
    CachedIndexed(s);
    if p in s.cache && IsDirty(s.cache[p]) {
      FlushDirty(s, p);
      DirtyForce(s, h, p);
      var w' := FlushUpto(s.wal.value, LastLsn(s.cache[p])).0;
      ForcedLogged(s, h, w');
      hide DiskLogged;
      if ForceWal(s.wal, LastLsn(s.cache[p])).1.Ok? && WriteOutcome(s, p).Ok? {
        WrittenLogged(s.(wal := Some(w')), h, p);
        WrittenWal(s, p, w');
      }
    } else {
      FlushCases(s, p);
    }
  }

  /** Forcing the log for a cached page makes all its entries durable. */
  lemma DirtyForce(s: Pool, h: History, p: PageId)
    requires Logged(s, h) && p in s.cache
    ensures var (w', r) := FlushUpto(s.wal.value, LastLsn(s.cache[p]));
            && HistoryWF(h) && LogWF(w', h) && Acked(s.wal.value, h) <= Acked(w', h)
            && (r.Ok? ==> Stage(h, p, Norm(s.cache[p]), 0, Acked(w', h)))
  {
    hide PoolWF, CacheStaged, LogWF, Acked, Stage, HistoryWF, Norm, DiskWF, DiskStaged, FlushUpto;
    var n, w := s.cache[p], s.wal.value;
    CachedStage(s, h, p);
    NormLsn(n);
    StageLsn(h, p, Norm(n), |h.log|);
    ForceKeeps(w, h, LastLsn(n));
    var (w', r) := FlushUpto(w, LastLsn(n));
    if r.Ok? { StageCut(h, p, Norm(n), Acked(w', h)); }
  }

  lemma NormLsn(n: Node)
    ensures LastLsn(Norm(n)) == LastLsn(n)
  {
  }

  lemma WrittenWal(s: Pool, p: PageId, w: Log)
    requires p in s.cache && NodeIndexed(s.cache[p]) && NodeFits(s.cache[p])
    ensures Written(s.(wal := Some(w)), p, Some(w)) == Written(s, p, Some(w))
  {
  }

  lemma CachedStage(s: Pool, h: History, p: PageId)
    requires Logged(s, h) && p in s.cache
    ensures HistoryWF(h) && Stage(h, p, Norm(s.cache[p]), 0, |h.log|)
  {
  }

  // ----- the operations of the pool -----

  /** Changes to the replacer and the pins only. */
  lemma SameLogged(s: Pool, s': Pool, h: History)
    requires Logged(s, h) && PoolWF(s')
    requires s'.cache == s.cache && s'.disk == s.disk && s'.wal == s.wal
    ensures Logged(s', h)
  {
    hide PoolWF, HistoryWF, LogWF, DiskStaged, DiskWF, Stage, Acked, Norm;
  }

  lemma DroppedLogged(s: Pool, h: History, p: PageId)
    requires Logged(s, h) && PoolWF(s.(cache := s.cache - {p}))
    ensures Logged(s.(cache := s.cache - {p}), h)
  {
    hide PoolWF, HistoryWF, LogWF, DiskStaged, DiskWF, Stage, Acked, Norm;
  }

  lemma RoomLogged(s: Pool, h: History)
    requires Logged(s, h)
    ensures Logged(MakeRoom(s).0, h) && Logged(Evict(s).0, h)
  {
    hide PoolWF, DiskLogged, CacheStaged, Evict, Flush, Drop;
    EvictCases(s);
    EvictKeepsWF(s);
    var found := LastWhere(s.lru, Unpinned(s.pins));
    if found.Some? {
      var s0, victim := s.(lru := Drop(s.lru, found.value)), s.lru[found.value];
      SameLogged(s, s0, h);
      FlushLogged(s0, h, victim);
      if Flush(s0, victim).1.Ok? { DroppedLogged(Flush(s0, victim).0, h, victim); }
    }
  }

  /** Loading a page brings in a stage of it. */
  lemma LoadedLogged(s: Pool, s': Pool, h: History, p: PageId)
    requires Logged(s, h) && PoolWF(s') && ReadDisk(s.disk, p).Ok?
    requires s'.cache == s.cache[p := ReadDisk(s.disk, p).value] && s'.disk == s.disk && s'.wal == s.wal
    ensures Logged(s', h)
  {
    ReadShows(s.disk, p);
    hide PoolWF, HistoryWF, LogWF, DiskWF, Acked, Norm, DiskContent, ReadDisk, Stage, DiskStaged, CacheStaged;
    DiskStage(s, h, p);
    LoadedStaged(s, s', h, p, ReadDisk(s.disk, p).value);
  }

  lemma ReadShows(d: Disk, p: PageId)
    requires ReadDisk(d, p).Ok?
    ensures p in d.pages && DiskContent(d.pages, p) == Some(Norm(ReadDisk(d, p).value))
  {
  }

  lemma LoadedStaged(s: Pool, s': Pool, h: History, p: PageId, n: Node)
    requires HistoryWF(h) && CacheStaged(s, h) && Stage(h, p, Norm(n), 0, |h.log|)
    requires s'.cache == s.cache[p := n] && s'.disk == s.disk && DiskContent(s.disk.pages, p) == Some(Norm(n))
    ensures CacheStaged(s', h)
  {
    hide HistoryWF, Stage, DiskContent, Norm, IsDirty;
  }

  lemma DiskStage(s: Pool, h: History, p: PageId)
    requires DiskLogged(s, h) && p in s.disk.pages
    ensures DiskContent(s.disk.pages, p).Some? && Stage(h, p, DiskContent(s.disk.pages, p).value, 0, |h.log|)
  {
    hide HistoryWF, LogWF, DiskWF, Acked, Norm, Redone, Decode;
  }

  lemma FetchLogged(s: Pool, h: History, p: PageId)
    requires Logged(s, h)
    ensures Logged(Fetch(s, p).0, h)
  {
    hide PoolWF, DiskLogged, CacheStaged, Evict, Touch, ReadDisk;
    FetchKeepsWF(s, p);
    RoomLogged(s, h);
    EvictKeepsWF(s);
    var s1, s' := MakeRoom(s).0, Fetch(s, p).0;
    if p in s.cache {
      SameLogged(s, s', h);
    } else if Fetch(s, p).1.Ok? {
      LoadedLogged(s1, s', h, p);
    }
  }

  lemma ReleaseLogged(s: Pool, h: History, p: PageId)
    requires Logged(s, h)
    ensures Logged(Release(s, p), h)
  {
    hide DiskLogged, CacheStaged;
    ReleaseWF(s, p);
    SameLogged(s, Release(s, p), h);
  }

  lemma {:induction false} FlushEachLogged(s: Pool, h: History, order: seq<PageId>)
    requires Logged(s, h)
    ensures Logged(FlushEach(s, order).0, h)
    decreases |order|
  {
    hide PoolWF, DiskLogged, CacheStaged, Flush;
    if order != [] {
      CachedIndexed(s);
      FlushKeepsWF(s, order[0]);
      FlushLogged(s, h, order[0]);
      if Flush(s, order[0]).1.Ok? { FlushEachLogged(Flush(s, order[0]).0, h, order[1..]); }
    }
  }

  /** What the environment may do to the disk: write cached writes back, or make some fail. */
  lemma DiskEnvLogged(s: Pool, h: History, disk: Disk)
    requires Logged(s, h) && disk.pages == s.disk.pages && disk.nextFree == s.disk.nextFree
    requires disk.stable.Keys == s.disk.stable.Keys
    requires forall p :: p in disk.stable ==>
               disk.stable[p] == s.disk.stable[p] || (p in s.disk.pages && disk.stable[p] == s.disk.pages[p])
    ensures Logged(s.(disk := disk), h)
  {
    hide PoolWF, HistoryWF, LogWF, DiskWF, Acked, Norm, Stage, DiskStaged, DiskContent, IsDirty;
    DiskKeepsWF(s, disk);
    PoolHasDisk(s.(disk := disk));
    MixedStaged(s.disk.pages, s.disk.stable, disk.stable, h, Acked(s.wal.value, h));
  }

  /** A mix of staged images is staged. */
  lemma MixedStaged(a: map<PageId, PageImage>, b: map<PageId, PageImage>, c: map<PageId, PageImage>, h: History, k: nat)
    requires HistoryWF(h) && DiskStaged(a, h, k) && DiskStaged(b, h, k) && c.Keys == b.Keys
    requires forall p :: p in c ==> c[p] == b[p] || (p in a && c[p] == a[p])
    ensures DiskStaged(c, h, k)
  {
    hide HistoryWF, Norm, Redone, Decode, Stage;
  }

  lemma FlushAllLogged(s: Pool, h: History, order: seq<PageId>)
    requires Logged(s, h)
    ensures Logged(FlushAll(s, order).0, h)
    ensures FlushAll(s, order).1.Ok? ==> FlushAll(s, order).0.disk.stable == FlushAll(s, order).0.disk.pages
  {
    hide PoolWF, CacheStaged, FlushEach, HistoryWF, LogWF, Acked, DiskWF, DiskLogged;
    FlushEachLogged(s, h, order);
    var s1 := FlushEach(s, order).0;
    StableKeys(s1, h);
    DiskEnvLogged(s1, h, s1.disk.(stable := s1.disk.pages));
  }

  lemma StableKeys(s: Pool, h: History)
    requires DiskLogged(s, h)
    ensures s.disk.pages.Keys == s.disk.stable.Keys
  {
    hide HistoryWF, LogWF, DiskWF, Acked, Stage, DiskContent;
  }
}
