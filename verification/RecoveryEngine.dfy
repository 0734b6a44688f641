/** Recovery as the code runs it over the pool, proved equal to the functions of module Recoveries. */
module RecoveryEngines {
  import opened Base
  import opened Leaves
  import opened LeafPages
  import opened Nodes
  import opened Lru
  import opened Wal
  import opened Pools
  import opened PoolLaws
  import opened BufferPools
  import opened Trees
  import opened Redo
  import opened R = Recoveries

  /** Applies a log entry to a page in memory. */
  method ApplyEntry(page: PageRef, e: WalEntry) returns (r: Result<()>)
    requires NodeWell(page.Value())
    modifies page.Obj()
    ensures (page.Value(), r) == Apply(old(page.Value()), e)
  {
    match page {
      case InnerRef(_) => r := Err(CorruptPage(RecordIntoInternalNode));
      case LeafRef(leaf) =>
        match e.op {
          case InsertOp => r := leaf.InsertRecord(e.rowId, e.payload);
          case UpdateOp => r := leaf.UpdateRecord(e.rowId, e.payload);
          case DeleteOp => r := leaf.DeleteRecord(e.rowId);
        }
    }
  }

  /** Redoes an entry on a page unless the page has seen it. */
  method RedoOn(page: PageRef, e: WalEntry) returns (r: Result<()>)
    requires NodeWell(page.Value())
    modifies page.Obj()
    ensures (page.Value(), r) == RedoEntry(old(page.Value()), e)
  {
    hide Apply, NodeWell;
    if e.lsn <= LastLsn(page.Value()) { return Ok(()); }
    r := ApplyEntry(page, e);
    if r.Ok? { page.SetDirty(e.lsn); }
  }

  /** Replays one entry through the pool. */
  method ReplayEntry(pool: BufferPool, e: WalEntry) returns (r: Result<()>)
    requires pool.Valid()
    modifies pool.Repr()
    ensures pool.Valid() && (pool.State(), r) == ReplayOne(old(pool.State()), e)
    ensures forall o :: o in pool.Frames() ==> o in old(pool.Frames()) || fresh(o)
  {
    hide PoolWF, Fetch, RedoEntry, NodeWell;
    hide LruReplacer.Valid, LruReplacer.Linked, LruReplacer.Recency, BufferPool.Cached, BufferPool.Apart;
    ghost var s := pool.State();
    FetchKeepsWF(s, e.pageId);
    FailedFetchAddsNothing(s, e.pageId);
    var frame := pool.FetchPage(e.pageId);
    pool.FreshFrames(e.pageId);
    if frame.Err? { return Err(frame.error); }
    r := RedoHeld(pool, e.pageId, frame.value, e);
  }

  /** Redoes an entry on a page that is held, and lets go of it. */
  method RedoHeld(pool: BufferPool, p: PageId, frame: PageRef, e: WalEntry) returns (r: Result<()>)
    requires pool.Valid() && p in pool.pageTable && pool.pageTable[p] == frame
    modifies pool`pins, frame.Obj()
    ensures pool.Valid() && pool.pageTable == old(pool.pageTable)
    ensures p in old(pool.State()).cache && NodeWell(old(pool.State()).cache[p])
    ensures var (n, done) := RedoEntry(old(pool.State()).cache[p], e);
            pool.State() == Release(Put(old(pool.State()), p, n), p) && r == done
  {
    hide PoolWF, RedoEntry, NodeWell;
    hide LruReplacer.Valid, LruReplacer.Linked, LruReplacer.Recency, BufferPool.Cached, BufferPool.Apart;
    ghost var s := pool.State();
    CachedNodeWell(s, p);
    assert s.cache[p] == frame.Value();
    ApplyWell(s.cache[p], e);
    r := RedoOn(frame, e);
    pool.NodeChanged(p);
    pool.GiveBack(p);
  }

  /** Replays a batch and flushes every page. The order is the one the page table lists them in. */
  method Replay(pool: BufferPool, batch: seq<WalEntry>) returns (r: Result<U64>, ghost order: seq<PageId>)
    requires pool.Valid()
    modifies pool.Repr()
    ensures pool.Valid()
    ensures (pool.State(), r) == R.Replay(old(pool.State()), batch, order)
    ensures ReplayAll(old(pool.State()), batch).1.Ok? ==> Lists(order, ReplayAll(old(pool.State()), batch).0)
  {
    hide PoolWF, ReplayOne, FlushAll, Lists;
    hide LruReplacer.Valid, LruReplacer.Linked, LruReplacer.Recency, BufferPool.Cached, BufferPool.Apart;
    hide BufferPool.Frames;
    ghost var s, frames := pool.State(), pool.Frames();
    order := [];
    var maxObservedLsn: U64 := 0;
    for i := 0 to |batch|
      invariant pool.Valid() && pool.State() == ReplayAll(s, batch[..i]).0 && ReplayAll(s, batch[..i]).1.Ok?
      invariant maxObservedLsn == MaxLsn(batch[..i])
      invariant forall o :: o in pool.Frames() ==> o in frames || fresh(o)
    {
      ghost var before := pool.Frames();
      FramesStep(batch, i);
      ReplayStep(s, batch, i);
      maxObservedLsn := if maxObservedLsn < batch[i].lsn then batch[i].lsn else maxObservedLsn;
      label replaying:
      var done := ReplayEntry(pool, batch[i]);
      forall o | o in pool.Frames() ensures o in frames || fresh(o) {
        if o !in before { assert fresh@replaying(o); }
      }
      if done.Err? {
        ReplayStops(s, batch, i + 1);
        return Err(done.error), order;
      }
    }
    assert batch[..|batch|] == batch;
    var flushed;
    flushed, order := pool.FlushAllPages();
    r := if flushed.Err? then Err(flushed.error) else Ok(maxObservedLsn);
  }

  lemma ReplayStep(s: Pool, batch: seq<WalEntry>, i: nat)
    requires PoolWF(s) && i < |batch|
    ensures var (s1, r) := ReplayAll(s, batch[..i]);
            ReplayAll(s, batch[..i + 1]) == if r.Err? then (s1, r) else ReplayOne(s1, batch[i])
  {
    hide ReplayOne, PoolWF;
    assert batch[..i + 1][..i] == batch[..i];
  }

  /** Once an entry fails nothing after it is replayed. */
  lemma {:induction false} ReplayStops(s: Pool, batch: seq<WalEntry>, i: nat)
    requires PoolWF(s) && i <= |batch| && ReplayAll(s, batch[..i]).1.Err?
    ensures ReplayAll(s, batch) == ReplayAll(s, batch[..i])
    decreases |batch| - i
  {
    hide ReplayAll, PoolWF;
    if i == |batch| {
      assert batch[..i] == batch;
    } else {
      ReplayStep(s, batch, i);
      ReplayStops(s, batch, i + 1);
    }
  }

  /** Startup: reads the log, replays it, and then cuts it. */
  method Init(wal: WalManager, pool: BufferPool) returns (r: Result<U64>, ghost order: seq<PageId>)
    requires pool.Valid() && wal !in pool.Repr()
    modifies pool.Repr(), wal
    ensures pool.Valid()
    ensures (pool.State(), wal.Value(), r) == R.Init(old(pool.State()), old(wal.Value()), order)
    ensures var read := ReadBatch(old(wal.Value())).1;
            read.Ok? && ReplayAll(old(pool.State()), read.value).1.Ok? && read.value != [] ==>
              Lists(order, ReplayAll(old(pool.State()), read.value).0)
  {
    hide PoolWF, R.Replay, Lists, ReplayAll;
    hide LruReplacer.Valid, LruReplacer.Linked, LruReplacer.Recency, BufferPool.Cached, BufferPool.Apart;
    ghost var s := pool.State();
    order := [];
    var batch := wal.Read();
    pool.CachedSame();
    assert pool.State() == s;
    if batch.Err? { return Err(batch.error), order; }
    if batch.value == [] { return Ok(wal.flushedLsn), order; }
    r, order := ReplayAndCut(wal, pool, batch.value);
  }

  method ReplayAndCut(wal: WalManager, pool: BufferPool, batch: seq<WalEntry>)
    returns (r: Result<U64>, ghost order: seq<PageId>)
    requires pool.Valid() && wal !in pool.Repr()
    modifies pool.Repr(), wal
    ensures pool.Valid()
    ensures var w1 := old(wal.Value());
            var (s1, replayed) := R.Replay(old(pool.State()), batch, order);
            var (w3, cut) := CutOf(w1);
            && pool.State() == s1
            && wal.Value() == (if replayed.Err? then w1 else w3)
            && r == if replayed.Err? then replayed else if cut.Err? then Err(cut.error) else replayed
    ensures ReplayAll(old(pool.State()), batch).1.Ok? ==> Lists(order, ReplayAll(old(pool.State()), batch).0)
  {
    hide PoolWF, R.Replay, Lists, ReplayAll, CutOf, Truncate, SyncLog;
    hide LruReplacer.Valid, LruReplacer.Linked, LruReplacer.Recency, BufferPool.Cached, BufferPool.Apart;
    hide BufferPool.Frames;
    ghost var w1 := wal.Value();
    r, order := Replay(pool, batch);
    assert wal.Value() == w1;
    if r.Err? { return; }
    pool.LogsAreNoFrames(wal);
    var cut := CutBeside(wal, pool);
    if cut.Err? { r := Err(cut.error); }
  }

  /** Cutting the log leaves the pool alone. */
  method CutBeside(wal: WalManager, pool: BufferPool) returns (r: Result<()>)
    requires pool.Valid() && wal !in pool.Repr()
    modifies wal
    ensures pool.Valid() && pool.State() == old(pool.State()) && (wal.Value(), r) == CutOf(old(wal.Value()))
  {
    hide PoolWF, CutOf, LruReplacer.Valid, LruReplacer.Linked, LruReplacer.Recency, BufferPool.Cached, BufferPool.Apart;
    ghost var s := pool.State();
    r := CutLog(wal);
    pool.CachedSame();
    assert pool.State() == s;
  }

  /** Wiping the log and syncing it. */
  function CutOf(w: Log): (Log, Result<()>) {
    var (w2, cut) := Truncate(w);
    if cut.Err? then (w2, cut) else SyncLog(w2)
  }

  /** Wipes the log and syncs it. */
  method CutLog(wal: WalManager) returns (r: Result<()>)
    modifies wal
    ensures (wal.Value(), r) == CutOf(old(wal.Value()))
  {
    r := wal.Clear();
    if r.Err? { return; }
    r := wal.Sync();
  }
}
