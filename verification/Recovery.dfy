/** Crash recovery: replaying the log over the pages, flushing them and cutting the log. */
module Recoveries {
  import opened Base
  import opened Nodes
  import opened Codec
  import opened Lru
  import opened Wal
  import opened Pools
  import opened PoolLaws
  import opened Trees
  import opened Redo

  /** Fetches the page of an entry, redoes the entry there and lets go of the page. */
  function ReplayOne(s: Pool, e: WalEntry): (Pool, Result<()>)
    requires PoolWF(s)
  {
    var (s1, got) := Fetch(s, e.pageId);
    if got.Err? then (s1, got)
    else
      FetchKeepsWF(s, e.pageId);
      var (n, r) := RedoEntry(s1.cache[e.pageId], e);
      (Release(Put(s1, e.pageId, n), e.pageId), r)
  }

  lemma ReplayOneWF(s: Pool, e: WalEntry)
    requires PoolWF(s)
    ensures PoolWF(ReplayOne(s, e).0)
  {
    hide Fetch, RedoEntry, NodeWell;
    FetchKeepsWF(s, e.pageId);
    var s1 := Fetch(s, e.pageId).0;
    if Fetch(s, e.pageId).1.Ok? {
      CachedNodeWell(s1, e.pageId);
      ApplyWell(s1.cache[e.pageId], e);
      var n := RedoEntry(s1.cache[e.pageId], e).0;
      ReplacedWF(s1, e.pageId, n);
      ReleaseWF(Put(s1, e.pageId, n), e.pageId);
    }
  }

  lemma ReleaseWF(s: Pool, p: PageId)
    requires PoolWF(s)
    ensures PoolWF(Release(s, p))
  {
    hide NodeWell, Decode;
  }

  /** Replays the entries of a batch in order until one fails. */
  function ReplayAll(s: Pool, batch: seq<WalEntry>): (r: (Pool, Result<()>))
    requires PoolWF(s)
    ensures PoolWF(r.0)
    decreases |batch|
  {
    if batch == [] then (s, Ok(()))
    else
      var (s1, r) := ReplayAll(s, batch[..|batch| - 1]);
      if r.Err? then (s1, r)
      else
        ReplayOneWF(s1, batch[|batch| - 1]);
        ReplayOne(s1, batch[|batch| - 1])
  }

  /** Replays a batch and flushes every page, in the order the page table lists them. */
  function Replay(s: Pool, batch: seq<WalEntry>, order: seq<PageId>): (Pool, Result<U64>)
    requires PoolWF(s)
  {
    var (s1, r) := ReplayAll(s, batch);
    if r.Err? then (s1, Err(r.error))
    else
      var (s2, flushed) := FlushAll(s1, order);
      if flushed.Err? then (s2, Err(flushed.error)) else (s2, Ok(MaxLsn(batch)))
  }

  /** Startup: reads the log just opened, replays it, and only then cuts it. */
  function Init(s: Pool, w: Log, order: seq<PageId>): (Pool, Log, Result<U64>)
    requires PoolWF(s)
  {
    var (w1, read) := ReadBatch(w);
    if read.Err? then (s, w1, Err(read.error))
    else if read.value == [] then (s, w1, Ok(w1.flushedLsn))
    else
      var (s1, replayed) := Replay(s, read.value, order);
      if replayed.Err? then (s1, w1, replayed)
      else
        var (w2, cut) := Truncate(w1);
        if cut.Err? then (s1, w2, Err(cut.error))
        else
          var (w3, synced) := SyncLog(w2);
          if synced.Err? then (s1, w3, Err(synced.error)) else (s1, w3, replayed)
  }

  // ----- failures -----

  /** A replay that fails does so at one entry, all before it being replayed: its page could not be
      fetched, or the entry does not apply to it, and that error is reported. */
  lemma {:induction false} ReplayStopsAt(s: Pool, batch: seq<WalEntry>) returns (i: nat)
    requires PoolWF(s) && ReplayAll(s, batch).1.Err?
    ensures i < |batch| && ReplayAll(s, batch[..i]).1.Ok?
    ensures var s1, p := ReplayAll(s, batch[..i]).0, batch[i].pageId;
            var (s2, got) := Fetch(s1, p);
            && (got.Err? ==> ReplayAll(s, batch) == (s2, got))
            && (got.Ok? ==>
                  && p in s2.cache && NodeWell(s2.cache[p]) && LastLsn(s2.cache[p]) < batch[i].lsn
                  && Apply(s2.cache[p], batch[i]).1.Err?
                  && ReplayAll(s, batch).1 == Apply(s2.cache[p], batch[i]).1)
    decreases |batch|
  {
    hide PoolWF, Fetch, Apply, NodeWell;
    var init := batch[..|batch| - 1];
    if ReplayAll(s, init).1.Err? {
      i := ReplayStopsAt(s, init);
      assert init[..i] == batch[..i];
    } else {
      i := |batch| - 1;
      var s1, p := ReplayAll(s, init).0, batch[i].pageId;
      FetchKeepsWF(s1, p);
      if Fetch(s1, p).1.Ok? { CachedNodeWell(Fetch(s1, p).0, p); }
    }
  }

  /** A replay gives back every page it fetched, whether it fails or not. */
  lemma {:induction false} ReplayGivesBack(s: Pool, batch: seq<WalEntry>)
    requires PoolWF(s)
    ensures ReplayAll(s, batch).0.pins == s.pins
    decreases |batch|
  {
    hide PoolWF, Fetch, RedoEntry, NodeWell;
    if batch != [] {
      ReplayGivesBack(s, batch[..|batch| - 1]);
      var s1 := ReplayAll(s, batch[..|batch| - 1]).0;
      FetchKeepsWF(s1, batch[|batch| - 1].pageId);
      assert s1.pins + multiset{batch[|batch| - 1].pageId} - multiset{batch[|batch| - 1].pageId} == s1.pins;
    }
  }

  /** Replaying and flushing fails with the error of the entry, the flush or the header that failed,
      holding nothing more than before, and reports the highest LSN when none does. */
  lemma ReplayOutcome(s: Pool, batch: seq<WalEntry>, order: seq<PageId>)
    requires PoolWF(s)
    ensures var (s', r) := Replay(s, batch, order);
            var (s1, replayed) := ReplayAll(s, batch);
            var flushed := FlushAll(s1, order).1;
            && s'.pins == s.pins
            && (replayed.Err? ==> s' == s1 && r == Err(replayed.error))
            && (replayed.Ok? && flushed.Err? ==> r == Err(flushed.error))
            && (r.Ok? <==> replayed.Ok? && flushed.Ok?) && (r.Ok? ==> r.value == MaxLsn(batch))
  {
    hide PoolWF, ReplayAll, FlushEach;
    ReplayGivesBack(s, batch);
    FlushEachKeeps(ReplayAll(s, batch).0, order);
  }
}
