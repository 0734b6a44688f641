/** Startup: replay, flush, and only then cut the log; and why it can succeed. */
module Startup {
  import opened Base
  import opened Nodes
  import opened Codec
  import opened Lru
  import opened Wal
  import opened Pools
  import opened PoolLaws
  import opened PoolProgress
  import opened Trees
  import opened Redo
  import opened Recoveries
  import opened Histories
  import opened Replays

  // ----- the order of startup -----

  /** The pages on disk and synced are the base images with the whole log applied. */
  ghost predicate OnDisk(s: Pool, h: History)
    requires HistoryWF(h)
  {
    && s.disk.stable == s.disk.pages
    && forall p :: p in h.base ==>
        && Redone(h.base[p], p, h.log).Ok?
        && DiskContent(s.disk.stable, p) == Some(Redone(h.base[p], p, h.log).value)
  }

  lemma ReplayFlushes(s: Pool, h: History, order: seq<PageId>)
    requires Logged(s, h) && Lists(order, ReplayAll(s, h.log).0)
    ensures var (s', r) := Replay(s, h.log, order);
            && DiskLogged(s', h)
            && (r.Ok? ==> r.value == MaxLsn(h.log) && Logged(s', h) && Recovered(s', h) && OnDisk(s', h))
            && (r.Err? && r.error != Panic ==> Logged(s', h))
  {
    hide PoolWF, CacheStaged, LogWF, DiskWF, DiskStaged, ReplayAll, FlushAll, HistoryWF, Redone, Content, DiskContent;
    hide Reached;
    ReplayShows(s, h);
    assert h.log[..|h.log|] == h.log;
    ReplayReaches(s, h, |h.log|);
    var (s1, r) := ReplayAll(s, h.log);
    if r.Ok? {
      FlushAllLogged(s1, h, order);
      if FlushAll(s1, order).1.Ok? { FlushAllShows(s1, h, order); }
    }
  }

  /** The log can be read: the file can be rewound, and no more than three bytes are left over. */
  predicate Readable(w: Log, h: History) {
    !w.faults.seekFails && |h.tail| < 4
  }

  lemma ReadsBack(w: Log, h: History)
    requires HistoryWF(h) && w.bytes == Frames(h.log) + h.tail
    ensures Readable(w, h) ==> ReadBatch(w) == (w.(flushedLsn := MaxLsn(h.log), entryCount := |h.log|), Ok(h.log))
    ensures !Readable(w, h) ==>
              ReadBatch(w) == (w, Err(if w.faults.seekFails then Io else CorruptPage(TornWrite)))
  {
    hide Frames, MaxLsn, Torn, Rising, NodeWell, Norm;
    ReadTorn(h.log, h.tail);
  }

  /** Startup cuts the log only once every page is flushed and synced with the whole log applied;
      until then, and after every failure, the disk and the log still belong to the same history. The log
      is then as one just opened on an empty file. A
      log that cannot be read leaves everything as it is. An empty log is left as it is, too, and
      reported as LSN 0 whatever the pages carry. */
  lemma CutOnlyWhenSynced(s: Pool, h: History, w: Log, order: seq<PageId>)
    requires Logged(s, h) && w.bytes == Frames(h.log) + h.tail && Lists(order, ReplayAll(s, h.log).0)
    ensures var (s', w', r) := Init(s, w, order);
            && DiskLogged(s', h)
            && (w'.bytes == w.bytes || (w'.bytes == [] && h.log != []
                                           && Logged(s', h) && Recovered(s', h) && OnDisk(s', h)))
            && (!Readable(w, h) ==> s' == s && w' == w && r.Err?)
            && (Readable(w, h) && h.log == [] ==> s' == s && r == Ok(0) && w'.bytes == h.tail)
            && (Readable(w, h) && h.log == [] ==> w' == w.(flushedLsn := 0, entryCount := 0))
            && (h.log != [] && r.Ok? ==> r.value == MaxLsn(h.log) && w'.bytes == []
                                         && w' == OpenLog([], w.sync).(faults := w.faults))
            && (r != Err(Panic) ==> Logged(s', h))
  {
    hide PoolWF, CacheStaged, LogWF, DiskWF, DiskStaged, Replay, HistoryWF, Recovered, OnDisk, Frames, MaxLsn;
    hide Acked, Rising, Truncate, SyncLog, ReplayAll, ReadBatch, Lists;
    LoggedHistory(s, h);
    LoggedPool(s, h);
    hide Logged, DiskLogged;
    ReadsBack(w, h);
    if Readable(w, h) {
      if h.log == [] {
        EmptyLog(h);
      } else {
        ReplayFlushes(s, h, order);
        TruncateCases(ReadBatch(w).0);
        InitCases(s, w, order, h.log);
        var (s1, replayed) := Replay(s, h.log, order);
        var (w2, cut) := Truncate(ReadBatch(w).0);
        var (s', w', r) := Init(s, w, order);
        hide Init;
        assert s' == s1;
        assert replayed.Ok? ==> Logged(s1, h);
        assert replayed.Err? ==> r == replayed && w'.bytes == w.bytes;
        assert replayed.Ok? && cut.Err? ==> w' == w2;
        assert replayed.Ok? && cut.Ok? ==> w' == OpenLog([], w.sync).(faults := w.faults);
        assert r == Err(Panic) ==> replayed == Err(Panic);
      }
    }
  }

  /** Startup on a log that reads as a batch with entries. */
  lemma InitCases(s: Pool, w: Log, order: seq<PageId>, batch: seq<WalEntry>)
    requires PoolWF(s) && batch != [] && ReadBatch(w).1 == Ok(batch)
    ensures var (s', w', r) := Init(s, w, order);
            var (s1, replayed) := Replay(s, batch, order);
            var (w2, cut) := Truncate(ReadBatch(w).0);
            && s' == s1
            && w' == (if replayed.Err? then ReadBatch(w).0 else if cut.Err? then w2 else SyncLog(w2).0)
            && (replayed.Err? ==> r == replayed)
            && (replayed.Ok? && cut.Err? ==> r == Err(cut.error))
            && (replayed.Ok? && cut.Ok? ==> r == if SyncLog(w2).1.Err? then Err(SyncLog(w2).1.error) else replayed)
  {
    hide PoolWF, Replay, Truncate, SyncLog, ReadBatch;
  }

  lemma TruncateCases(w: Log)
    ensures var (w2, cut) := Truncate(w);
            && (w2 == w || w2.bytes == []) && SyncLog(w2).0.bytes == w2.bytes && (cut.Ok? ==> w2.bytes == [])
            && (cut.Ok? ==> w2 == OpenLog([], w.sync).(faults := w.faults) && SyncLog(w2).0 == w2)
            && (cut.Err? ==> cut.error == Io) && (SyncLog(w2).1.Err? ==> SyncLog(w2).1.error == Io)
            && (w.faults == NO_FAULTS ==> cut.Ok? && SyncLog(w2).1.Ok?)
  {
  }

  /** What startup reports of a log with entries: the replay's own error, or an I/O error when the file
      cannot be cut and synced; it succeeds exactly when the replay, the cut and the sync do. */
  lemma StartupOutcome(s: Pool, w: Log, order: seq<PageId>, batch: seq<WalEntry>)
    requires PoolWF(s) && batch != [] && ReadLog(w.bytes) == Ok(batch) && !w.faults.seekFails
    ensures var (r, replayed) := (Init(s, w, order).2, Replay(s, batch, order).1);
            && (replayed.Err? ==> r == replayed)
            && (r.Ok? <==> replayed.Ok? && !w.faults.resizeFails && !w.faults.syncFails)
            && (r.Ok? ==> r == Ok(MaxLsn(batch))) && (replayed.Ok? && r.Err? ==> r.error == Io)
    ensures Init(s, w, order).0 == Replay(s, batch, order).0
  {
    hide PoolWF, Replay, ReadLog, MaxLsn;
    ReplayOutcome(s, batch, order);
    ReadCounts(w);
    var w1 := ReadBatch(w).0;
    CutIsFresh(w1);
    Synced(Truncate(w1).0);
    TruncateCases(w1);
    InitCases(s, w, order, batch);
  }

  lemma EmptyLog(h: History)
    requires h.log == []
    ensures Frames(h.log) + h.tail == h.tail && MaxLsn(h.log) == 0
  {
  }

  /** The history that starts where h ends. */
  ghost function NextHistory(h: History): History
    requires HistoryWF(h) && forall p :: p in h.base ==> Redone(h.base[p], p, h.log).Ok?
  {
    History(map p | p in h.base :: Redone(h.base[p], p, h.log).value, [], [], Max(h.past, MaxLsn(h.log)))
  }

  lemma NextWF(h: History)
    requires HistoryWF(h) && forall p :: p in h.base ==> Redone(h.base[p], p, h.log).Ok?
    ensures HistoryWF(NextHistory(h))
  {
    hide NodeWell, Norm, Redone, Torn;
    NothingTorn();
    forall p | p in h.base
      ensures var n := Redone(h.base[p], p, h.log).value;
              NodeWell(n) && n == Norm(n) && LastLsn(n) <= Max(h.past, MaxLsn(h.log))
    {
      EndIsStage(h, p);
      StageLsn(h, p, Redone(h.base[p], p, h.log).value, |h.log|);
    }
  }

  lemma EndIsStage(h: History, p: PageId)
    requires HistoryWF(h) && p in h.base && Redone(h.base[p], p, h.log).Ok?
    ensures Stage(h, p, Redone(h.base[p], p, h.log).value, 0, |h.log|)
  {
    hide Redone, Rising, Norm, NodeWell;
    assert h.log[..|h.log|] == h.log;
  }

  lemma StartIsStage(h: History, p: PageId, n: Node)
    requires HistoryWF(h) && p in h.base && h.base[p] == n
    ensures Stage(h, p, n, 0, 0)
  {
    hide HistoryWF;
    assert h.log[..0] == [];
  }

  lemma NextStaged(pages: map<PageId, PageImage>, h: History)
    requires HistoryWF(h) && pages.Keys == h.base.Keys
    requires forall p :: p in h.base ==>
               && Redone(h.base[p], p, h.log).Ok?
               && DiskContent(pages, p) == Some(Redone(h.base[p], p, h.log).value)
    ensures HistoryWF(NextHistory(h)) && DiskStaged(pages, NextHistory(h), 0)
  {
    hide HistoryWF, Redone, DiskContent;
    NextWF(h);
    var h' := NextHistory(h);
    hide Stage;
    forall p | p in h'.base ensures Stage(h', p, h'.base[p], 0, 0) { StartIsStage(h', p, h'.base[p]); }
  }

  lemma NextCached(s: Pool, h: History)
    requires HistoryWF(h) && CacheStaged(s, h) && Recovered(s, h) && HistoryWF(NextHistory(h))
    ensures CacheStaged(s, NextHistory(h))
  {
    hide HistoryWF, Redone, DiskContent, IsDirty, Norm;
    forall p | p in s.cache ensures Stage(NextHistory(h), p, Norm(s.cache[p]), 0, |NextHistory(h).log|) {
      assert Stage(h, p, Norm(s.cache[p]), 0, |h.log|);
      assert Content(s, p) == Some(Norm(s.cache[p]));
      hide Stage;
      StartIsStage(NextHistory(h), p, Norm(s.cache[p]));
    }
  }

  function Emptied(w: Log): Log {
    w.(bytes := [], durable := 0)
  }

  /** After the cut a new history begins; a crash that leaves the old log behind instead still
      belongs to the old one. Either way nothing is lost. */
  lemma CutEitherWay(s: Pool, h: History)
    requires Logged(s, h) && Recovered(s, h) && OnDisk(s, h)
    ensures Logged(s.(wal := Some(Emptied(s.wal.value))), NextHistory(h))
    ensures ReplayAll(s, h.log).1.Ok? ==> forall p :: p in h.base ==> Content(ReplayAll(s, h.log).0, p) == Content(s, p)
  {
    hide PoolWF, Content, Redone, DiskContent, IsDirty, NodeWell, Stage, DiskWF, ReplayAll, Rising, LogWF, CacheStaged;
    ReplayShows(s, h);
    CutLogged(s, h);
  }

  lemma CutLogged(s: Pool, h: History)
    requires Logged(s, h) && Recovered(s, h) && OnDisk(s, h)
    ensures HistoryWF(NextHistory(h)) && Logged(s.(wal := Some(Emptied(s.wal.value))), NextHistory(h))
  {
    hide PoolWF, Content, Redone, DiskContent, IsDirty, NodeWell, Stage, DiskWF, Rising;
    StableKeys(s, h);
    NextStaged(s.disk.pages, h);
    hide HistoryWF;
    NextCached(s, h);
    var w := Emptied(s.wal.value);
    assert Frames([]) + [] == [];
    MaxLsnPrefix(h.log, Acked(s.wal.value, h), |h.log|);
    assert h.log[..|h.log|] == h.log;
    EmptiedLog(s.wal.value, h);
    hide LogWF, CacheStaged, DiskStaged, Acked;
    NewLogged(s, NextHistory(h), w);
  }

  lemma EmptiedLog(w: Log, h: History)
    requires HistoryWF(h) && LogWF(w, h) && forall p :: p in h.base ==> Redone(h.base[p], p, h.log).Ok?
    ensures LogWF(Emptied(w), NextHistory(h)) && Acked(Emptied(w), NextHistory(h)) == 0
  {
    hide HistoryWF, Redone, Complete;
    assert Frames([]) + [] == [];
    MaxLsnPrefix(h.log, Acked(w, h), |h.log|);
    assert h.log[..|h.log|] == h.log;
  }

  lemma NewLogged(s: Pool, h: History, w: Log)
    requires PoolWF(s) && HistoryWF(h) && LogWF(w, h) && CacheStaged(s, h) && DiskWF(s.disk)
    requires DiskStaged(s.disk.pages, h, Acked(w, h)) && DiskStaged(s.disk.stable, h, Acked(w, h))
    ensures Logged(s.(wal := Some(w)), h)
  {
    hide HistoryWF, LogWF, Acked, DiskStaged, DiskWF, Stage, Norm;
    WalKeepsWF(s, Some(w));
    hide PoolWF;
  }

  /** With an empty log startup hands out LSNs from the beginning again. An entry numbered from there
      lies below the LSN of a page written before, and its redo after a crash does nothing. */
  lemma CounterFallsBack(s: Pool, h: History, w: Log, order: seq<PageId>, e: WalEntry)
    requires Logged(s, h) && h.log == [] && w.bytes == h.tail && Lists(order, ReplayAll(s, h.log).0)
    requires e.pageId in h.base && Init(s, w, order).2.Ok? && e.lsn == Init(s, w, order).2.value + 1
    ensures LastLsn(h.base[e.pageId]) >= 1 ==> Redone(h.base[e.pageId], e.pageId, [e]) == Ok(h.base[e.pageId])
    ensures LastLsn(h.base[e.pageId]) == 0 ==> Redone(h.base[e.pageId], e.pageId, [e]) != Ok(h.base[e.pageId])
  {
    EmptyLog(h);
    CutOnlyWhenSynced(s, h, w, order);
    hide Init, PoolWF, LogWF, DiskWF, CacheStaged, ReplayAll, Redone, DiskStaged, Norm;
    SkippedIffSeen(h.base[e.pageId], e);
  }

  // ----- a torn log -----

  /** The error a reader reports for an entry that is not all there. */
  ghost predicate IsTorn<T>(r: Result<T>) {
    r.Err? && r.error == CorruptPage(TornWrite)
  }

  lemma FlushNotTorn(s: Pool, p: PageId)
    requires p in s.cache ==> NodeIndexed(s.cache[p])
    ensures !IsTorn(Flush(s, p).1)
  {
    hide NodeIndexed, Image;
  }

  lemma RoomNotTorn(s: Pool)
    requires PoolWF(s)
    ensures !IsTorn(MakeRoom(s).1)
  {
    hide PoolWF, Flush, NodeIndexed, Drop, Evict;
    CachedIndexed(s);
    EvictCases(s);
    var found := LastWhere(s.lru, Unpinned(s.pins));
    if found.Some? { FlushNotTorn(s.(lru := Drop(s.lru, found.value)), s.lru[found.value]); }
  }

  lemma ReadNotTorn(d: Disk, p: PageId)
    ensures !IsTorn(ReadDisk(d, p))
  {
  }

  lemma FetchNotTorn(s: Pool, p: PageId)
    requires PoolWF(s)
    ensures !IsTorn(Fetch(s, p).1)
  {
    hide PoolWF, Evict, ReadDisk, Touch;
    RoomNotTorn(s);
    if p !in s.cache && MakeRoom(s).1.Ok? {
      ReadNotTorn(MakeRoom(s).0.disk, p);
    }
  }

  lemma RedoNotTorn(n: Node, e: WalEntry)
    requires NodeWell(n)
    ensures !IsTorn(RedoEntry(n, e).1)
  {
  }

  lemma {:induction false} ReplayNotTorn(s: Pool, batch: seq<WalEntry>)
    requires PoolWF(s)
    ensures !IsTorn(ReplayAll(s, batch).1)
    decreases |batch|
  {
    hide PoolWF, Fetch, RedoEntry, NodeWell;
    if batch != [] {
      ReplayNotTorn(s, batch[..|batch| - 1]);
      var (s1, r) := ReplayAll(s, batch[..|batch| - 1]);
      var e := batch[|batch| - 1];
      if r.Ok? {
        FetchNotTorn(s1, e.pageId);
        FetchKeepsWF(s1, e.pageId);
        if Fetch(s1, e.pageId).1.Ok? {
          CachedNodeWell(Fetch(s1, e.pageId).0, e.pageId);
          RedoNotTorn(Fetch(s1, e.pageId).0.cache[e.pageId], e);
        }
      }
    }
  }

  lemma {:induction false} FlushEachNotTorn(s: Pool, order: seq<PageId>)
    requires PoolWF(s)
    ensures !IsTorn(FlushEach(s, order).1)
    decreases |order|
  {
    hide PoolWF, Flush, NodeIndexed;
    if order != [] {
      CachedIndexed(s);
      FlushNotTorn(s, order[0]);
      FlushKeepsWF(s, order[0]);
      if Flush(s, order[0]).1.Ok? { FlushEachNotTorn(Flush(s, order[0]).0, order[1..]); }
    }
  }

  lemma ReplayStageNotTorn(s: Pool, batch: seq<WalEntry>, order: seq<PageId>)
    requires PoolWF(s)
    ensures !IsTorn(Replay(s, batch, order).1)
  {
    hide PoolWF, ReplayAll, FlushEach;
    ReplayNotTorn(s, batch);
    if ReplayAll(s, batch).1.Ok? { FlushEachNotTorn(ReplayAll(s, batch).0, order); }
  }

  /** A crash that leaves four bytes or more of a frame, but not all of it, ends startup, now and ever
      after: it fails with a torn write and leaves pool and log as they are, the complete entries
      included. It fails so in no other case. */
  lemma StartupTornIff(s: Pool, h: History, c: nat, w: Log, order: seq<PageId>)
    requires DiskLogged(s, h) && s.wal.value.durable <= c <= |s.wal.value.bytes|
    requires w.bytes == s.wal.value.bytes[..c] && !w.faults.seekFails
    ensures PoolWF(Restart(s, c))
    ensures var kept := Frames(h.log[..Complete(h.log, c)]);
            var torn := Err(CorruptPage(TornWrite));
            && (Init(Restart(s, c), w, order).2 == torn <==> c >= |kept| + 4)
            && (c >= |kept| + 4 ==> Init(Restart(s, c), w, order) == (Restart(s, c), w, torn))
  {
    hide PoolWF, CacheStaged, LogWF, DiskWF, DiskStaged, HistoryWF, Replay, Truncate, SyncLog, Frames, Complete;
    hide ReadLog, Restart;
    CrashKeeps(s, h, c);
    var s0 := Restart(s, c);
    var kept := Frames(h.log[..Complete(h.log, c)]);
    LoggedPool(s0, Surviving(h, Complete(h.log, c), s.wal.value.bytes[|kept|..c]));
    hide Logged, DiskLogged;
    if c < |kept| + 4 {
      var batch := ReadBatch(w).1.value;
      if batch != [] {
        ReplayStageNotTorn(s0, batch, order);
        TruncateCases(ReadBatch(w).0);
        InitCases(s0, w, order, batch);
        var r, replayed := Init(s0, w, order).2, Replay(s0, batch, order).1;
        hide Init, ReadBatch;
        assert !IsTorn(replayed);
        assert !IsTorn(r);
      }
    }
  }

  // ----- recovery succeeds -----

  /** Every entry applies in its turn, and every page always fits. */
  ghost predicate AllFit(h: History)
    requires HistoryWF(h)
  {
    forall p, j :: p in h.base && 0 <= j <= |h.log| ==>
      Redone(h.base[p], p, h.log[..j]).Ok? && Sits(Redone(h.base[p], p, h.log[..j]).value)
  }

  lemma StageSits(h: History, p: PageId, n: Node, i: nat)
    requires HistoryWF(h) && AllFit(h) && Stage(h, p, Norm(n), i, |h.log|)
    ensures Sits(n)
  {
    hide HistoryWF, Redone, Sits;
    var j := AnyStage(h, p, Norm(n), i);
    assert Sits(Norm(n));
    NormSits(n);
  }

  lemma NormSits(n: Node)
    requires Sits(Norm(n))
    ensures Sits(n)
  {
    NormWell(n);
    WellStays(n, 0);
    match n
    case InnerNode(_) =>
    case LeafNode(_) => SameBytes(Norm(n), n);
  }

  lemma RedoApplies(h: History, p: PageId, c: Node, i: nat)
    requires HistoryWF(h) && AllFit(h) && i < |h.log| && h.log[i].pageId == p && NodeWell(c)
    requires Stage(h, p, Norm(c), i, |h.log|)
    ensures RedoEntry(c, h.log[i]).1.Ok?
  {
    hide Norm, NodeWell, Redone, Sits, AllFit, Apply, HistoryWF;
    assert p in h.base;
    hide Stage;
    var j := AnyStage(h, p, Norm(c), i);
    NormLsn(c);
    RedoNorm(c, h.log[i]);
    NextApplies(h, p, i);
    if j > i { SeenLsn(h, p, i, j); }
  }

  lemma NextApplies(h: History, p: PageId, i: nat)
    requires HistoryWF(h) && AllFit(h) && i < |h.log| && h.log[i].pageId == p && p in h.base
    ensures Redone(h.base[p], p, h.log[..i]).Ok? && RedoEntry(Redone(h.base[p], p, h.log[..i]).value, h.log[i]).1.Ok?
  {
    hide Redone, NodeWell, RedoEntry, Sits, Norm;
    RedoneStep(h.base[p], p, h.log, i);
    assert Redone(h.base[p], p, h.log[..i + 1]).Ok?;
  }

  lemma ReplayOneSucceeds(s: Pool, h: History, i: nat)
    requires Logged(s, h) && i < |h.log| && Reached(s, h, i) && AllFit(h) && Ready(s) && s.pins == multiset{}
    ensures var (s', r) := ReplayOne(s, h.log[i]); r.Ok? && Ready(s') && s'.pins == multiset{}
  {
    hide PoolWF, DiskLogged, CacheStaged, Fetch, RedoEntry, Stage, NodeWell, Ready, AllFit, Redone, Sits, Spare;
    var e, p := h.log[i], h.log[i].pageId;
    LoggedHistory(s, h);
    FetchKeepsWF(s, p);
    FetchLogged(s, h, p);
    LoggedIsCoherent(s, h);
    FetchContent(s, p);
    InPool(s, h, p, i);
    SpareIfNothingHeld(s);
    FetchReady(s, p);
    var s1 := Fetch(s, p).0;
    ReachedSame(s, s1, h, i);
    CachedReached(s1, h, p, i);
    CachedNodeWell(s1, p);
    var c := s1.cache[p];
    RedoApplies(h, p, c, i);
    RedoStage(h, p, c, i);
    var n := RedoEntry(c, e).0;
    StageSits(h, p, n, i + 1);
    hide Norm, HistoryWF, Reached;
    PutReady(s1, p, n);
    ReleaseReady(Put(s1, p, n), p);
    assert multiset{} + multiset{p} - multiset{p} == multiset{};
  }

  lemma InPool(s: Pool, h: History, p: PageId, i: nat)
    requires HistoryWF(h) && Reached(s, h, i) && p in h.base
    ensures p in s.cache || p in s.disk.pages
  {
    hide HistoryWF, Stage, Norm, Decode;
    assert Content(s, p).Some?;
  }

  lemma {:induction false} ReplaySucceedsUpto(s: Pool, h: History, i: nat)
    requires Logged(s, h) && i <= |h.log| && AllFit(h) && Ready(s) && s.pins == multiset{}
    ensures var (s', r) := ReplayAll(s, h.log[..i]); r.Ok? && Ready(s') && s'.pins == multiset{}
    decreases i
  {
    hide PoolWF, DiskLogged, CacheStaged, Reached, ReplayOne, Ready, AllFit;
    LoggedHistory(s, h);
    if i > 0 {
      PrefixOf(h.log, i - 1, i);
      ReplaySucceedsUpto(s, h, i - 1);
      ReplayReaches(s, h, i - 1);
      ReplayOneSucceeds(ReplayAll(s, h.log[..i - 1]).0, h, i - 1);
    }
  }

  lemma RestartReady(s: Pool, h: History, c: nat)
    requires s.wal.Some? && c <= |s.wal.value.bytes| && Logged(Restart(s, c), h) && AllFit(h) && Works(Restart(s, c))
    ensures Ready(Restart(s, c))
  {
    hide PoolWF, LogWF, DiskWF, Redone, Sits, Norm, Works, AllFit;
    var s0 := Restart(s, c);
    forall p | p in s0.disk.pages ensures Decode(s0.disk.pages[p]).Ok? && Sits(Decode(s0.disk.pages[p]).value) {
      DiskStage(s0, h, p);
      StageSits(h, p, Decode(s0.disk.pages[p]).value, 0);
    }
  }

  /** With a working disk, room for one page and pages that keep fitting, recovery succeeds: after a
      crash at any readable place startup cuts the log with all pages recovered, on disk and synced. */
  lemma RecoverySucceeds(s: Pool, h: History, c: nat, h': History, order: seq<PageId>, w: Log)
    requires s.wal.Some? && c <= |s.wal.value.bytes| && Logged(Restart(s, c), h') && h'.log != []
    requires AllFit(h') && Works(Restart(s, c)) && Lists(order, ReplayAll(Restart(s, c), h'.log).0)
    requires w.bytes == s.wal.value.bytes[..c] && w.faults == NO_FAULTS && |h'.tail| < 4
    ensures var (s', w', r) := Init(Restart(s, c), w, order);
            && r == Ok(MaxLsn(h'.log)) && w'.bytes == [] && Recovered(s', h') && OnDisk(s', h')
  {
    var s0 := Restart(s, c);
    hide CacheStaged, LogWF, HistoryWF, DiskWF, DiskStaged, Recovered, OnDisk, Frames, MaxLsn, ReadBatch, PoolWF;
    hide Acked, ReplayAll, Ready, AllFit, Replay, Truncate, SyncLog, Lists;
    LoggedHistory(s0, h');
    ReplaySucceeds(s, h', c, order);
    RestartLog(s, h', c, w);
    CutOnlyWhenSynced(s0, h', w, order);
    ReadsBack(w, h');
    TruncateCases(ReadBatch(w).0);
  }

  lemma RestartLog(s: Pool, h: History, c: nat, w: Log)
    requires s.wal.Some? && c <= |s.wal.value.bytes| && DiskLogged(Restart(s, c), h)
    requires w.bytes == s.wal.value.bytes[..c]
    ensures w.bytes == Frames(h.log) + h.tail
  {
    hide HistoryWF, DiskWF, DiskStaged, Frames;
  }

  lemma ReplaySucceeds(s: Pool, h: History, c: nat, order: seq<PageId>)
    requires s.wal.Some? && c <= |s.wal.value.bytes| && Logged(Restart(s, c), h) && AllFit(h) && Works(Restart(s, c))
    ensures Replay(Restart(s, c), h.log, order) == (Replay(Restart(s, c), h.log, order).0, Ok(MaxLsn(h.log)))
  {
    hide PoolWF, DiskLogged, CacheStaged, ReplayAll, Ready, AllFit, FlushAll, MaxLsn;
    RestartReady(s, h, c);
    ReplaySucceedsUpto(Restart(s, c), h, |h.log|);
    assert h.log[..|h.log|] == h.log;
    FlushAllReady(ReplayAll(Restart(s, c), h.log).0, order);
  }

  lemma FlushAllReady(s: Pool, order: seq<PageId>)
    requires Ready(s)
    ensures FlushAll(s, order).1.Ok?
  {
    FlushEachReady(s, order);
  }
}
