/** Whole runs of the system: logging, applying, caching, writing back, crashing and recovering. */
module SystemRuns {
  import opened Base
  import opened Nodes
  import opened Codec
  import L = Leaves
  import opened Lru
  import opened Wal
  import opened Pools
  import opened PoolLaws
  import opened Trees
  import opened Redo
  import opened Recoveries
  import opened Histories
  import opened Replays
  import opened Startup

  datatype System = System(pool: Pool, h: History)

  datatype Action =
    | Append(batch: seq<WalEntry>)
    | ApplyEntry(i: nat)
    | FetchPage(p: PageId)
    | ReleasePage(p: PageId)
    | FlushOne(p: PageId)
    | FlushEvery(order: seq<PageId>)
    | Writeback(p: PageId)
    | Faults(pages: set<PageId>, header: bool, log: LogFaults)
    | Crash(c: nat)
    | Recover(order: seq<PageId>)

  /** The state the theorems are about: everything cached, on disk and in the log belongs to one
      history. */
  ghost predicate Inv(y: System) {
    Logged(y.pool, y.h)
  }

  ghost predicate Appendable(h: History, batch: seq<WalEntry>) {
    && h.tail == [] && AllFramable(batch) && Rising(h.log + batch)
    && forall e :: e in batch ==> h.past < e.lsn && e.pageId in h.base
  }

  /** The entry concerns a page that has seen all entries before it, and does not panic. */
  ghost predicate Applicable(y: System, i: nat)
    requires Inv(y)
  {
    && i < |y.h.log|
    && var c := Content(y.pool, y.h.log[i].pageId);
    && c.Some? && Stage(y.h, y.h.log[i].pageId, c.value, i, |y.h.log|)
    && NodeWell(c.value) && RedoEntry(c.value, y.h.log[i]).1 != Err(Panic)
  }

  /** What the callers owe: entries are logged, with rising LSNs and not behind leftover bytes, before
      they are applied, and applied in log order page by page. A crash may cut the log anywhere behind
      its durable part. */
  ghost predicate Allowed(y: System, a: Action)
    requires Inv(y)
  {
    match a
    case Append(batch) => Appendable(y.h, batch)
    case ApplyEntry(i) => Applicable(y, i)
    case FlushEvery(order) => Lists(order, y.pool)
    case Crash(c) => y.pool.wal.value.durable <= c <= |y.pool.wal.value.bytes|
    case Recover(order) => Recoverable(y, order)
    case _ => true
  }

  /** Startup lists the cached pages in this order, and does not panic. */
  ghost predicate Recoverable(y: System, order: seq<PageId>)
    requires Inv(y)
  {
    Lists(order, ReplayAll(y.pool, y.h.log).0) && Init(y.pool, Opened(y.pool.wal.value), order).2 != Err(Panic)
  }

  /** The log file as startup opens it. */
  function Opened(w: Log): Log {
    w.(sync := false, flushedLsn := 0, entryCount := 0)
  }

  ghost function Step(y: System, a: Action): System
    requires Inv(y)
  {
    hide Logged, Allowed;
    InvPool(y);
    if !Allowed(y, a) then y
    else
      match a
      case Append(batch) => AppendStep(y, batch)
      case ApplyEntry(i) => AllowedApply(y, i); y.(pool := ReplayOne(y.pool, y.h.log[i]).0)
      case FetchPage(p) => y.(pool := Fetch(y.pool, p).0)
      case ReleasePage(p) => y.(pool := Release(y.pool, p))
      case FlushOne(p) => CachedIndexed(y.pool); y.(pool := Flush(y.pool, p).0)
      case FlushEvery(order) => y.(pool := FlushAll(y.pool, order).0)
      case Writeback(p) => y.(pool := WrittenBack(y.pool, p))
      case Faults(pages, header, log) => FaultsStep(y, pages, header, log)
      case Crash(c) => AllowedCrash(y, c); CrashStep(y, c)
      case Recover(order) => AllowedRecover(y, order); RecoverStep(y, order)
  }

  lemma InvPool(y: System)
    requires Inv(y)
    ensures PoolWF(y.pool) && HistoryWF(y.h) && y.pool.wal.Some?
  {
    hide PoolWF, HistoryWF, LogWF, DiskWF, DiskStaged, CacheStaged;
  }

  /** What a write put into the file are the first entries of the batch, and a torn one if it failed. */
  function Extended(h: History, batch: seq<WalEntry>, n: nat): History
    requires n <= |Frames(batch)|
  {
    var k := Complete(batch, n);
    var kept := |Frames(batch[..k])|;
    h.(log := h.log + batch[..k], tail := if kept <= n then Frames(batch)[..n][kept..] else [])
  }

  ghost function AppendStep(y: System, batch: seq<WalEntry>): System
    requires y.pool.wal.Some?
  {
    var w := y.pool.wal.value;
    System(y.pool.(wal := Some(WriteBatch(w, batch).0)), Extended(y.h, batch, Taken(w, |Frames(batch)|)))
  }

  function WrittenBack(s: Pool, p: PageId): Pool {
    if p in s.disk.pages then s.(disk := s.disk.(stable := s.disk.stable[p := s.disk.pages[p]])) else s
  }

  function FaultsStep(y: System, pages: set<PageId>, header: bool, log: LogFaults): System
    requires y.pool.wal.Some?
  {
    var s := y.pool;
    y.(pool := s.(disk := s.disk.(faulty := pages, headerFails := header), wal := Some(s.wal.value.(faults := log))))
  }

  ghost function CrashStep(y: System, c: nat): System
    requires y.pool.wal.Some? && c <= |y.pool.wal.value.bytes|
  {
    var k := Complete(y.h.log, c);
    var from := |Frames(y.h.log[..k])|;
    System(Restart(y.pool, c), Surviving(y.h, k, if from <= c then y.pool.wal.value.bytes[from..c] else []))
  }

  ghost function RecoverStep(y: System, order: seq<PageId>): (y': System)
    requires Inv(y) && Lists(order, ReplayAll(y.pool, y.h.log).0)
  {
    hide PoolWF, CacheStaged, DiskStaged, DiskWF, HistoryWF, Recovered, OnDisk, Init, ReplayAll, Frames, Lists;
    var w := y.pool.wal.value;
    var (s', w', r) := Init(y.pool, Opened(w), order);
    CutOnlyWhenSynced(y.pool, y.h, Opened(w), order);
    if w'.bytes == w.bytes then System(s', y.h)
    else
      RecoveredAll(s', y.h);
      System(s'.(wal := Some(Emptied(s'.wal.value))), NextHistory(y.h))
  }

  lemma RecoveredAll(s: Pool, h: History)
    requires HistoryWF(h) && Recovered(s, h)
    ensures forall p :: p in h.base ==> Redone(h.base[p], p, h.log).Ok?
  {
  }

  // ----- appending -----

  lemma AppendedStage(h: History, h': History, p: PageId, n: Node, k: nat, k': nat)
    requires HistoryWF(h) && HistoryWF(h') && h'.base == h.base && h.log <= h'.log && k <= k'
    requires Stage(h, p, n, 0, k)
    ensures Stage(h', p, n, 0, k')
  {
    hide Redone, Rising, NodeWell, Norm;
    var j: nat :| j <= k && j <= |h.log| && Redone(h.base[p], p, h.log[..j]) == Ok(n);
    assert h'.log[..j] == h.log[..j];
  }

  lemma AppendedStaged(pages: map<PageId, PageImage>, h: History, h': History, k: nat, k': nat)
    requires HistoryWF(h) && HistoryWF(h') && h'.base == h.base && h.log <= h'.log && k <= k' && DiskStaged(pages, h, k)
    ensures DiskStaged(pages, h', k')
  {
    hide HistoryWF, Stage, DiskContent;
    forall p | p in h.base ensures Stage(h', p, DiskContent(pages, p).value, 0, k') {
      AppendedStage(h, h', p, DiskContent(pages, p).value, k, k');
    }
  }

  lemma AppendedCached(s: Pool, h: History, h': History)
    requires HistoryWF(h) && HistoryWF(h') && h'.base == h.base && h.log <= h'.log && CacheStaged(s, h)
    ensures CacheStaged(s, h')
  {
    hide HistoryWF, Stage, DiskContent, Norm, IsDirty;
    forall p | p in s.cache ensures Stage(h', p, Norm(s.cache[p]), 0, |h'.log|) {
      AppendedStage(h, h', p, Norm(s.cache[p]), |h.log|, |h'.log|);
    }
  }

  lemma FirstAppendable(h: History, batch: seq<WalEntry>, k: nat)
    requires Appendable(h, batch) && k <= |batch|
    ensures Appendable(h, batch[..k])
  {
    assert forall e :: e in batch[..k] ==> e in batch;
    assert h.log + batch[..k] == (h.log + batch)[..|h.log| + k];
  }

  lemma AppendedWF(h: History, batch: seq<WalEntry>, tail: seq<Byte>)
    requires HistoryWF(h) && Appendable(h, batch) && Torn(tail)
    ensures HistoryWF(h.(log := h.log + batch, tail := tail))
  {
    hide NodeWell, Norm, Torn;
  }

  /** The file after a write: the old entries, the complete new ones and a torn one. */
  lemma AppendedBytes(h: History, batch: seq<WalEntry>, n: nat)
    requires h.tail == [] && AllFramable(batch) && n <= |Frames(batch)|
    ensures var h' := Extended(h, batch, n);
            && Frames(h'.log) + h'.tail == Frames(h.log) + h.tail + Frames(batch)[..n]
            && Torn(h'.tail) && |Frames(h.log)| <= |Frames(h'.log)|
            && (n == |Frames(batch)| ==> h'.log == h.log + batch && h'.tail == [])
  {
    hide Frames, Torn, Complete;
    var k := Complete(batch, n);
    FramesConcat(h.log, batch[..k]);
    if n < |Frames(batch)| {
      CutFrames(batch, n);
      Associates(Frames(h.log), Frames(batch[..k]), Frames(batch)[..n][|Frames(batch[..k])|..]);
    } else {
      CompleteAll(batch);
      assert batch[..k] == batch;
      assert Frames(batch)[..n][|Frames(batch)|..] == [];
      NothingTorn();
    }
  }

  lemma AppendedLog(w: Log, h: History, batch: seq<WalEntry>)
    requires HistoryWF(h) && LogWF(w, h) && Appendable(h, batch) && batch != []
    ensures var w', h' := WriteBatch(w, batch).0, Extended(h, batch, Taken(w, |Frames(batch)|));
            HistoryWF(h') && LogWF(w', h') && Acked(w, h) <= Acked(w', h')
  {
    hide HistoryWF, Rising, MaxLsn, Frames, Complete, AllFramable, Torn;
    var n := Taken(w, |Frames(batch)|);
    var w', h', k := WriteBatch(w, batch).0, Extended(h, batch, n), Complete(batch, n);
    assert AllFramable(batch) && h.tail == [];
    FirstAppendable(h, batch, k);
    AppendedBytes(h, batch, n);
    AppendedWF(h, batch[..k], h'.tail);
    CompleteMore(h.log, batch[..k], w.durable);
    CompleteMonotone(h'.log, w.durable, w'.durable);
    hide Appendable, Extended;
    if WriteBatch(w, batch).1.Err? {
      KeptMax(h.log, batch[..k], Acked(w, h), Acked(w', h'));
      UnackedLog(w, h, w', h');
    } else {
      AckedAll(w', h');
      AckedLog(w', h', h.log, batch);
    }
  }

  lemma UnackedLog(w: Log, h: History, w': Log, h': History)
    requires LogWF(w, h) && w'.bytes == Frames(h'.log) + h'.tail && w'.sync == w.sync && h'.past == h.past
    requires w'.durable == w.durable <= |w'.bytes| && w'.flushedLsn == w.flushedLsn
    requires MaxLsn(h.log[..Acked(w, h)]) <= MaxLsn(h'.log[..Acked(w', h')])
    ensures LogWF(w', h')
  {
    hide MaxLsn, Frames, Acked;
  }

  lemma AckedLog(w: Log, h: History, es: seq<WalEntry>, batch: seq<WalEntry>)
    requires w.sync && w.bytes == Frames(h.log) + h.tail && w.durable <= |w.bytes|
    requires Acked(w, h) == |h.log| && h.log == es + batch && w.flushedLsn == MaxLsn(batch)
    ensures LogWF(w, h)
  {
    hide MaxLsn, Frames, Acked;
    assert h.log[..|h.log|] == h.log;
    MaxLsnSuffix(es, batch);
  }

  lemma KeptMax(es: seq<WalEntry>, more: seq<WalEntry>, a: nat, b: nat)
    requires a <= b <= |es + more| && a <= |es|
    ensures MaxLsn(es[..a]) <= MaxLsn((es + more)[..b])
  {
    MaxLsnPrefix(es + more, a, b);
    assert (es + more)[..a] == es[..a];
  }

  lemma MaxLsnSuffix(a: seq<WalEntry>, b: seq<WalEntry>)
    ensures MaxLsn(b) <= MaxLsn(a + b)
  {
    MaxLsnIn(b);
  }

  lemma AppendKeeps(y: System, batch: seq<WalEntry>)
    requires Inv(y) && Appendable(y.h, batch) && y.pool.wal.Some?
    ensures Inv(AppendStep(y, batch))
  {
    var s, h, w := y.pool, y.h, y.pool.wal.value;
    hide PoolWF, HistoryWF, LogWF, CacheStaged, DiskStaged, DiskWF, Acked, Appendable, Extended, WriteBatch;
    if batch == [] {
      NothingAppended(y);
    } else {
      var w', h' := WriteBatch(w, batch).0, Extended(h, batch, Taken(w, |Frames(batch)|));
      AppendedLog(w, h, batch);
      ExtendedKeeps(h, batch, Taken(w, |Frames(batch)|));
      AppendedStaged(s.disk.pages, h, h', Acked(w, h), Acked(w', h'));
      AppendedStaged(s.disk.stable, h, h', Acked(w, h), Acked(w', h'));
      AppendedCached(s, h, h');
      NewLogged(s, h', w');
    }
  }

  lemma ExtendedKeeps(h: History, batch: seq<WalEntry>, n: nat)
    requires n <= |Frames(batch)|
    ensures var h' := Extended(h, batch, n); h'.base == h.base && h'.past == h.past && h.log <= h'.log
  {
  }

  lemma NothingAppended(y: System)
    requires y.pool.wal.Some? && y.h.tail == []
    ensures AppendStep(y, []) == y
  {
    hide Frame;
    assert Frames([]) == [];
    assert y.h.log + [] == y.h.log;
  }

  /** Appending behind leftover bytes is what the runs exclude. The write reports success, and what it
      wrote is durable, but what the file then holds does not read as the log with the batch behind it:
      behind at most three bytes exactly when there are any, and never behind a torn frame that goes
      past its LSN, unless that is the LSN of the batch's first entry. */
  lemma BehindATail(y: System, batch: seq<WalEntry>)
    requires Inv(y) && y.pool.wal.Some? && batch != [] && AllFramable(batch)
    requires WriteBatch(y.pool.wal.value, batch).1.Ok?
    ensures var w' := WriteBatch(y.pool.wal.value, batch).0;
            && w'.durable == |w'.bytes|
            && (|y.h.tail| < 4 && WAL_ENTRY_HEADER_SIZE + |batch[0].payload| < 0x1_0000 ==>
                  (ReadLog(w'.bytes) == Ok(y.h.log + batch) <==> y.h.tail == []))
            && (|y.h.tail| >= 13 && y.h.tail[5..13] != LE(8, batch[0].lsn) ==>
                  ReadLog(w'.bytes) != Ok(y.h.log + batch))
  {
    hide PoolWF, CacheStaged, DiskStaged, DiskWF, Frames, ReadLog, Acked, MaxLsn, Rising, NodeWell, LE;
    var w, tail := y.pool.wal.value, y.h.tail;
    assert Frames(batch)[..|Frames(batch)|] == Frames(batch);
    if |tail| < 4 && WAL_ENTRY_HEADER_SIZE + |batch[0].payload| < 0x1_0000 {
      AppendReadableIffNoTail(y.h.log, tail, batch);
    }
    if |tail| >= 13 && tail[5..13] != LE(8, batch[0].lsn) {
      var e :| Framable(e) && tail < Frame(e);
      hide Frame;
      assert tail == Frame(e)[..|tail|];
      LsnBytes(e, |tail|);
      AppendBehindTornEntry(y.h.log, e, |tail|, batch);
    }
  }

  // ----- the other actions -----

  lemma ApplyKeeps(y: System, i: nat)
    requires Inv(y) && Applicable(y, i)
    ensures Inv(y.(pool := ReplayOne(y.pool, y.h.log[i]).0))
  {
    ApplyLogged(y.pool, y.h, i);
  }

  lemma CachedContent(s: Pool, p: PageId)
    requires p in s.cache
    ensures Content(s, p) == Some(Norm(s.cache[p]))
  {
  }

  lemma ApplyLogged(s: Pool, h: History, i: nat)
    requires Logged(s, h) && i < |h.log| && Content(s, h.log[i].pageId).Some?
    requires var c := Content(s, h.log[i].pageId).value;
             Stage(h, h.log[i].pageId, c, i, |h.log|) && NodeWell(c) && RedoEntry(c, h.log[i]).1 != Err(Panic)
    ensures Logged(ReplayOne(s, h.log[i]).0, h)
  {
    hide PoolWF, DiskLogged, CacheStaged, Fetch, RedoEntry, Stage, Content, NodeWell, Norm;
    var e, p := h.log[i], h.log[i].pageId;
    LoggedHistory(s, h);
    var s1 := Fetch(s, p).0;
    FetchKeepsWF(s, p);
    FetchLogged(s, h, p);
    LoggedIsCoherent(s, h);
    FetchContent(s, p);
    if Fetch(s, p).1.Ok? {
      CachedNodeWell(s1, p);
      CachedContent(s1, p);
      var c := s1.cache[p];
      ApplyWell(c, e);
      RedoMarks(c, e);
      RedoNorm(c, e);
      var (n, r) := RedoEntry(c, e);
      StageWeaken(h, p, Norm(c), i);
      if r.Ok? {
        RedoStage(h, p, c, i);
        StageWeaken(h, p, Norm(n), i + 1);
      }
      hide HistoryWF;
      PutLogged(s1, h, p, n);
      ReleaseLogged(Put(s1, p, n), h, p);
    }
  }

  lemma CrashStepKeeps(y: System, c: nat)
    requires Inv(y) && y.pool.wal.Some? && y.pool.wal.value.durable <= c <= |y.pool.wal.value.bytes|
    ensures Inv(CrashStep(y, c))
  {
    hide PoolWF, CacheStaged, DiskStaged, DiskWF, HistoryWF, LogWF, Restart, Complete, Frames, ReadLog;
    CrashKeeps(y.pool, y.h, c);
    hide Logged, DiskLogged;
  }

  lemma RecoverKeeps(y: System, order: seq<PageId>)
    requires Inv(y) && Lists(order, ReplayAll(y.pool, y.h.log).0)
    requires y.pool.wal.Some? && Init(y.pool, Opened(y.pool.wal.value), order).2 != Err(Panic)
    ensures Inv(RecoverStep(y, order))
  {
    hide PoolWF, CacheStaged, DiskStaged, DiskWF, HistoryWF, Recovered, OnDisk, Init, ReplayAll, Acked, Frames;
    hide NextHistory, MaxLsn, Lists;
    var w := y.pool.wal.value;
    CutOnlyWhenSynced(y.pool, y.h, Opened(w), order);
    var (s', w', r) := Init(y.pool, Opened(w), order);
    hide LogWF;
    if w'.bytes != w.bytes { CutLogged(s', y.h); }
  }

  lemma FaultsKeep(y: System, pages: set<PageId>, header: bool, log: LogFaults)
    requires Inv(y) && y.pool.wal.Some?
    ensures Inv(FaultsStep(y, pages, header, log))
  {
    hide PoolWF, CacheStaged, DiskStaged, DiskWF, HistoryWF;
    var s, w := y.pool, y.pool.wal.value;
    var s1 := s.(disk := s.disk.(faulty := pages, headerFails := header));
    OtherFaults(w, y.h, log);
    hide LogWF, Acked, DiskLogged;
    InvLog(y);
    DiskEnvLogged(s, y.h, s1.disk);
    ForcedLogged(s1, y.h, w.(faults := log));
  }

  lemma InvLog(y: System)
    requires Inv(y)
    ensures DiskLogged(y.pool, y.h) && HistoryWF(y.h)
  {
  }

  lemma OtherFaults(w: Log, h: History, log: LogFaults)
    ensures LogWF(w, h) ==> LogWF(w.(faults := log), h)
    ensures Acked(w.(faults := log), h) == Acked(w, h)
  {
  }

  lemma WritebackKeeps(y: System, p: PageId)
    requires Inv(y)
    ensures Inv(y.(pool := WrittenBack(y.pool, p)))
  {
    hide PoolWF, CacheStaged, LogWF, DiskWF, HistoryWF, Stage, DiskContent, Acked;
    var s := y.pool;
    if p in s.disk.pages {
      StableKeys(s, y.h);
      var stable := s.disk.stable[p := s.disk.pages[p]];
      assert stable.Keys == s.disk.stable.Keys;
      DiskEnvLogged(s, y.h, s.disk.(stable := stable));
    }
  }

  lemma StepKeeps(y: System, a: Action)
    requires Inv(y)
    ensures Inv(Step(y, a))
  {
    hide HistoryWF, PoolWF, Applicable, Appendable, Recoverable, Lists;
    InvPool(y);
    if Allowed(y, a) {
      hide Logged, Allowed, Fetch, Flush, FlushAll, Release, AppendStep, WrittenBack, FaultsStep, CrashStep;
      hide RecoverStep;
      match a
      case Append(batch) => AllowedAppend(y, batch); AppendKeeps(y, batch);
      case ApplyEntry(i) => AllowedApply(y, i); ApplyKeeps(y, i);
      case FetchPage(p) => FetchLogged(y.pool, y.h, p);
      case ReleasePage(p) => ReleaseLogged(y.pool, y.h, p);
      case FlushOne(p) => FlushLogged(y.pool, y.h, p);
      case FlushEvery(order) => FlushAllLogged(y.pool, y.h, order);
      case Writeback(p) => WritebackKeeps(y, p);
      case Faults(pages, header, log) => FaultsKeep(y, pages, header, log);
      case Crash(c) => AllowedCrash(y, c); CrashStepKeeps(y, c);
      case Recover(order) => AllowedRecover(y, order); RecoverKeeps(y, order);
    }
  }

  lemma AllowedAppend(y: System, batch: seq<WalEntry>)
    requires Inv(y) && Allowed(y, Append(batch))
    ensures Appendable(y.h, batch)
  {
    hide Logged, Appendable;
  }

  lemma AllowedApply(y: System, i: nat)
    requires Inv(y) && Allowed(y, ApplyEntry(i))
    ensures Applicable(y, i) && i < |y.h.log|
  {
    hide Logged, Content, Stage, NodeWell;
  }

  lemma AllowedCrash(y: System, c: nat)
    requires Inv(y) && Allowed(y, Crash(c))
    ensures y.pool.wal.Some? && y.pool.wal.value.durable <= c <= |y.pool.wal.value.bytes|
  {
    hide Logged, Recoverable, Applicable, Appendable, Lists;
    InvPool(y);
  }

  lemma AllowedRecover(y: System, order: seq<PageId>)
    requires Inv(y) && Allowed(y, Recover(order))
    ensures PoolWF(y.pool) && y.pool.wal.Some?
    ensures Lists(order, ReplayAll(y.pool, y.h.log).0) && Init(y.pool, Opened(y.pool.wal.value), order).2 != Err(Panic)
  {
    hide Logged, Applicable, Appendable, Lists, Init, ReplayAll, Opened;
    InvPool(y);
  }

  /** What a running system does with an insert is what redo does with its entry, provided its LSN is
      new to the page. */
  lemma InsertIsRedo(s: Pool, p: PageId, key: U64, payload: seq<Byte>, lsn: U64)
    requires PoolWF(s) && InsertLeaf(s, p, key, payload, lsn).1 == Ok(None)
    ensures p in Fetch(s, p).0.cache
    ensures var replayed := ReplayOne(s, WalEntry(InsertOp, lsn, p, key, payload));
            lsn > LastLsn(Fetch(s, p).0.cache[p]) ==> replayed == (InsertLeaf(s, p, key, payload, lsn).0, Ok(()))
  {
    hide PoolWF, Fetch, L.Insert, NodeWell, SplitInsert;
    FetchKeepsWF(s, p);
    var s1 := Fetch(s, p).0;
    assert s1.cache[p].LeafNode?;
    CachedNodeWell(s1, p);
    WellIndexed(s1.cache[p].leaf);
    var d := L.Insert(s1.cache[p].leaf, key, payload);
    assert d.result.Ok? && d.result.value == ();
  }

  lemma WellIndexed(l: L.Leaf)
    ensures NodeWell(LeafNode(l)) ==> L.Indexed(l) && L.WellFormed(l)
  {
  }

  // ----- runs -----

  ghost function Run(y: System, acts: seq<Action>): (y': System)
    requires Inv(y)
    ensures Inv(y')
    decreases acts
  {
    if acts == [] then y
    else
      StepKeeps(y, acts[0]);
      Run(Step(y, acts[0]), acts[1..])
  }

  /** A run can start from any set of page images over an empty log. */
  lemma RunsCanStart(disk: Disk, capacity: nat, past: U64) returns (y: System)
    requires DiskWF(disk) && disk.stable == disk.pages
    requires forall p :: p in disk.pages ==> Decode(disk.pages[p]).Ok? && LastLsn(Decode(disk.pages[p]).value) <= past
    ensures Inv(y) && y.pool == Pool(map[], [], multiset{}, capacity, disk, Some(OpenLog([], true)))
    ensures y.h.log == [] && y.h.past == past && y.h.base.Keys == disk.pages.Keys
  {
    var h := History(Pages(disk), [], [], past);
    y := System(Pool(map[], [], multiset{}, capacity, disk, Some(OpenLog([], true))), h);
    PagesWF(disk, past);
    assert Frames([]) + [] == [];
    hide Stage, HistoryWF, Decode, Pages;
    StartStaged(disk, h);
  }

  function Pages(disk: Disk): map<PageId, Node> {
    map p | p in disk.pages && DiskContent(disk.pages, p).Some? :: DiskContent(disk.pages, p).value
  }

  lemma PagesWF(disk: Disk, past: U64)
    requires DiskWF(disk) && past >= 0
    requires forall p :: p in disk.pages ==> Decode(disk.pages[p]).Ok? && LastLsn(Decode(disk.pages[p]).value) <= past
    ensures HistoryWF(History(Pages(disk), [], [], past)) && Pages(disk).Keys == disk.pages.Keys
  {
    hide NodeWell, Norm, Decode, Torn;
    NothingTorn();
    forall p | p in disk.pages { NormIdempotent(Decode(disk.pages[p]).value); }
  }

  lemma StartStaged(disk: Disk, h: History)
    requires HistoryWF(h) && h.base == Pages(disk) && h.log == [] && h.base.Keys == disk.pages.Keys
    ensures DiskStaged(disk.pages, h, 0)
  {
    hide Stage, HistoryWF, DiskContent;
    forall p | p in h.base ensures Stage(h, p, h.base[p], 0, 0) { StartIsStage(h, p, h.base[p]); }
  }

  lemma NormIdempotent(n: Node)
    requires NodeWell(n)
    ensures NodeWell(Norm(n)) && Norm(Norm(n)) == Norm(n) && LastLsn(Norm(n)) == LastLsn(n)
  {
    match n
    case InnerNode(_) =>
    case LeafNode(l) => assert L.Ordered(Norm(n).leaf) == L.Ordered(l);
  }

  /** Crash recovery over whole runs. Wherever a crash after any run, with failures, crashes,
      interrupted and finished recoveries in it, cuts the log, what is left are the first entries, all
      durable ones among them, and less than a frame. With at most three bytes of that the reader finds
      exactly those entries, and a replay of them that succeeds shows every page with its entries
      applied in order, the rows of a leaf being those of its base image with every insert, update and
      delete carried out. With more the reader reports a torn write, and startup fails leaving pool and
      log as they are. */
  lemma EveryRunRecovers(y: System, acts: seq<Action>, c: nat, w: Log, order: seq<PageId>)
    requires Inv(y) && Run(y, acts).pool.wal.Some?
    requires Run(y, acts).pool.wal.value.durable <= c <= |Run(y, acts).pool.wal.value.bytes|
    requires w.bytes == Run(y, acts).pool.wal.value.bytes[..c] && !w.faults.seekFails
    ensures var y' := Run(y, acts);
            var batch := y'.h.log[..Complete(y'.h.log, c)];
            var torn := c >= |Frames(batch)| + 4;
            && Acked(y'.pool.wal.value, y'.h) <= |batch| && |Frames(batch)| <= c
            && ReadLog(w.bytes) == (if torn then Err(CorruptPage(TornWrite)) else Ok(batch))
            && HistoryWF(y'.h) && PoolWF(Restart(y'.pool, c))
            && (torn ==> Init(Restart(y'.pool, c), w, order) == (Restart(y'.pool, c), w, Err(CorruptPage(TornWrite))))
            && (ReplayAll(Restart(y'.pool, c), batch).1.Ok? ==>
                  forall p :: p in y'.h.base ==>
                    && Applied(y'.h.base[p], p, batch).Ok?
                    && Content(ReplayAll(Restart(y'.pool, c), batch).0, p)
                         == Some(Applied(y'.h.base[p], p, batch).value)
                    && RowsReplayed(y'.h.base[p], p, batch, Applied(y'.h.base[p], p, batch).value))
  {
    hide PoolWF, CacheStaged, DiskStaged, DiskWF, HistoryWF, Run, LogWF, Acked, Content, Applied, ReplayAll, Restart;
    hide Frames, Complete, ReadLog, Replay;
    var y' := Run(y, acts);
    InvPool(y');
    InvLog(y');
    hide DiskLogged, Logged;
    CrashKeeps(y'.pool, y'.h, c);
    RecoveryIsExact(y'.pool, y'.h, c);
    RefusedInit(Restart(y'.pool, c), w, order);
    var batch := y'.h.log[..Complete(y'.h.log, c)];
    if ReplayAll(Restart(y'.pool, c), batch).1.Ok? {
      hide NodeWell, RowsReplayed;
      forall p | p in y'.h.base ensures RowsReplayed(y'.h.base[p], p, batch, Applied(y'.h.base[p], p, batch).value) {
        AppliedRefinesMap(y'.h.base[p], p, batch);
      }
    }
  }

  lemma RefusedInit(s: Pool, w: Log, order: seq<PageId>)
    requires PoolWF(s) && !w.faults.seekFails
    ensures ReadLog(w.bytes).Err? ==> Init(s, w, order) == (s, w, Err(ReadLog(w.bytes).error))
  {
    hide PoolWF, Replay, ReadLog;
  }

  /** Write-ahead safety over whole runs: a page image on disk with LSN n has all its log entries up
      to n durable, and the flushed LSN is never above the highest durable one. */
  lemma WriteAhead(y: System, acts: seq<Action>, p: PageId, i: nat)
    requires Inv(y)
    requires var y' := Run(y, acts); p in y'.h.base && i < |y'.h.log| && y'.h.log[i].pageId == p
    ensures var y' := Run(y, acts);
            var w := y'.pool.wal.value;
            && DiskContent(y'.pool.disk.pages, p).Some? && DiskContent(y'.pool.disk.stable, p).Some?
            && (y'.h.log[i].lsn <= LastLsn(DiskContent(y'.pool.disk.pages, p).value) ==> i < Acked(w, y'.h))
            && (y'.h.log[i].lsn <= LastLsn(DiskContent(y'.pool.disk.stable, p).value) ==> i < Acked(w, y'.h))
            && w.flushedLsn <= Max(y'.h.past, MaxLsn(y'.h.log[..Acked(w, y'.h)]))
  {
    var y' := Run(y, acts);
    hide PoolWF, CacheStaged, DiskWF, HistoryWF, Run, DiskContent, Acked, Stage;
    var k := Acked(y'.pool.wal.value, y'.h);
    DurableOnly(y'.h, p, DiskContent(y'.pool.disk.pages, p).value, k, i);
    DurableOnly(y'.h, p, DiskContent(y'.pool.disk.stable, p).value, k, i);
  }

  lemma DurableOnly(h: History, p: PageId, n: Node, k: nat, i: nat)
    requires HistoryWF(h) && Stage(h, p, n, 0, k) && i < |h.log|
    ensures h.log[i].lsn <= LastLsn(n) ==> i < k
  {
    hide NodeWell, Redone, Norm;
    var j: nat :| j <= k && j <= |h.log| && Redone(h.base[p], p, h.log[..j]) == Ok(n);
    RedoneLsn(h.base[p], p, h.log[..j]);
    assert h.log[i] in h.log;
    if LastLsn(n) != LastLsn(h.base[p]) {
      var e :| e in h.log[..j] && e.pageId == p && e.lsn == LastLsn(n);
      var x :| 0 <= x < j && h.log[x] == e;
      if i >= k { assert h.log[x].lsn < h.log[i].lsn; }
    }
  }
}
