/** Crashing and recovering: replay ends with exactly the logged pages, however often it is tried. */
module Replays {
  import opened Base
  import opened Nodes
  import opened Codec
  import opened LeafLaws
  import L = Leaves
  import opened Lru
  import opened Wal
  import opened Pools
  import opened PoolLaws
  import opened Trees
  import opened Redo
  import opened Recoveries
  import opened Histories

  // ----- redoing one entry of the history -----

  /** Redoing the next entry takes a page that has seen all before it, or more, past that entry. */
  lemma RedoStage(h: History, p: PageId, c: Node, i: nat)
    requires HistoryWF(h) && i < |h.log| && h.log[i].pageId == p && NodeWell(c)
    requires Stage(h, p, Norm(c), i, |h.log|) && RedoEntry(c, h.log[i]).1.Ok?
    ensures Stage(h, p, Norm(RedoEntry(c, h.log[i]).0), i + 1, |h.log|)
  {
    hide Norm, NodeWell, Redone, Apply, HistoryWF;
    assert p in h.base;
    var e, n, j := h.log[i], RedoEntry(c, h.log[i]).0, AnyStage(h, p, Norm(c), i);
    NormLsn(c);
    RedoNorm(c, e);
    if j > i {
      SeenLsn(h, p, i, j);
      assert n == c;
    } else {
      BaseWell(h, p);
      RedoneStep(h.base[p], p, h.log, i);
      hide RedoEntry;
      assert Redone(h.base[p], p, h.log[..i + 1]) == Ok(Norm(n));
    }
  }

  lemma BaseWell(h: History, p: PageId)
    requires HistoryWF(h) && p in h.base
    ensures NodeWell(h.base[p])
  {
  }

  /** A page that has seen an entry has at least its LSN. */
  lemma SeenLsn(h: History, p: PageId, i: nat, j: nat)
    requires HistoryWF(h) && i < j <= |h.log| && h.log[i].pageId == p && p in h.base
    requires Redone(h.base[p], p, h.log[..j]).Ok?
    ensures h.log[i].lsn <= LastLsn(Redone(h.base[p], p, h.log[..j]).value)
  {
    hide Norm, NodeWell, Redone;
    RedoneLsn(h.base[p], p, h.log[..j]);
    assert h.log[..j][i] == h.log[i];
  }

  ghost function AnyStage(h: History, p: PageId, n: Node, i: nat): (j: nat)
    requires HistoryWF(h) && Stage(h, p, n, i, |h.log|)
    ensures i <= j <= |h.log| && Redone(h.base[p], p, h.log[..j]) == Ok(n)
  {
    hide HistoryWF, Redone;
    var j: nat :| i <= j <= |h.log| && Redone(h.base[p], p, h.log[..j]) == Ok(n);
    j
  }

  /** An entry that does not apply leaves the page alone, short of a panic; one that does marks it
      dirty unless the page has seen it. */
  lemma RedoMarks(n: Node, e: WalEntry)
    requires NodeWell(n)
    ensures var (n', r) := RedoEntry(n, e);
            && (r.Ok? ==> IsDirty(n') || n' == n)
            && (r.Err? && r.error != Panic ==> n' == n)
  {
    match n
    case InnerNode(_) =>
    case LeafNode(l) =>
      FailedOpChangesNothing(l, e.rowId, e.payload);
      hide L.Insert, L.Update, L.Delete;
  }

  lemma FailedOpChangesNothing(l: L.Leaf, k: U64, payload: seq<Byte>)
    requires L.WellFormed(l)
    ensures var d := L.Insert(l, k, payload); d.result.Err? && d.result.error != Panic ==> d.leaf == l
    ensures var d := L.Update(l, k, payload); d.result.Err? ==> d.leaf == l
    ensures var d := L.Delete(l, k); d.result.Err? ==> d.leaf == l
  {
    hide L.Ordered, L.Live, L.Insert, L.Update, L.Delete, HasRoom;
    InsertRefinesMap(l, k, payload);
    UpdateRefinesMap(l, k, payload);
    DeleteRefinesMap(l, k);
  }

  lemma PutLogged(s: Pool, h: History, p: PageId, n: Node)
    requires Logged(s, h) && p in s.cache && NodeWell(n)
    requires Stage(h, p, Norm(n), 0, |h.log|) && (IsDirty(n) || n == s.cache[p])
    ensures Logged(Put(s, p, n), h)
  {
    hide PoolWF, HistoryWF, LogWF, DiskWF, DiskStaged, Acked, Norm, Stage, IsDirty, NodeWell, DiskContent;
    ReplacedWF(s, p, n);
  }

  // ----- replay -----

  /** Every page has seen at least the first i entries. */
  ghost predicate Reached(s: Pool, h: History, i: nat)
    requires HistoryWF(h)
  {
    forall p :: p in h.base ==> Content(s, p).Some? && Stage(h, p, Content(s, p).value, i, |h.log|)
  }

  lemma ReachedStart(s: Pool, h: History)
    requires Logged(s, h)
    ensures Reached(s, h, 0)
  {
    hide PoolWF, HistoryWF, LogWF, DiskWF, Acked, Norm, Redone, DiskContent;
  }

  lemma ReachedSame(s: Pool, s': Pool, h: History, i: nat)
    requires HistoryWF(h) && Reached(s, h, i) && SameContent(s, s')
    ensures Reached(s', h, i)
  {
    hide HistoryWF, Stage, Content;
  }

  /** Pages an entry does not concern have seen it, too. */
  lemma StageSkips(h: History, p: PageId, n: Node, i: nat)
    requires HistoryWF(h) && i < |h.log| && h.log[i].pageId != p && Stage(h, p, n, i, |h.log|)
    ensures Stage(h, p, n, i + 1, |h.log|)
  {
    var j := AnyStage(h, p, n, i);
    hide HistoryWF, Redone;
    if j == i {
      RedoneOther(h, p, i);
      assert Redone(h.base[p], p, h.log[..i + 1]) == Ok(n);
    }
  }

  lemma RedoneOther(h: History, p: PageId, i: nat)
    requires HistoryWF(h) && p in h.base && i < |h.log| && h.log[i].pageId != p
    ensures Redone(h.base[p], p, h.log[..i + 1]) == Redone(h.base[p], p, h.log[..i])
  {
    hide NodeWell, Redone;
    RedoneStep(h.base[p], p, h.log, i);
  }

  lemma StageWeaken(h: History, p: PageId, n: Node, i: nat)
    requires HistoryWF(h) && Stage(h, p, n, i, |h.log|)
    ensures Stage(h, p, n, 0, |h.log|)
  {
    hide HistoryWF, Redone;
  }

  lemma PutReached(s: Pool, h: History, i: nat, n: Node)
    requires HistoryWF(h) && i < |h.log| && Reached(s, h, i)
    requires Stage(h, h.log[i].pageId, Norm(n), i + 1, |h.log|)
    ensures Reached(Put(s, h.log[i].pageId, n), h, i + 1)
  {
    hide HistoryWF, Stage, DiskContent, Norm;
    var s' := Put(s, h.log[i].pageId, n);
    forall p | p in h.base ensures Content(s', p).Some? && Stage(h, p, Content(s', p).value, i + 1, |h.log|) {
      if p != h.log[i].pageId { StageSkips(h, p, Content(s, p).value, i); }
    }
  }

  /** Replaying the next entry of the history. */
  lemma ReplayOneReaches(s: Pool, h: History, i: nat)
    requires Logged(s, h) && i < |h.log| && Reached(s, h, i)
    ensures var (s', r) := ReplayOne(s, h.log[i]);
            && DiskLogged(s', h)
            && (r.Ok? ==> Logged(s', h) && Reached(s', h, i + 1))
            && (r.Err? && r.error != Panic ==> Logged(s', h))
  {
    hide PoolWF, DiskLogged, CacheStaged, Fetch, RedoEntry, Stage, Content, NodeWell, Reached;
    var e, p := h.log[i], h.log[i].pageId;
    var s1 := Fetch(s, p).0;
    FetchKeepsWF(s, p);
    FetchLogged(s, h, p);
    LoggedIsCoherent(s, h);
    FetchContent(s, p);
    LoggedHistory(s, h);
    ReachedSame(s, s1, h, i);
    if Fetch(s, p).1.Ok? {
      CachedNodeWell(s1, p);
      var c := s1.cache[p];
      var (n, r) := RedoEntry(c, e);
      ApplyWell(c, e);
      RedoMarks(c, e);
      CachedReached(s1, h, p, i);
      StageWeaken(h, p, Norm(c), i);
      var s2 := Put(s1, p, n);
      if r.Ok? {
        RedoStage(h, p, c, i);
        StageWeaken(h, p, Norm(n), i + 1);
        PutLogged(s1, h, p, n);
        PutReached(s1, h, i, n);
        ReleaseLogged(s2, h, p);
        ReachedSame(s2, Release(s2, p), h, i + 1) by { ReleaseShows(s2, p); }
      } else if r.error != Panic {
        PutLogged(s1, h, p, n);
        ReleaseLogged(s2, h, p);
      } else {
        DiskOnly(s1, Release(s2, p), h);
      }
    }
  }

  lemma LoggedHistory(s: Pool, h: History)
    requires Logged(s, h)
    ensures HistoryWF(h) && DiskLogged(s, h) && forall e :: e in h.log ==> e.pageId in h.base
  {
  }

  lemma CachedReached(s: Pool, h: History, p: PageId, i: nat)
    requires HistoryWF(h) && Reached(s, h, i) && p in s.cache && p in h.base
    ensures Stage(h, p, Norm(s.cache[p]), i, |h.log|)
  {
    hide HistoryWF, Stage, Norm;
    assert Content(s, p) == Some(Norm(s.cache[p]));
  }

  lemma DiskOnly(s: Pool, s': Pool, h: History)
    requires DiskLogged(s, h) && s'.disk == s.disk && s'.wal == s.wal
    ensures DiskLogged(s', h)
  {
    hide HistoryWF, LogWF, DiskWF, DiskStaged, Acked;
  }

  /** However far a replay gets, the disk keeps to the history; when it succeeds every page has seen
      every entry replayed. */
  lemma {:induction false} ReplayReaches(s: Pool, h: History, i: nat)
    requires Logged(s, h) && i <= |h.log|
    ensures var (s', r) := ReplayAll(s, h.log[..i]);
            && DiskLogged(s', h)
            && (r.Ok? ==> Logged(s', h) && Reached(s', h, i))
            && (r.Err? && r.error != Panic ==> Logged(s', h))
    decreases i
  {
    hide PoolWF, DiskLogged, CacheStaged, Reached, ReplayOne;
    LoggedHistory(s, h);
    if i == 0 {
      ReachedStart(s, h);
    } else {
      PrefixOf(h.log, i - 1, i);
      ReplayReaches(s, h, i - 1);
      var (s1, r) := ReplayAll(s, h.log[..i - 1]);
      if r.Ok? { ReplayOneReaches(s1, h, i - 1); }
    }
  }

  /** The pages a history ends with. */
  ghost predicate Recovered(s: Pool, h: History)
    requires HistoryWF(h)
  {
    forall p :: p in h.base ==>
               && Redone(h.base[p], p, h.log).Ok?
               && Content(s, p) == Some(Redone(h.base[p], p, h.log).value)
  }

  lemma ReachedAll(s: Pool, h: History)
    requires HistoryWF(h)
    ensures Reached(s, h, |h.log|) <==> Recovered(s, h)
  {
    hide Content, Redone, NodeWell;
    assert h.log[..|h.log|] == h.log;
    forall p | p in h.base && Content(s, p).Some?
      ensures Stage(h, p, Content(s, p).value, |h.log|, |h.log|)
              <==> Redone(h.base[p], p, h.log) == Ok(Content(s, p).value)
    {
    }
  }

  // ----- flushing what was replayed -----

  /** Flushing everything puts what the pool shows on disk and syncs it. */
  lemma FlushAllShows(s: Pool, h: History, order: seq<PageId>)
    requires Logged(s, h) && Lists(order, s) && FlushAll(s, order).1.Ok?
    ensures Logged(FlushAll(s, order).0, h) && SameContent(s, FlushAll(s, order).0)
    ensures FlushAll(s, order).0.disk.stable == FlushAll(s, order).0.disk.pages
    ensures forall p :: DiskContent(FlushAll(s, order).0.disk.pages, p) == Content(s, p)
  {
    hide PoolWF, DiskLogged, CacheStaged, FlushEach, DiskContent, Norm;
    FlushAllLogged(s, h, order);
    FlushEachKeeps(s, order);
    FlushEachLogged(s, h, order);
    var s1, s' := FlushEach(s, order).0, FlushAll(s, order).0;
    assert SameContent(s1, s');
    CleanShows(s1, h);
  }

  lemma CleanShows(s: Pool, h: History)
    requires Logged(s, h) && forall p :: p in s.cache ==> !IsDirty(s.cache[p])
    ensures forall p :: DiskContent(s.disk.pages, p) == Content(s, p)
  {
    hide PoolWF, DiskLogged, Stage, DiskContent, Norm, IsDirty;
  }

  // ----- crashes -----

  /** What is there after a crash that left the first c bytes of the log. */
  function Restart(s: Pool, c: nat): Pool
    requires s.wal.Some? && c <= |s.wal.value.bytes|
  {
    var w := s.wal.value;
    Pool(map[], [], multiset{}, s.capacity, s.disk.(pages := s.disk.stable),
         Some(w.(bytes := w.bytes[..c], durable := c, flushedLsn := 0, entryCount := 0)))
  }

  /** The history that survives: the first k entries, and what is left of a torn one. */
  function Surviving(h: History, k: nat, tail: seq<Byte>): History
    requires k <= |h.log|
  {
    h.(log := h.log[..k], tail := tail)
  }

  /** A crash keeps the durable entries, and every page on disk a stage of the history that
      survives. The reader finds that history when at most three bytes of a torn frame are left
      behind it, and reports a torn write otherwise. */
  lemma CrashKeeps(s: Pool, h: History, c: nat)
    requires DiskLogged(s, h) && s.wal.value.durable <= c <= |s.wal.value.bytes|
    ensures var w := s.wal.value;
            var k := Complete(h.log, c);
            var kept := Frames(h.log[..k]);
            && Acked(w, h) <= k && |kept| <= c
            && ReadLog(w.bytes[..c]) == (if c < |kept| + 4 then Ok(h.log[..k]) else Err(CorruptPage(TornWrite)))
            && Logged(Restart(s, c), Surviving(h, k, w.bytes[|kept|..c]))
  {
    var w, k := s.wal.value, Complete(h.log, c);
    var kept := Frames(h.log[..k]);
    hide PoolWF, CacheStaged, DiskWF, DiskStaged, Frames, Frame, Complete, ReadLog, Rising, Torn;
    CutTorn(h.log, h.tail, c);
    CompleteMonotone(h.log, w.durable, c);
    assert w.bytes[..c][|kept|..] == w.bytes[|kept|..c];
    var h' := Surviving(h, k, w.bytes[|kept|..c]);
    SurvivingWF(h, k, w.bytes[|kept|..c]);
    var w' := Restart(s, c).wal.value;
    AckedAll(w', h');
    SurvivingStaged(s.disk.stable, h, Acked(w, h), k, w.bytes[|kept|..c]);
    RestartWF(s, h, c);
    hide LogWF, HistoryWF, AllFramable;
    RestartedLogged(s, h', c, k);
  }

  lemma RestartedLogged(s: Pool, h: History, c: nat, k: nat)
    requires s.wal.Some? && c <= |s.wal.value.bytes| && PoolWF(Restart(s, c)) && HistoryWF(h)
    requires LogWF(Restart(s, c).wal.value, h) && DiskStaged(s.disk.stable, h, k)
    requires k == Acked(Restart(s, c).wal.value, h)
    ensures Logged(Restart(s, c), h)
  {
    PoolHasDisk(Restart(s, c));
    hide PoolWF, HistoryWF, LogWF, DiskStaged, DiskWF, Acked;
  }

  lemma SurvivingWF(h: History, k: nat, tail: seq<Byte>)
    requires HistoryWF(h) && k <= |h.log| && Torn(tail)
    ensures HistoryWF(Surviving(h, k, tail))
  {
    hide NodeWell, Norm;
    assert forall e :: e in h.log[..k] ==> e in h.log;
  }

  lemma SurvivingStage(h: History, k: nat, tail: seq<Byte>, p: PageId, n: Node, a: nat)
    requires HistoryWF(h) && a <= k <= |h.log| && HistoryWF(Surviving(h, k, tail)) && Stage(h, p, n, 0, a)
    ensures Stage(Surviving(h, k, tail), p, n, 0, k)
  {
    var j: nat :| j <= a && j <= |h.log| && Redone(h.base[p], p, h.log[..j]) == Ok(n);
    hide HistoryWF, Redone;
    PrefixOf(h.log, j, k);
  }

  lemma SurvivingStaged(pages: map<PageId, PageImage>, h: History, a: nat, k: nat, tail: seq<Byte>)
    requires HistoryWF(h) && a <= k <= |h.log| && DiskStaged(pages, h, a) && HistoryWF(Surviving(h, k, tail))
    ensures DiskStaged(pages, Surviving(h, k, tail), k)
  {
    hide HistoryWF, Stage, DiskContent;
    forall p | p in h.base ensures Stage(Surviving(h, k, tail), p, DiskContent(pages, p).value, 0, k) {
      SurvivingStage(h, k, tail, p, DiskContent(pages, p).value, a);
    }
  }

  lemma NormWell(n: Node)
    requires NodeWell(Norm(n))
    ensures NodeWell(n)
  {
    match n
    case InnerNode(_) =>
    case LeafNode(l) => assert L.Ordered(Norm(n).leaf) == L.Ordered(l);
  }

  lemma RestartWF(s: Pool, h: History, c: nat)
    requires DiskLogged(s, h) && c <= |s.wal.value.bytes|
    ensures PoolWF(Restart(s, c))
  {
    hide HistoryWF, LogWF, Acked, Redone, NodeWell, Decode, Norm;
    var stable := s.disk.stable;
    forall p | p in stable
        ensures p < s.disk.nextFree && (Decode(stable[p]).Ok? ==> NodeWell(Decode(stable[p]).value))
    {
      assert p in s.disk.pages;
      StageLsn(h, p, DiskContent(stable, p).value, Acked(s.wal.value, h));
      NormWell(Decode(stable[p]).value);
    }
  }

  // ----- recovery -----

  /** Crash recovery is exact. After a crash at any point of a run, replaying the entries left of the
      log over the pages on disk, whichever of them were written back, ends with every page being its
      base image with all its entries applied in order: the durable ones, and of the others those that
      are complete. */
  lemma RecoveryIsExact(s: Pool, h: History, c: nat)
    requires DiskLogged(s, h) && s.wal.value.durable <= c <= |s.wal.value.bytes|
    ensures var batch := h.log[..Complete(h.log, c)];
            && Acked(s.wal.value, h) <= |batch| && PoolWF(Restart(s, c))
            && (ReplayAll(Restart(s, c), batch).1.Ok? ==>
                  forall p :: p in h.base ==>
                    && Applied(h.base[p], p, batch).Ok?
                    && Content(ReplayAll(Restart(s, c), batch).0, p) == Some(Applied(h.base[p], p, batch).value))
  {
    hide PoolWF, LogWF, CacheStaged, DiskStaged, DiskWF, Acked, Content, Redone, Applied, ReplayAll, Restart, Frames;
    hide Complete, ReadLog;
    CrashKeeps(s, h, c);
    var k, w := Complete(h.log, c), s.wal.value;
    var h' := Surviving(h, k, w.bytes[|Frames(h.log[..k])|..c]);
    LoggedPool(Restart(s, c), h');
    ReplayShows(Restart(s, c), h');
    if ReplayAll(Restart(s, c), h'.log).1.Ok? {
      forall p | p in h.base ensures Redone(h.base[p], p, h'.log) == Applied(h.base[p], p, h'.log) {
        NewerThanBase(h', p);
        GuardNeverBites(h'.base[p], p, h'.log);
      }
    }
  }

  lemma LoggedPool(s: Pool, h: History)
    requires Logged(s, h)
    ensures PoolWF(s) && HistoryWF(h)
  {
  }

  lemma NewerThanBase(h: History, p: PageId)
    requires HistoryWF(h) && p in h.base
    ensures Newer(h.base[p], p, h.log) && Rising(h.log)
  {
  }

  /** A replay of the whole log that succeeds shows every page with all its entries applied. */
  lemma ReplayShows(s: Pool, h: History)
    requires Logged(s, h)
    ensures var (s', r) := ReplayAll(s, h.log);
            && DiskLogged(s', h) && (r.Ok? ==> Logged(s', h) && Recovered(s', h))
  {
    hide PoolWF, LogWF, CacheStaged, DiskStaged, DiskWF, ReplayAll, Reached, HistoryWF, Recovered;
    assert h.log[..|h.log|] == h.log;
    ReplayReaches(s, h, |h.log|);
    ReachedAll(ReplayAll(s, h.log).0, h);
  }

  /** Replaying twice is replaying once. */
  lemma ReplayTwice(s: Pool, h: History)
    requires Logged(s, h) && ReplayAll(s, h.log).1.Ok?
    ensures var s1 := ReplayAll(s, h.log).0;
            ReplayAll(s1, h.log).1.Ok? ==>
              forall p :: p in h.base ==> Content(ReplayAll(s1, h.log).0, p) == Content(s1, p)
  {
    hide PoolWF, LogWF, CacheStaged, DiskStaged, DiskWF, ReplayAll, Content, Redone;
    ReplayShows(s, h);
    ReplayShows(ReplayAll(s, h.log).0, h);
  }

  /** Where an interrupted replay of the first i entries may have got to: it replayed them or failed
      among them, or was flushing pages afterwards. */
  ghost predicate Interrupted(s: Pool, h: History, i: nat, s1: Pool)
    requires PoolWF(s) && i <= |h.log|
  {
    var (s', r) := ReplayAll(s, h.log[..i]);
    s1 == s' || (r.Ok? && exists order :: s1 == FlushEach(s', order).0)
  }

  /** What a crash during that replay may find on disk: of every page any image it has had there, the
      synced one of before, one written by an eviction after some entry, or one of the last flush. */
  ghost predicate LeftOnDisk(s: Pool, h: History, i: nat, s1: Pool, stable: map<PageId, PageImage>)
    requires PoolWF(s) && i <= |h.log|
  {
    && stable.Keys == s.disk.stable.Keys
    && forall p :: p in stable ==>
         || stable[p] == s.disk.stable[p]
         || (p in s1.disk.pages && stable[p] == s1.disk.pages[p])
         || exists j :: 0 <= j <= i && WrittenAfter(s, h, j, p, stable[p])
  }

  ghost predicate WrittenAfter(s: Pool, h: History, j: nat, p: PageId, image: PageImage)
    requires PoolWF(s) && j <= |h.log|
  {
    var s' := ReplayAll(s, h.log[..j]).0;
    p in s'.disk.pages && image == s'.disk.pages[p]
  }

  /** Recovery is restartable. A replay may crash anywhere, with any of the pages it changed written
      back in any of their states; the replay after that starts from those images, and ends with the
      same pages as one that was never interrupted. */
  lemma RecoveryRestarts(s: Pool, h: History, i: nat, s1: Pool, stable: map<PageId, PageImage>)
    requires Logged(s, h) && |h.tail| < 4 && i <= |h.log|
    requires Interrupted(s, h, i, s1) && LeftOnDisk(s, h, i, s1, stable)
    ensures s1.wal.Some? && ReadLog(s1.wal.value.bytes) == Ok(h.log)
    ensures var s2 := Restart(s1.(disk := s1.disk.(stable := stable)), |s1.wal.value.bytes|);
            && s2.disk.pages == stable && PoolWF(s2)
            && (ReplayAll(s2, h.log).1.Ok? ==> HistoryWF(h) && Recovered(ReplayAll(s2, h.log).0, h))
  {
    hide PoolWF, CacheStaged, DiskStaged, DiskWF, ReplayAll, HistoryWF, Recovered, ReadLog, Frames, LeftOnDisk, Torn;
    InterruptedLogged(s, h, i, s1);
    var w := s1.wal.value;
    LeftStaged(s, h, i, s1, stable);
    AllDurableLog(w, h);
    MixedLogged(s1, h, stable);
    var left := s1.(disk := s1.disk.(stable := stable), wal := Some(w.(durable := |w.bytes|)));
    var s2 := Restart(s1.(disk := s1.disk.(stable := stable)), |w.bytes|);
    assert s2 == Restart(left, |w.bytes|);
    CrashKeeps(left, h, |w.bytes|);
    WholeLog(w, h);
    assert w.bytes[..|w.bytes|] == w.bytes;
    hide LogWF, Restart;
    LoggedPool(s2, h);
    ReplayShows(s2, h);
  }

  lemma InterruptedLogged(s: Pool, h: History, i: nat, s1: Pool)
    requires Logged(s, h) && i <= |h.log| && Interrupted(s, h, i, s1)
    ensures DiskLogged(s1, h)
  {
    hide PoolWF, CacheStaged, DiskLogged, ReplayAll, FlushEach;
    ReplayReaches(s, h, i);
    var (s', r) := ReplayAll(s, h.log[..i]);
    if s1 != s' {
      var order :| s1 == FlushEach(s', order).0;
      FlushEachLogged(s', h, order);
    }
  }

  /** Every image left behind is a stage of its page. */
  lemma LeftStaged(s: Pool, h: History, i: nat, s1: Pool, stable: map<PageId, PageImage>)
    requires Logged(s, h) && DiskLogged(s1, h) && i <= |h.log| && LeftOnDisk(s, h, i, s1, stable)
    ensures HistoryWF(h) && DiskStaged(stable, h, |h.log|)
  {
    hide HistoryWF, LogWF, PoolWF, CacheStaged, Stage, ReplayAll, DiskWF, DiskContent, Acked;
    StableKeys(s, h);
    LoggedKeys(s, h);
    hide DiskLogged, DiskStaged;
    forall p | p in h.base
      ensures DiskContent(stable, p).Some? && Stage(h, p, DiskContent(stable, p).value, 0, |h.log|)
    {
      LeftStage(s, h, i, s1, stable, p);
    }
    StagedAll(stable, h);
  }

  lemma StagedAll(pages: map<PageId, PageImage>, h: History)
    requires HistoryWF(h) && pages.Keys == h.base.Keys
    requires forall p :: p in h.base ==>
               && DiskContent(pages, p).Some?
               && Stage(h, p, DiskContent(pages, p).value, 0, |h.log|)
    ensures DiskStaged(pages, h, |h.log|)
  {
  }

  lemma LeftStage(s: Pool, h: History, i: nat, s1: Pool, stable: map<PageId, PageImage>, p: PageId)
    requires Logged(s, h) && DiskLogged(s1, h) && i <= |h.log| && LeftOnDisk(s, h, i, s1, stable)
    requires p in s.disk.stable
    ensures DiskContent(stable, p).Some? && Stage(h, p, DiskContent(stable, p).value, 0, |h.log|)
  {
    hide HistoryWF, LogWF, PoolWF, CacheStaged, Stage, ReplayAll, DiskWF, DiskContent, Acked, DiskLogged, DiskStaged;
    if stable[p] == s.disk.stable[p] {
      SameImage(stable, s.disk.stable, p);
      StableStage(s, h, p);
    } else if p in s1.disk.pages && stable[p] == s1.disk.pages[p] {
      DiskStage(s1, h, p);
      SameImage(stable, s1.disk.pages, p);
    } else {
      var j :| 0 <= j <= i && WrittenAfter(s, h, j, p, stable[p]);
      ReplayReaches(s, h, j);
      var s' := ReplayAll(s, h.log[..j]).0;
      DiskStage(s', h, p);
      SameImage(stable, s'.disk.pages, p);
    }
  }

  lemma StableStage(s: Pool, h: History, p: PageId)
    requires DiskLogged(s, h) && p in s.disk.stable
    ensures DiskContent(s.disk.stable, p).Some? && Stage(h, p, DiskContent(s.disk.stable, p).value, 0, |h.log|)
  {
    hide HistoryWF, LogWF, DiskWF, Acked, Norm, Redone, Decode;
  }

  lemma LoggedKeys(s: Pool, h: History)
    requires DiskLogged(s, h)
    ensures s.disk.pages.Keys == h.base.Keys
  {
    hide HistoryWF, LogWF, DiskWF, Acked, Stage, DiskContent;
  }

  lemma SameImage(a: map<PageId, PageImage>, b: map<PageId, PageImage>, p: PageId)
    requires p in a && p in b && a[p] == b[p]
    ensures DiskContent(a, p) == DiskContent(b, p)
  {
  }

  /** With the whole log durable, any staged images may be the ones that survive. */
  lemma MixedLogged(s: Pool, h: History, stable: map<PageId, PageImage>)
    requires DiskLogged(s, h) && DiskStaged(stable, h, |h.log|)
    requires LogWF(s.wal.value.(durable := |s.wal.value.bytes|), h)
    requires Acked(s.wal.value.(durable := |s.wal.value.bytes|), h) == |h.log|
    ensures DiskLogged(s.(disk := s.disk.(stable := stable),
                              wal := Some(s.wal.value.(durable := |s.wal.value.bytes|))), h)
  {
    hide HistoryWF, LogWF, Acked, DiskStaged, DiskWF;
    StagedMore(s.disk.pages, h, Acked(s.wal.value, h), |h.log|);
    OtherStable(s.disk, stable);
  }

  lemma OtherStable(d: Disk, stable: map<PageId, PageImage>)
    requires DiskWF(d)
    ensures DiskWF(d.(stable := stable))
  {
    hide Decode, NodeWell;
  }

  lemma AllDurableLog(w: Log, h: History)
    requires HistoryWF(h) && LogWF(w, h)
    ensures LogWF(w.(durable := |w.bytes|), h) && Acked(w.(durable := |w.bytes|), h) == |h.log|
  {
    hide HistoryWF, Frames, MaxLsn;
    AckedAll(w.(durable := |w.bytes|), h);
    MaxLsnPrefix(h.log, Acked(w, h), |h.log|);
  }

  lemma WholeLog(w: Log, h: History)
    requires HistoryWF(h) && LogWF(w, h)
    ensures Complete(h.log, |w.bytes|) == |h.log| && h.log[..|h.log|] == h.log
    ensures |w.bytes| == |Frames(h.log)| + |h.tail|
    ensures Surviving(h, |h.log|, w.bytes[|Frames(h.log)|..|w.bytes|]) == h
  {
    hide Rising, NodeWell, Norm, Frames, Frame, Torn;
    CompleteAll(h.log);
    CompleteMonotone(h.log, |Frames(h.log)|, |w.bytes|);
    assert (Frames(h.log) + h.tail)[|Frames(h.log)|..] == h.tail;
  }
}
