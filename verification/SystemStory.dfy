/**
 The whole story of a run: from the first images on, through every crash and every recovery that cut
 the log, no acknowledged entry is lost and every page is its first image with all that survived applied.
 */
module SystemStory {
  import opened Base
  import opened Nodes
  import opened Lru
  import opened Wal
  import opened Pools
  import opened PoolLaws
  import opened Trees
  import opened Redo
  import opened Recoveries
  import opened Histories
  import opened Replays
  import opened Startup
  import opened SystemRuns

  /** The pages at the beginning, the entries recovered and cut from the log so far, in order, and those
      whose append reported success. */
  datatype Story = Story(first: map<PageId, Node>, cut: seq<WalEntry>, acked: set<WalEntry>)

  ghost function Tell(y: System, a: Action, t: Story): Story
    requires Inv(y)
  {
    hide Logged, Allowed;
    InvPool(y);
    if !Allowed(y, a) then t
    else
      match a
      case Append(batch) =>
        if WriteBatch(y.pool.wal.value, batch).1.Ok? then t.(acked := t.acked + set e | e in batch) else t
      case Recover(order) =>
        if Init(y.pool, Opened(y.pool.wal.value), order).1.bytes == y.pool.wal.value.bytes then t
        else t.(cut := t.cut + y.h.log)
      case _ => t
  }

  /** The bases of the history are the first images with the entries cut so far applied in order, and
      every acknowledged entry is among those or durable in the log. */
  ghost predicate Truth(y: System, t: Story) {
    && Inv(y) && t.first.Keys == y.h.base.Keys
    && (forall p :: p in t.first ==> NodeWell(t.first[p]) && Applied(t.first[p], p, t.cut) == Ok(y.h.base[p]))
    && Rising(t.cut) && (forall e :: e in t.cut ==> e.lsn <= y.h.past)
    && y.pool.wal.Some? && AckedKept(t, y.h.log[..Acked(y.pool.wal.value, y.h)])
  }

  ghost predicate AckedKept(t: Story, durable: seq<WalEntry>) {
    forall e :: e in t.acked ==> e in t.cut || e in durable
  }

  // ----- the durable part of the log never shrinks while the system is up -----

  ghost predicate Grows(s: Pool, s': Pool) {
    s.wal.Some? && s.wal.value.durable <= |s.wal.value.bytes| ==>
      && s'.wal.Some? && s'.wal.value.bytes == s.wal.value.bytes
      && s.wal.value.durable <= s'.wal.value.durable <= |s'.wal.value.bytes|
  }

  lemma FlushGrows(s: Pool, p: PageId)
    requires p in s.cache ==> NodeIndexed(s.cache[p])
    ensures Grows(s, Flush(s, p).0)
  {
    hide NodeIndexed, NodeFits;
  }

  lemma RoomGrows(s: Pool)
    requires PoolWF(s)
    ensures Grows(s, MakeRoom(s).0)
  {
    hide PoolWF, Flush, NodeIndexed, Drop, Evict;
    EvictCases(s);
    var found := LastWhere(s.lru, Unpinned(s.pins));
    if found.Some? {
      var s0 := s.(lru := Drop(s.lru, found.value));
      CachedIndexed(s0);
      FlushGrows(s0, s.lru[found.value]);
    }
  }

  lemma FetchGrows(s: Pool, p: PageId)
    requires PoolWF(s)
    ensures Grows(s, Fetch(s, p).0)
  {
    hide PoolWF, Evict, ReadDisk, Touch;
    RoomGrows(s);
  }

  lemma ReplayOneGrows(s: Pool, e: WalEntry)
    requires PoolWF(s)
    ensures Grows(s, ReplayOne(s, e).0)
  {
    hide PoolWF, Fetch, RedoEntry, NodeWell;
    FetchGrows(s, e.pageId);
  }

  lemma {:induction false} ReplayAllGrows(s: Pool, batch: seq<WalEntry>)
    requires PoolWF(s)
    ensures Grows(s, ReplayAll(s, batch).0)
    decreases |batch|
  {
    hide PoolWF, ReplayOne;
    if batch != [] {
      ReplayAllGrows(s, batch[..|batch| - 1]);
      var (s1, r) := ReplayAll(s, batch[..|batch| - 1]);
      if r.Ok? { ReplayOneGrows(s1, batch[|batch| - 1]); }
    }
  }

  lemma {:induction false} FlushEachGrows(s: Pool, order: seq<PageId>)
    requires PoolWF(s)
    ensures Grows(s, FlushEach(s, order).0)
    decreases |order|
  {
    hide PoolWF, Flush, NodeIndexed;
    if order != [] {
      CachedIndexed(s);
      FlushGrows(s, order[0]);
      FlushKeepsWF(s, order[0]);
      if Flush(s, order[0]).1.Ok? { FlushEachGrows(Flush(s, order[0]).0, order[1..]); }
    }
  }

  lemma FlushAllGrows(s: Pool, order: seq<PageId>)
    requires PoolWF(s)
    ensures Grows(s, FlushAll(s, order).0)
  {
    hide PoolWF, FlushEach;
    FlushEachGrows(s, order);
  }

  lemma InitGrows(s: Pool, w: Log, order: seq<PageId>)
    requires PoolWF(s)
    ensures Grows(s, Init(s, w, order).0)
  {
    hide PoolWF, ReplayAll, FlushAll, ReadBatch, Truncate, SyncLog;
    var read := ReadBatch(w).1;
    if read.Ok? {
      ReplayAllGrows(s, read.value);
      if ReplayAll(s, read.value).1.Ok? { FlushAllGrows(ReplayAll(s, read.value).0, order); }
    }
  }

  /** What stays durable stays acknowledged. */
  lemma GrownTruth(y: System, y': System, t: Story)
    requires Truth(y, t) && Inv(y') && y'.h == y.h && Grows(y.pool, y'.pool)
    ensures Truth(y', t)
  {
    hide PoolWF, CacheStaged, DiskStaged, DiskWF, HistoryWF, Frames, MaxLsn, Rising, Applied, NodeWell, Complete;
    CompleteMonotone(y.h.log, y.pool.wal.value.durable, y'.pool.wal.value.durable);
    MorePrefix(t, y.h.log, Acked(y.pool.wal.value, y.h), Acked(y'.pool.wal.value, y'.h));
  }

  lemma MorePrefix(t: Story, es: seq<WalEntry>, i: nat, j: nat)
    requires i <= j <= |es| && AckedKept(t, es[..i])
    ensures AckedKept(t, es[..j])
  {
    assert es[..i] == es[..j][..i];
  }

  // ----- appending, crashing, cutting -----

  lemma TellAppend(y: System, batch: seq<WalEntry>, t: Story)
    requires Inv(y) && y.pool.wal.Some? && Appendable(y.h, batch)
    ensures Tell(y, Append(batch), t) ==
            if WriteBatch(y.pool.wal.value, batch).1.Ok? then t.(acked := t.acked + set e | e in batch) else t
  {
    hide Logged, Appendable, WriteBatch;
  }

  /** A longer log with more of it durable. */
  lemma LongerTruth(y: System, y': System, t: Story, t': Story)
    requires Truth(y, t) && Inv(y') && y'.pool.wal.Some? && y'.h.base == y.h.base && y'.h.past == y.h.past
    requires t'.first == t.first && t'.cut == t.cut && AckedKept(t', y'.h.log[..Acked(y'.pool.wal.value, y'.h)])
    ensures Truth(y', t')
  {
    hide Inv, Rising, Applied, NodeWell, Acked, AckedKept;
  }

  lemma AppendTold(y: System, t: Story, batch: seq<WalEntry>)
    requires Truth(y, t) && Appendable(y.h, batch)
    ensures Truth(AppendStep(y, batch), Tell(y, Append(batch), t))
  {
    hide Logged, HistoryWF, LogWF, Appendable, Rising, Applied, NodeWell, Frames, Complete, WriteBatch, Extended, Tell;
    hide AckedKept;
    InvParts(y);
    TellAppend(y, batch, t);
    AppendKeeps(y, batch);
    var w, h := y.pool.wal.value, y.h;
    var y', t' := AppendStep(y, batch), Tell(y, Append(batch), t);
    if batch == [] {
      NothingAppended0(y);
      NoneAcked(t);
    } else {
      ExtendedKeeps(h, batch, Taken(w, |Frames(batch)|));
      AppendedLog(w, h, batch);
      PrefixKept(t, h.log, y'.h.log, Acked(w, h), Acked(y'.pool.wal.value, y'.h));
      if WriteBatch(w, batch).1.Ok? {
        WrittenWhole(w, h, batch);
        assert y'.h.log[..|y'.h.log|] == y'.h.log;
        NowAcked(t, h.log, batch);
      }
      LongerTruth(y, y', t, t');
    }
  }

  lemma NoneAcked(t: Story)
    ensures t.(acked := t.acked + set e: WalEntry | e in []) == t
  {
    assert t.acked + {} == t.acked;
  }

  lemma NothingAppended0(y: System)
    requires Inv(y) && Appendable(y.h, []) && y.pool.wal.Some?
    ensures AppendStep(y, []) == y
  {
    hide Logged, Rising, AllFramable;
    NothingAppended(y);
  }

  lemma InvParts(y: System)
    requires Inv(y)
    ensures y.pool.wal.Some? && HistoryWF(y.h) && LogWF(y.pool.wal.value, y.h)
  {
  }

  lemma PrefixKept(t: Story, es: seq<WalEntry>, more: seq<WalEntry>, i: nat, j: nat)
    requires i <= |es| && es <= more && i <= j <= |more| && AckedKept(t, es[..i])
    ensures AckedKept(t, more[..j])
  {
    assert more[..i] == es[..i];
    MorePrefix(t, more, i, j);
  }

  /** A write that succeeds puts all of the batch into the log, durable. */
  lemma WrittenWhole(w: Log, h: History, batch: seq<WalEntry>)
    requires HistoryWF(h) && LogWF(w, h) && Appendable(h, batch) && batch != [] && WriteBatch(w, batch).1.Ok?
    ensures var w', h' := WriteBatch(w, batch).0, Extended(h, batch, Taken(w, |Frames(batch)|));
            h'.log == h.log + batch && Acked(w', h') == |h'.log|
  {
    hide HistoryWF, Rising, MaxLsn, Frames, Complete, AllFramable, Torn;
    var n := Taken(w, |Frames(batch)|);
    AppendedBytes(h, batch, n);
    AckedAll(WriteBatch(w, batch).0, Extended(h, batch, n));
  }

  lemma NowAcked(t: Story, es: seq<WalEntry>, batch: seq<WalEntry>)
    requires AckedKept(t, es + batch)
    ensures AckedKept(t.(acked := t.acked + set e | e in batch), es + batch)
  {
  }

  lemma CrashTold(y: System, t: Story, c: nat)
    requires Truth(y, t) && y.pool.wal.value.durable <= c <= |y.pool.wal.value.bytes|
    ensures Truth(CrashStep(y, c), t)
  {
    CrashStepKeeps(y, c);
    InvParts(y);
    var w, h, k := y.pool.wal.value, y.h, Complete(y.h.log, c);
    hide Logged, HistoryWF, LogWF, Rising, Applied, NodeWell, Frames, Complete, Restart;
    CompleteMonotone(h.log, w.durable, c);
    CrashAcked(y, c);
    MorePrefix(t, h.log, Acked(w, h), k);
  }

  lemma CrashAcked(y: System, c: nat)
    requires Inv(y) && y.pool.wal.Some? && y.pool.wal.value.durable <= c <= |y.pool.wal.value.bytes|
    ensures var y', k := CrashStep(y, c), Complete(y.h.log, c);
            && y'.h.base == y.h.base && y'.h.past == y.h.past && y'.h.log == y.h.log[..k]
            && y'.pool.wal.Some? && y'.h.log[..Acked(y'.pool.wal.value, y'.h)] == y.h.log[..k]
  {
    hide Logged, HistoryWF, LogWF, Frames, Complete, ReadLog;
    var y', k := CrashStep(y, c), Complete(y.h.log, c);
    AckedAll(y'.pool.wal.value, y'.h);
    assert y'.h.log[..|y'.h.log|] == y'.h.log;
  }

  /** Applying one list and then another is applying both. */
  lemma {:induction false} AppliedConcat(n: Node, p: PageId, a: seq<WalEntry>, b: seq<WalEntry>)
    requires NodeWell(n) && Applied(n, p, a).Ok?
    ensures Applied(n, p, a + b) == Applied(Applied(n, p, a).value, p, b)
    decreases |b|
  {
    hide NodeWell, Apply, Norm;
    if b == [] {
      assert a + b == a;
    } else {
      assert (a + b)[..|a + b| - 1] == a + b[..|b| - 1];
      AppliedConcat(n, p, a, b[..|b| - 1]);
    }
  }

  lemma RisingConcat(a: seq<WalEntry>, b: seq<WalEntry>, past: U64)
    requires Rising(a) && Rising(b) && (forall e :: e in a ==> e.lsn <= past) && (forall e :: e in b ==> past < e.lsn)
    ensures Rising(a + b)
  {
    forall i, j | 0 <= i < j < |a + b| ensures (a + b)[i].lsn < (a + b)[j].lsn {
      if i < |a| && j >= |a| { assert a[i] in a && b[j - |a|] in b; }
    }
  }

  /** When recovery cuts the log, its entries join those applied for good. */
  lemma CutTold(y: System, t: Story, y': System)
    requires Truth(y, t) && Inv(y') && y'.pool.wal.Some?
    requires forall p :: p in y.h.base ==> Redone(y.h.base[p], p, y.h.log).Ok?
    requires HistoryWF(y.h) && y'.h == NextHistory(y.h)
    ensures Truth(y', t.(cut := t.cut + y.h.log))
  {
    hide Logged, Acked, Redone, Applied;
    var h, cut := y.h, t.cut + y.h.log;
    RisingConcat(t.cut, h.log, h.past);
    forall p | p in t.first ensures Applied(t.first[p], p, cut) == Ok(NextHistory(h).base[p]) {
      AppliedConcat(t.first[p], p, t.cut, h.log);
      NewerThanBase(h, p);
      GuardNeverBites(h.base[p], p, h.log);
    }
    forall e | e in t.acked ensures e in cut { assert e in t.cut || e in h.log; }
  }

  lemma TellRecover(y: System, order: seq<PageId>, t: Story)
    requires Inv(y) && PoolWF(y.pool) && y.pool.wal.Some? && Allowed(y, Recover(order))
    ensures Tell(y, Recover(order), t) ==
            if Init(y.pool, Opened(y.pool.wal.value), order).1.bytes == y.pool.wal.value.bytes then t
            else t.(cut := t.cut + y.h.log)
  {
    hide Logged, Allowed, Init, Opened, PoolWF;
  }

  lemma RecoverCases(y: System, order: seq<PageId>)
    requires Inv(y) && PoolWF(y.pool) && y.pool.wal.Some? && Lists(order, ReplayAll(y.pool, y.h.log).0)
    ensures var (s', w', r) := Init(y.pool, Opened(y.pool.wal.value), order);
            && HistoryWF(y.h)
            && (w'.bytes == y.pool.wal.value.bytes ==> RecoverStep(y, order) == System(s', y.h))
            && (w'.bytes != y.pool.wal.value.bytes ==>
                  && (forall p :: p in y.h.base ==> Redone(y.h.base[p], p, y.h.log).Ok?)
                  && RecoverStep(y, order).pool.wal.Some? && RecoverStep(y, order).h == NextHistory(y.h))
  {
    hide PoolWF, CacheStaged, DiskStaged, DiskWF, HistoryWF, Recovered, OnDisk, Init, ReplayAll, Frames, Lists;
    hide NextHistory, LogWF;
    var w := y.pool.wal.value;
    InvParts(y);
    RestartedLog(y);
    CutOnlyWhenSynced(y.pool, y.h, Opened(w), order);
    var (s', w', r) := Init(y.pool, Opened(w), order);
    if w'.bytes != w.bytes {
      DiskHasLog(s', y.h);
      RecoveredAll(s', y.h);
    }
  }

  lemma RestartedLog(y: System)
    requires Inv(y)
    ensures y.pool.wal.Some? && y.pool.wal.value.bytes == Frames(y.h.log) + y.h.tail
  {
  }

  lemma DiskHasLog(s: Pool, h: History)
    requires DiskLogged(s, h)
    ensures s.wal.Some?
  {
  }

  lemma RecoverTold(y: System, t: Story, order: seq<PageId>)
    requires Truth(y, t) && Allowed(y, Recover(order))
    ensures PoolWF(y.pool) && Lists(order, ReplayAll(y.pool, y.h.log).0)
    ensures Truth(RecoverStep(y, order), Tell(y, Recover(order), t))
  {
    hide Logged, Lists, Init, ReplayAll, Allowed, PoolWF, HistoryWF, NextHistory, RecoverStep, Tell, Rising, Applied;
    AllowedRecover(y, order);
    TellRecover(y, order, t);
    RecoverKeeps(y, order);
    RecoverCases(y, order);
    InitGrows(y.pool, Opened(y.pool.wal.value), order);
    hide Truth, Grows;
    var w', y' := Init(y.pool, Opened(y.pool.wal.value), order).1, RecoverStep(y, order);
    if w'.bytes == y.pool.wal.value.bytes {
      GrownTruth(y, y', t);
    } else {
      CutTold(y, t, y');
    }
  }

  // ----- runs -----

  /** Actions that neither write to the log nor cut it. */
  predicate Quiet(a: Action) {
    !a.Append? && !a.Crash? && !a.Recover?
  }

  lemma QuietGrows(y: System, a: Action)
    requires Inv(y) && Quiet(a)
    ensures Step(y, a).h == y.h && Grows(y.pool, Step(y, a).pool)
  {
    hide Logged, Allowed, Fetch, Flush, FlushAll, ReplayOne, HistoryWF, PoolWF;
    InvPool(y);
    if Allowed(y, a) {
      var s := y.pool;
      match a
      case ApplyEntry(i) => AllowedApply(y, i); ReplayOneGrows(s, y.h.log[i]);
      case FetchPage(p) => FetchGrows(s, p);
      case FlushOne(p) => CachedIndexed(s); FlushGrows(s, p);
      case FlushEvery(order) => FlushAllGrows(s, order);
      case _ => SameLog(y, a);
    }
  }

  lemma QuietTold(y: System, t: Story, a: Action)
    requires Truth(y, t) && Quiet(a)
    ensures Truth(Step(y, a), Tell(y, a, t))
  {
    StepKeeps(y, a);
    QuietGrows(y, a);
    TellQuiet(y, a, t);
    hide Inv, Step, Tell, Truth, Grows;
    GrownTruth(y, Step(y, a), t);
  }

  lemma TellQuiet(y: System, a: Action, t: Story)
    requires Inv(y) && Quiet(a)
    ensures Tell(y, a, t) == t
  {
    hide Logged, Allowed;
  }

  lemma Refused(y: System, a: Action, t: Story)
    requires Inv(y) && !Allowed(y, a)
    ensures Step(y, a) == y && Tell(y, a, t) == t
  {
    hide Logged, Allowed;
  }

  lemma AppendIs(y: System, batch: seq<WalEntry>)
    requires Inv(y) && Allowed(y, Append(batch))
    ensures y.pool.wal.Some? && Appendable(y.h, batch) && Step(y, Append(batch)) == AppendStep(y, batch)
  {
    hide Logged, Appendable, AppendStep;
    InvPool(y);
  }

  lemma CrashIs(y: System, c: nat, t: Story)
    requires Inv(y) && Allowed(y, Crash(c))
    ensures y.pool.wal.Some? && y.pool.wal.value.durable <= c <= |y.pool.wal.value.bytes|
    ensures Step(y, Crash(c)) == CrashStep(y, c) && Tell(y, Crash(c), t) == t
  {
    hide Logged, Allowed, CrashStep, Inv;
    InvPool(y);
    AllowedCrash(y, c);
  }

  lemma RecoverIs(y: System, order: seq<PageId>)
    requires Inv(y) && Allowed(y, Recover(order))
    ensures PoolWF(y.pool) && Lists(order, ReplayAll(y.pool, y.h.log).0)
    ensures Step(y, Recover(order)) == RecoverStep(y, order)
  {
    hide Logged, Allowed, RecoverStep, ReplayAll, Lists, Inv, PoolWF, Init, Opened;
    InvPool(y);
    AllowedRecover(y, order);
  }

  lemma LogStepTold(y: System, t: Story, a: Action)
    requires Truth(y, t) && Inv(y) && Allowed(y, a) && !Quiet(a)
    ensures Truth(Step(y, a), Tell(y, a, t))
  {
    hide Inv, Allowed, Step, Tell, Truth, AppendStep, CrashStep, RecoverStep, PoolWF, Lists, ReplayAll, Appendable;
    if a.Append? {
      AppendIs(y, a.batch);
      AppendTold(y, t, a.batch);
    } else if a.Crash? {
      CrashIs(y, a.c, t);
      CrashTold(y, t, a.c);
    } else {
      RecoverIs(y, a.order);
      RecoverTold(y, t, a.order);
    }
  }

  /** One action keeps the story true. */
  lemma StepTold(y: System, t: Story, a: Action)
    requires Truth(y, t)
    ensures Truth(Step(y, a), Tell(y, a, t))
  {
    TruthHolds(y, t);
    hide Inv, Allowed, Step, Tell, Truth;
    if !Allowed(y, a) {
      Refused(y, a, t);
    } else if Quiet(a) {
      QuietTold(y, t, a);
    } else {
      LogStepTold(y, t, a);
    }
  }

  lemma TruthHolds(y: System, t: Story)
    requires Truth(y, t)
    ensures Inv(y)
  {
  }

  lemma SameLog(y: System, a: Action)
    requires Inv(y) && (a.ReleasePage? || a.Writeback? || a.Faults?)
    ensures Step(y, a).h == y.h && Grows(y.pool, Step(y, a).pool)
  {
    hide Logged, Allowed;
  }

  ghost function Told(y: System, t: Story, acts: seq<Action>): Story
    requires Inv(y)
    decreases acts
  {
    if acts == [] then t
    else
      StepKeeps(y, acts[0]);
      Told(Step(y, acts[0]), Tell(y, acts[0], t), acts[1..])
  }

  lemma {:induction false} RunTold(y: System, t: Story, acts: seq<Action>)
    requires Truth(y, t)
    ensures Truth(Run(y, acts), Told(y, t, acts)) && Told(y, t, acts).first == t.first
    decreases acts
  {
    hide Inv, Step, Tell;
    if acts != [] {
      StepTold(y, t, acts[0]);
      assert Tell(y, acts[0], t).first == t.first by { SameFirst(y, acts[0], t); }
      RunTold(Step(y, acts[0]), Tell(y, acts[0], t), acts[1..]);
    }
  }

  lemma SameFirst(y: System, a: Action, t: Story)
    requires Inv(y)
    ensures Tell(y, a, t).first == t.first
  {
    hide Logged, Allowed, Init;
  }

  /** A story begins with the pages of a run that begins. */
  lemma StoryStarts(y: System)
    requires Inv(y) && y.h.log == []
    ensures Truth(y, Story(y.h.base, [], {}))
  {
    hide PoolWF, CacheStaged, DiskStaged, DiskWF, LogWF, Norm;
  }

  /** Recovery over the whole life of the pages. After any run, with as many crashes, recoveries and cuts
      of the log as it may have, and one more crash anywhere, the entries that survive, cut and left, are
      in LSN order and include every one whose append ever reported success; and a replay that succeeds
      shows every page to be its very first image with all of them applied in that order: the rows of a
      leaf are its first ones with every insert, update and delete carried out. */
  lemma NothingAckedIsLost(y: System, t: Story, acts: seq<Action>, c: nat)
    requires Truth(y, t) && Run(y, acts).pool.wal.Some?
    requires Run(y, acts).pool.wal.value.durable <= c <= |Run(y, acts).pool.wal.value.bytes|
    ensures var y', t' := Run(y, acts), Told(y, t, acts);
            var batch := y'.h.log[..Complete(y'.h.log, c)];
            var all := t'.cut + batch;
            && Rising(all) && (forall e :: e in t'.acked ==> e in all)
            && PoolWF(Restart(y'.pool, c))
            && (ReplayAll(Restart(y'.pool, c), batch).1.Ok? ==>
                  forall p :: p in t.first ==>
                    && NodeWell(t.first[p]) && Applied(t.first[p], p, all).Ok?
                    && Content(ReplayAll(Restart(y'.pool, c), batch).0, p) == Some(Applied(t.first[p], p, all).value)
                    && RowsReplayed(t.first[p], p, all, Applied(t.first[p], p, all).value))
  {
    RunTold(y, t, acts);
    var y', t' := Run(y, acts), Told(y, t, acts);
    var k := Complete(y'.h.log, c);
    var batch := y'.h.log[..k];
    InvParts(y');
    InvLog(y');
    RecoveryIsExact(y'.pool, y'.h, c);
    hide Logged, DiskLogged, LogWF, Complete, Restart, ReplayAll, Content, Applied, Run, Told, NodeWell, PoolWF;
    hide RowsReplayed;
    MorePrefix(t', y'.h.log, Acked(y'.pool.wal.value, y'.h), k);
    FirstRise(y'.h, k);
    RisingConcat(t'.cut, batch, y'.h.past);
    forall p | p in t.first
      ensures Applied(t.first[p], p, t'.cut + batch) == Applied(y'.h.base[p], p, batch)
    {
      AppliedConcat(t.first[p], p, t'.cut, batch);
    }
    if ReplayAll(Restart(y'.pool, c), batch).1.Ok? {
      forall p | p in t.first
        ensures RowsReplayed(t.first[p], p, t'.cut + batch, Applied(t.first[p], p, t'.cut + batch).value)
      {
        AppliedRefinesMap(t.first[p], p, t'.cut + batch);
      }
    }
  }

  lemma FirstRise(h: History, k: nat)
    requires HistoryWF(h) && k <= |h.log|
    ensures Rising(h.log[..k]) && forall e :: e in h.log[..k] ==> h.past < e.lsn
  {
    hide NodeWell, Norm, Torn;
  }
}
