/** Whole runs of the buffer pool. */
module PoolRuns {
  import opened Base
  import opened Nodes
  import opened Codec
  import opened Lru
  import opened Wal
  import opened Pools
  import opened PoolLaws
  import opened PoolAgreement

  datatype PoolAction =
    | FetchPage(p: PageId)
    | WritePage(p: PageId, n: Node, lsn: U64)
    | ReleasePage(p: PageId)
    | AllocPage(isLeaf: bool)
    | FlushOne(p: PageId)
    | FlushEvery(order: seq<PageId>)
    | Writeback(p: PageId)
    | Faults(pages: set<PageId>, header: bool)

  /** What callers owe the pool: they write through a page they hold, and mark it; and they let go of
      a new page only once it is dirty or was written. Every other page they may let go of any time. */
  ghost predicate Allowed(s: Pool, a: PoolAction) {
    match a
    case WritePage(p, n, _) => s.pins[p] > 0 && p in s.cache && NodeWell(n)
    case ReleasePage(p) => s.pins[p] > 0 && Releasable(s, p)
    case FlushEvery(order) => Lists(order, s)
    case _ => true
  }

  ghost function Step(s: Pool, a: PoolAction): Pool
    requires PoolWF(s)
  {
    if !Allowed(s, a) then s
    else
      match a
      case FetchPage(p) => Fetch(s, p).0
      case WritePage(p, n, lsn) => Put(s, p, MarkDirty(n, lsn))
      case ReleasePage(p) => Release(s, p)
      case AllocPage(isLeaf) => New(s, isLeaf).0
      case FlushOne(p) => CachedIndexed(s); Flush(s, p).0
      case FlushEvery(order) => FlushAll(s, order).0
      case Writeback(p) =>
        if p in s.disk.pages then s.(disk := s.disk.(stable := s.disk.stable[p := s.disk.pages[p]])) else s
      case Faults(pages, header) => s.(disk := s.disk.(faulty := pages, headerFails := header))
  }

  /** The plain page map: only writes and allocations change it. */
  ghost function ModelStep(m: map<PageId, Node>, s: Pool, a: PoolAction): map<PageId, Node>
    requires PoolWF(s)
  {
    if !Allowed(s, a) then m
    else
      match a
      case WritePage(p, n, lsn) => m[p := Norm(MarkDirty(n, lsn))]
      case AllocPage(isLeaf) =>
        if New(s, isLeaf).1.Ok? then m[New(s, isLeaf).1.value := Norm(EmptyNode(New(s, isLeaf).1.value, isLeaf))] else m
      case _ => m
  }

  ghost predicate Shows(s: Pool, m: map<PageId, Node>) {
    forall p :: Content(s, p) == if p in m then Some(m[p]) else None
  }

  lemma WriteStep(s: Pool, p: PageId, n: Node, lsn: U64)
    requires PoolWF(s) && Consistent(s, {}) && s.pins[p] > 0 && p in s.cache && NodeWell(n)
    ensures var s' := Put(s, p, MarkDirty(n, lsn));
            && PoolWF(s') && Consistent(s', {})
            && Content(s', p) == Some(Norm(MarkDirty(n, lsn)))
            && forall q :: q != p ==> Content(s', q) == Content(s, q)
  {
    WellStays(n, lsn);
    MarkedDirty(n, lsn);
    hide PoolWF, Consistent, NodeWell, Decode, Norm, MarkDirty, IsDirty;
    ReplacedWF(s, p, MarkDirty(n, lsn));
    PutAgrees(s, p, MarkDirty(n, lsn), {});
    assert {} - {p} == {};
  }

  lemma ReleaseStep(s: Pool, p: PageId)
    requires PoolWF(s) && Consistent(s, {}) && Allowed(s, ReleasePage(p))
    ensures PoolWF(Release(s, p)) && Consistent(Release(s, p), {}) && SameContent(s, Release(s, p))
  {
    hide NodeWell, Decode, Norm, IsDirty, Agrees, Backed;
    ReleaseAgrees(s, p, {});
    ReleaseShows(s, p);
  }

  lemma DiskStep(s: Pool, disk: Disk)
    requires PoolWF(s) && Consistent(s, {}) && disk.pages == s.disk.pages && disk.nextFree == s.disk.nextFree
    ensures var s' := s.(disk := disk); PoolWF(s') && Consistent(s', {}) && SameContent(s, s')
  {
    hide NodeWell, Decode, Norm, IsDirty;
  }

  /** One action: the pool stays well-formed, its clean pages stay as on disk, and it keeps showing the
      map. */
  lemma StepShows(s: Pool, m: map<PageId, Node>, a: PoolAction)
    requires PoolWF(s) && Consistent(s, {}) && Shows(s, m)
    ensures PoolWF(Step(s, a)) && Consistent(Step(s, a), {}) && Shows(Step(s, a), ModelStep(m, s, a))
  {
    hide NodeWell, Decode, Norm, IsDirty, Fetch, New, Flush, FlushEach, MarkDirty, Content, PoolWF, Coherent;
    hide Agrees, Backed;
    if Allowed(s, a) {
      ConsistentIsCoherent(s);
      match a
      case FetchPage(p) => FetchKeepsWF(s, p); FetchContent(s, p); FetchAgrees(s, p, {});
      case WritePage(p, n, lsn) => WriteStep(s, p, n, lsn);
      case ReleasePage(p) => ReleaseStep(s, p);
      case AllocPage(isLeaf) => NewKeepsWF(s, isLeaf); NewContent(s, isLeaf); NewAgrees(s, isLeaf, {});
      case FlushOne(p) => CachedIndexed(s); FlushKeepsWF(s, p); FlushContent(s, p); FlushAgrees(s, p, {});
      case FlushEvery(order) =>
        FlushEachKeeps(s, order);
        FlushEachAgrees(s, order, {});
        var s1 := FlushEach(s, order).0;
        DiskStep(s1, s1.disk.(stable := s1.disk.pages));
      case Writeback(p) =>
        if p in s.disk.pages { DiskStep(s, s.disk.(stable := s.disk.stable[p := s.disk.pages[p]])); }
      case Faults(pages, header) => DiskStep(s, s.disk.(faulty := pages, headerFails := header));
    }
  }

  ghost function Run(s: Pool, acts: seq<PoolAction>): Pool
    requires PoolWF(s) && Consistent(s, {})
    decreases acts
  {
    if acts == [] then s
    else
      StepKeeps(s, acts[0]);
      Run(Step(s, acts[0]), acts[1..])
  }

  ghost function ModelRun(m: map<PageId, Node>, s: Pool, acts: seq<PoolAction>): map<PageId, Node>
    requires PoolWF(s) && Consistent(s, {})
    decreases acts
  {
    if acts == [] then m
    else
      StepKeeps(s, acts[0]);
      ModelRun(ModelStep(m, s, acts[0]), Step(s, acts[0]), acts[1..])
  }

  lemma StepKeeps(s: Pool, a: PoolAction)
    requires PoolWF(s) && Consistent(s, {})
    ensures PoolWF(Step(s, a)) && Consistent(Step(s, a), {})
  {
    hide NodeWell, Decode, Norm, IsDirty, Fetch, New, Flush, FlushEach, MarkDirty, Consistent, Step;
    StepShows(s, Shown(s), a);
  }

  /** The map a pool shows. */
  ghost function Shown(s: Pool): (m: map<PageId, Node>)
    ensures Shows(s, m)
  {
    map p | p in s.cache.Keys + s.disk.pages.Keys && Content(s, p).Some? :: Content(s, p).value
  }

  /** Over every run of the pool, with failures of any operation in between, what the pool shows is
      the plain map of what was written, and the pool stays well-formed: at most capacity pages,
      everything tracked or held among them. Every clean cached page is as its disk image, held or not,
      except a new page that has none, which somebody holds. */
  lemma {:induction false} PoolIsTransparent(s: Pool, m: map<PageId, Node>, acts: seq<PoolAction>)
    requires PoolWF(s) && Consistent(s, {}) && Shows(s, m)
    ensures PoolWF(Run(s, acts)) && Consistent(Run(s, acts), {})
    ensures Shows(Run(s, acts), ModelRun(m, s, acts))
    decreases acts
  {
    hide NodeWell, Decode, Norm, PoolWF, Consistent, Shows, Step, ModelStep;
    if acts != [] {
      StepShows(s, m, acts[0]);
      PoolIsTransparent(Step(s, acts[0]), ModelStep(m, s, acts[0]), acts[1..]);
    }
  }

  /** A fetch at the end of a run hands out what the map says. */
  lemma FetchShowsMap(s: Pool, m: map<PageId, Node>, acts: seq<PoolAction>, p: PageId)
    requires PoolWF(s) && Consistent(s, {}) && Shows(s, m)
    ensures var s', m' := Run(s, acts), ModelRun(m, s, acts);
            && PoolWF(s')
            && (Fetch(s', p).1.Ok? ==> p in m' && p in Fetch(s', p).0.cache && Norm(Fetch(s', p).0.cache[p]) == m'[p])
  {
    PoolIsTransparent(s, m, acts);
    hide NodeWell, Decode, Norm, PoolWF, Coherent, Consistent, Fetch, Run, ModelRun;
    ConsistentIsCoherent(Run(s, acts));
    FetchContent(Run(s, acts), p);
  }

  /** A page that was allocated and never marked dirty is lost when it is evicted. */
  lemma UntouchedNewPageIsLost(s: Pool, isLeaf: bool, s2: Pool)
    requires PoolWF(s) && New(s, isLeaf).1.Ok?
    requires var p := New(s, isLeaf).1.value;
             s2 == Release(New(s, isLeaf).0, p) && s2.pins[p] == 0 && s2.lru == [p] && PoolWF(s2)
    ensures var p := New(s, isLeaf).1.value;
            && Content(s2, p) == Some(Norm(EmptyNode(p, isLeaf)))
            && Evict(s2).1.Ok? && Content(Evict(s2).0, p) == None
  {
    var p := New(s, isLeaf).1.value;
    NewKeepsWF(s, isLeaf);
    EmptyWell(p, isLeaf);
    assert Unpinned(s2.pins)(p);
    LastWhereIs(s2.lru, Unpinned(s2.pins), 0);
    hide NodeWell, Decode, Norm, New;
    assert Flush(s2.(lru := Drop(s2.lru, 0)), p).1.Ok?;
  }
}
