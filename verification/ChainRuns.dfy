/** Whole runs of inserts into the leaf level, splitting wherever a page is full. */
module ChainRuns {
  import opened Base
  import opened Leaves
  import opened Nodes
  import opened Pools
  import opened PoolLaws
  import opened PoolAgreement
  import opened PoolRuns
  import opened Trees
  import opened TreeLaws
  import opened Chains
  import opened LeafInserts
  import opened InsertErrors
  import opened InsertAgreement

  /** An insert into the i-th leaf of the chain. */
  datatype Insertion = Insertion(i: nat, key: U64, payload: seq<Byte>, lsn: U64)

  /** The leaf level: the pages the pool shows form the chain ids, and the clean ones are as on disk. */
  ghost predicate LeafLevel(s: Pool, ids: seq<PageId>) {
    Sound(s) && Consistent(s, {}) && Chain(Shown(s), ids)
  }

  /** All that is live along the chain. */
  ghost function LiveAlong(s: Pool, ids: seq<PageId>): map<U64, seq<Byte>>
    requires LeafLevel(s, ids)
  {
    LiveMap(Along(Shown(s), ids))
  }

  ghost function Outcome(s: Pool, ids: seq<PageId>, x: Insertion): (Pool, Result<Option<SplitResult>>)
    requires LeafLevel(s, ids) && x.i < |ids|
  {
    InsertLeaf(s, ids[x.i], x.key, x.payload, x.lsn)
  }

  /** The insert goes to a leaf in whose range the key lies. It succeeds, or it is turned down before
      the leaf is split: a live key, too large a payload, a full leaf with no page to be had for its
      upper half, a page that cannot be fetched. */
  ghost predicate Settles(s: Pool, ids: seq<PageId>, x: Insertion)
    requires LeafLevel(s, ids)
  {
    && x.i < |ids|
    && if Outcome(s, ids, x).1.Ok? then InRange(Shown(s), ids, x.i, x.key)
       else !Panics(s, ids[x.i], x.key, x.payload) && !SplitBegins(s, ids[x.i], x.key, x.payload)
  }

  ghost function After(s: Pool, ids: seq<PageId>, x: Insertion): (Pool, seq<PageId>)
    requires LeafLevel(s, ids) && Settles(s, ids, x)
  {
    var (s', r) := Outcome(s, ids, x);
    (s', if r.Ok? && r.value.Some? then WithPage(ids, x.i, r.value.value.newPage) else ids)
  }

  /** The insert as far as it counts. */
  ghost function Counted(s: Pool, ids: seq<PageId>, x: Insertion): seq<Insertion>
    requires LeafLevel(s, ids) && Settles(s, ids, x)
  {
    if Outcome(s, ids, x).1.Ok? then [x] else []
  }

  lemma ShownIs(s: Pool, m: map<PageId, Node>)
    requires Shows(s, m)
    ensures m == Shown(s)
  {
    hide Content;
    forall p ensures p in m <==> p in Shown(s) {
      assert Content(s, p) == if p in m then Some(m[p]) else None;
      assert Content(s, p) == if p in Shown(s) then Some(Shown(s)[p]) else None;
    }
    forall p | p in m ensures m[p] == Shown(s)[p] {
      assert Content(s, p) == Some(m[p]);
      assert Content(s, p) == if p in Shown(s) then Some(Shown(s)[p]) else None;
    }
  }

  /** A successful insert, in place or splitting, keeps the leaf level and adds exactly its key. */
  lemma SuccessKeepsLevel(s: Pool, ids: seq<PageId>, x: Insertion)
    requires LeafLevel(s, ids) && Settles(s, ids, x) && Outcome(s, ids, x).1.Ok?
    ensures LeafLevel(After(s, ids, x).0, After(s, ids, x).1)
    ensures x.key !in LiveAlong(s, ids)
    ensures LiveAlong(After(s, ids, x).0, After(s, ids, x).1) == LiveAlong(s, ids)[x.key := x.payload]
  {
    hide PoolWF, Coherent, Consistent, InsertLeaf, Chain, InRange, Along, LiveMap, Shows, Shown, Divides;
    var m, p := Shown(s), ids[x.i];
    var (s', r) := InsertLeaf(s, p, x.key, x.payload, x.lsn);
    InsertKept(s, p, x.key, x.payload, x.lsn);
    if r.value.Some? {
      var m' := SplitKeepsChain(s, m, ids, x.i, x.key, x.payload, x.lsn);
      ShownIs(s', m');
    } else {
      var m' := InPlaceKeepsChain(s, m, ids, x.i, x.key, x.payload, x.lsn);
      ShownIs(s', m');
    }
  }

  /** An insert that is turned down keeps it as it is. */
  lemma RejectionKeepsLevel(s: Pool, ids: seq<PageId>, x: Insertion)
    requires LeafLevel(s, ids) && Settles(s, ids, x) && Outcome(s, ids, x).1.Err?
    ensures LeafLevel(After(s, ids, x).0, ids) && LiveAlong(After(s, ids, x).0, ids) == LiveAlong(s, ids)
  {
    hide PoolWF, Coherent, Consistent, InsertLeaf, Chain, InRange, Along, LiveMap, Shows, Shown, SplitBegins, Panics;
    var s' := Outcome(s, ids, x).0;
    RejectedChangesNothing(s, ids[x.i], x.key, x.payload, x.lsn);
    InsertKept(s, ids[x.i], x.key, x.payload, x.lsn);
    MovedShows(s, s', Shown(s), map[]);
    assert Shown(s) + map[] == Shown(s);
    ShownIs(s', Shown(s));
  }

  lemma InsertKeepsLevel(s: Pool, ids: seq<PageId>, x: Insertion)
    requires LeafLevel(s, ids) && Settles(s, ids, x)
    ensures LeafLevel(After(s, ids, x).0, After(s, ids, x).1)
    ensures LiveAlong(After(s, ids, x).0, After(s, ids, x).1) == Added(LiveAlong(s, ids), Counted(s, ids, x))
  {
    hide LeafLevel, LiveAlong, Outcome, InRange, Panics, SplitBegins;
    assert x.i < |ids|;
    hide Settles;
    if Outcome(s, ids, x).1.Ok? {
      SuccessKeepsLevel(s, ids, x);
      assert [x][1..] == [];
    } else {
      RejectionKeepsLevel(s, ids, x);
    }
  }

  // ----- runs -----

  /** What happens to the leaf level: an insert, or anything else the pool may be asked for or have done
      to it, a flush of all pages by the background flusher among it. */
  datatype LevelAction = InsertRecord(x: Insertion) | OnPool(a: PoolAction)

  /** Nobody else writes to the pages of the chain. */
  ghost predicate Proper(s: Pool, ids: seq<PageId>, a: LevelAction)
    requires LeafLevel(s, ids)
  {
    match a
    case InsertRecord(x) => Settles(s, ids, x)
    case OnPool(WritePage(p, _, _)) => p !in ids
    case OnPool(_) => true
  }

  ghost function Next(s: Pool, ids: seq<PageId>, a: LevelAction): (Pool, seq<PageId>)
    requires LeafLevel(s, ids) && Proper(s, ids, a)
  {
    match a
    case InsertRecord(x) => After(s, ids, x)
    case OnPool(act) => (Step(s, act), ids)
  }

  ghost function Gained(s: Pool, ids: seq<PageId>, a: LevelAction): seq<Insertion>
    requires LeafLevel(s, ids) && Proper(s, ids, a)
  {
    match a
    case InsertRecord(x) => Counted(s, ids, x)
    case OnPool(_) => []
  }

  /** A chain whose pages stay as they are stays one. */
  lemma ChainSame(m: map<PageId, Node>, m': map<PageId, Node>, ids: seq<PageId>)
    requires Chain(m, ids) && forall j :: 0 <= j < |ids| ==> ids[j] in m' && m'[ids[j]] == m[ids[j]]
    ensures Chain(m', ids) && Along(m', ids) == Along(m, ids)
  {
    hide Ordered, WellFormed, Along, Ascending;
    assert LeafAt(m, ids[0]);
    RewrittenLinks(m, m', ids, 0);
    AlongSame(m, m', ids);
  }

  lemma PoolStepKeepsLevel(s: Pool, ids: seq<PageId>, a: PoolAction)
    requires LeafLevel(s, ids) && Proper(s, ids, OnPool(a))
    ensures LeafLevel(Step(s, a), ids) && LiveAlong(Step(s, a), ids) == LiveAlong(s, ids)
  {
    hide PoolWF, Coherent, Consistent, Chain, Along, LiveMap, Shows, Shown, Step, ModelStep;
    var m := Shown(s);
    var m' := ModelStep(m, s, a);
    StepShows(s, m, a);
    ConsistentIsCoherent(Step(s, a));
    ShownIs(Step(s, a), m');
    ModelOffChain(s, m, ids, a);
    ChainSame(m, m', ids);
  }

  lemma ModelOffChain(s: Pool, m: map<PageId, Node>, ids: seq<PageId>, a: PoolAction)
    requires Sound(s) && Shows(s, m) && Chain(m, ids) && (a.WritePage? ==> a.p !in ids)
    ensures forall j :: 0 <= j < |ids| ==> ids[j] in ModelStep(m, s, a) && ModelStep(m, s, a)[ids[j]] == m[ids[j]]
  {
    hide PoolWF, Coherent, Along, Ascending, WellFormed, New, Allowed, Content;
    if a.AllocPage? && New(s, a.isLeaf).1.Ok? {
      NewContent(s, a.isLeaf);
      assert New(s, a.isLeaf).1.value !in m;
      NotInChain(m, ids, New(s, a.isLeaf).1.value);
    }
    assert forall j :: 0 <= j < |ids| ==> LeafAt(m, ids[j]);
  }

  lemma ActionKeepsLevel(s: Pool, ids: seq<PageId>, a: LevelAction)
    requires LeafLevel(s, ids) && Proper(s, ids, a)
    ensures LeafLevel(Next(s, ids, a).0, Next(s, ids, a).1)
    ensures LiveAlong(Next(s, ids, a).0, Next(s, ids, a).1) == Added(LiveAlong(s, ids), Gained(s, ids, a))
  {
    hide LeafLevel, LiveAlong, After, Counted, Settles, Step;
    match a
    case InsertRecord(x) => InsertKeepsLevel(s, ids, x);
    case OnPool(act) => PoolStepKeepsLevel(s, ids, act);
  }

  /** Every insert of the run succeeds in its turn, or is turned down before a split. */
  ghost predicate AllProper(s: Pool, ids: seq<PageId>, acts: seq<LevelAction>)
    requires LeafLevel(s, ids)
    decreases acts
  {
    acts == [] ||
    (Proper(s, ids, acts[0]) &&
     (ActionKeepsLevel(s, ids, acts[0]); AllProper(Next(s, ids, acts[0]).0, Next(s, ids, acts[0]).1, acts[1..])))
  }

  ghost function Run(s: Pool, ids: seq<PageId>, acts: seq<LevelAction>): (Pool, seq<PageId>)
    requires LeafLevel(s, ids) && AllProper(s, ids, acts)
    decreases acts
  {
    if acts == [] then (s, ids)
    else
      ActionKeepsLevel(s, ids, acts[0]);
      Run(Next(s, ids, acts[0]).0, Next(s, ids, acts[0]).1, acts[1..])
  }

  /** The inserts of the run that succeeded. */
  ghost function Successes(s: Pool, ids: seq<PageId>, acts: seq<LevelAction>): seq<Insertion>
    requires LeafLevel(s, ids) && AllProper(s, ids, acts)
    decreases acts
  {
    if acts == [] then []
    else
      ActionKeepsLevel(s, ids, acts[0]);
      Gained(s, ids, acts[0]) + Successes(Next(s, ids, acts[0]).0, Next(s, ids, acts[0]).1, acts[1..])
  }

  function Added(m: map<U64, seq<Byte>>, xs: seq<Insertion>): map<U64, seq<Byte>>
    decreases xs
  {
    if xs == [] then m else Added(m[xs[0].key := xs[0].payload], xs[1..])
  }

  lemma {:induction false} AddedConcat(m: map<U64, seq<Byte>>, xs: seq<Insertion>, ys: seq<Insertion>)
    ensures Added(m, xs + ys) == Added(Added(m, xs), ys)
    decreases xs
  {
    if xs == [] {
      assert xs + ys == ys;
    } else {
      assert (xs + ys)[1..] == xs[1..] + ys;
      AddedConcat(m[xs[0].key := xs[0].payload], xs[1..], ys);
    }
  }

  /** Through every run of inserts that succeed or are turned down, with any fetches, writes to other
      pages, allocations, flushes and failures in between, the leaves stay one doubly linked chain with
      ascending keys, and hold the old records plus exactly those whose insert succeeded. */
  lemma {:induction false} LevelLife(s: Pool, ids: seq<PageId>, acts: seq<LevelAction>)
    requires LeafLevel(s, ids) && AllProper(s, ids, acts)
    ensures LeafLevel(Run(s, ids, acts).0, Run(s, ids, acts).1)
    ensures LiveAlong(Run(s, ids, acts).0, Run(s, ids, acts).1) == Added(LiveAlong(s, ids), Successes(s, ids, acts))
    decreases acts
  {
    hide LeafLevel, Next, Proper, LiveAlong, Gained;
    if acts != [] {
      ActionKeepsLevel(s, ids, acts[0]);
      var (s1, ids1) := Next(s, ids, acts[0]);
      LevelLife(s1, ids1, acts[1..]);
      AddedConcat(LiveAlong(s, ids), Gained(s, ids, acts[0]), Successes(s1, ids1, acts[1..]));
    }
  }

  /** The first leaf page of an empty file is such a level, with nothing in it. */
  lemma FirstLeaf(s: Pool)
    requires Sound(s) && Consistent(s, {}) && Shows(s, map[]) && New(s, true).1.Ok?
    ensures var (s', r) := New(s, true);
            LeafLevel(s', [r.value]) && LiveAlong(s', [r.value]) == map[]
  {
    hide PoolWF, Coherent, Consistent, New, Content, Shown, Chain, Along;
    NewKept(s);
    var (s', r) := New(s, true);
    NewKeepsWF(s, true);
    NewContent(s, true);
    var m := OneLeaf(r.value);
    EmptyNorm(r.value);
    assert Shows(s', m);
    ShownIs(s', m);
    OneLeafChain(r.value);
  }

  function OneLeaf(p: PageId): map<PageId, Node> {
    map[p := LeafNode(EmptyLeaf(p))]
  }

  lemma EmptyNorm(p: PageId)
    ensures Norm(EmptyNode(p, true)) == LeafNode(EmptyLeaf(p))
  {
  }

  lemma OneLeafChain(p: PageId)
    ensures Chain(OneLeaf(p), [p]) && Along(OneLeaf(p), [p]) == []
  {
    assert Ordered(EmptyLeaf(p)) == [];
    AlongOne(OneLeaf(p), p);
  }
}
