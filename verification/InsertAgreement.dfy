/** Inserting into a leaf keeps cache and disk in agreement. */
module InsertAgreement {
  import opened Base
  import opened L = Leaves
  import opened LeafLaws
  import opened Nodes
  import opened Pools
  import opened PoolLaws
  import opened PoolAgreement
  import opened Trees
  import opened TreeLaws
  import opened InsertErrors

  /** Changing a page, marking it and letting go of it. */
  lemma MarkedRelease(s: Pool, p: PageId, n: Node, loose: set<PageId>)
    requires Consistent(s, loose) && IsDirty(n)
    ensures Consistent(Release(Put(s, p, n), p), loose)
  {
    hide Agrees, Backed, IsDirty;
    PutAgrees(s, p, n, loose);
    ReleaseAgrees(Put(s, p, n), p, loose);
  }

  /** Fetching a page and letting go of it. */
  lemma FetchedRelease(s: Pool, p: PageId, loose: set<PageId>)
    requires PoolWF(s) && Consistent(s, loose) && p !in loose && Fetch(s, p).1.Ok?
    ensures Consistent(Fetch(s, p).0, loose) && Consistent(Release(Fetch(s, p).0, p), loose)
  {
    hide PoolWF, Agrees, Backed, Fetch, Releasable;
    FetchAgrees(s, p, loose);
    FetchedReleasable(s, p, loose);
    ReleaseAgrees(Fetch(s, p).0, p, loose);
  }

  lemma LinkKept(s: Pool, was: Leaf, p: PageId, q: PageId, lsn: U64)
    requires PoolWF(s) && Consistent(s, {p, q}) && LinkIfAny(s, was, p, q, lsn).1.Ok?
    ensures Consistent(LinkIfAny(s, was, p, q, lsn).0, {p, q})
  {
    hide PoolWF, Agrees, Backed, Fetch, MarkDirty, IsDirty;
    var next := was.nextId;
    if was.hasNext {
      FetchKeepsWF(s, next);
      FetchedRelease(s, next, {p, q});
      var s1 := Fetch(s, next).0;
      match s1.cache[next]
      case LeafNode(o) =>
        var n := LeafNode(o.(hasPrev := true, prevId := q));
        MarkedDirty(n, lsn);
        MarkedRelease(s1, next, MarkDirty(n, lsn), {p, q});
      case InnerNode(_) =>
    }
  }

  lemma TouchedKept(s: Pool, p: PageId, q: PageId, lsn: U64)
    requires Consistent(s, {p, q}) && p in s.cache && q in s.cache
    ensures Consistent(Release(Release(Touched(Touched(s, p, lsn), q, lsn), q), p), {})
  {
    hide Agrees, Backed, MarkDirty, IsDirty;
    MarkedDirty(s.cache[p], lsn);
    PutAgrees(s, p, MarkDirty(s.cache[p], lsn), {p, q});
    var s1 := Touched(s, p, lsn);
    MarkedDirty(s1.cache[q], lsn);
    PutAgrees(s1, q, MarkDirty(s1.cache[q], lsn), {p, q} - {p});
    assert ({p, q} - {p}) - {q} == {};
    var s2 := Touched(s1, q, lsn);
    ReleaseAgrees(s2, q, {});
    ReleaseAgrees(Release(s2, q), p, {});
  }

  lemma LooseMore(s: Pool, loose: set<PageId>)
    requires Consistent(s, {})
    ensures Consistent(s, loose)
  {
    hide IsDirty, DiskContent, Norm;
  }

  lemma SplitKept(s1: Pool, p: PageId, l: Leaf, key: U64, payload: seq<Byte>, lsn: U64)
    requires Sound(s1) && Consistent(s1, {}) && p in s1.cache && s1.pins[p] > 0 && WellFormed(l)
    requires SplitInsert(s1, p, l, key, payload, lsn).1.Ok?
    ensures Consistent(SplitInsert(s1, p, l, key, payload, lsn).0, {})
  {
    hide PoolWF, Coherent, New, NodeWell, Norm, SplitAndRetry, LinkIfAny, Touched, WellFormed, Consistent, Moves;
    hide Content;
    var q := New(s1, true).1.value;
    var t := SplitAndRetry(l, q, key, payload);
    var left, right := LinkedLeft(t.left, q), LinkedRight(t.right, p, t.left);
    LinkedWell(t.left, q, t.right, p, lsn);
    HalvesMove(s1, p, l, key, payload, q, left, right);
    var s2 := New(s1, true).0;
    NewKept(s1);
    LooseMore(s2, {p, q});
    LoosePut(s2, p, LeafNode(left), {p, q});
    LoosePut(PutLeaf(s2, p, left), q, LeafNode(right), {p, q});
    var s3 := PutLeaf(PutLeaf(s2, p, left), q, right);
    LinkKept(s3, t.left, p, q, lsn);
    LinkHolds(s3, t.left, p, q, lsn);
    TouchedKept(LinkIfAny(s3, t.left, p, q, lsn).0, p, q, lsn);
  }

  lemma NewKept(s: Pool)
    requires PoolWF(s) && Consistent(s, {})
    ensures Consistent(New(s, true).0, {})
  {
    hide PoolWF, Agrees, Backed, New;
    NewAgrees(s, true, {});
  }

  lemma LoosePut(s: Pool, p: PageId, n: Node, loose: set<PageId>)
    requires Consistent(s, loose) && p in loose
    ensures Consistent(Put(s, p, n), loose)
  {
    hide Agrees, Backed, IsDirty;
    PutAgrees(s, p, n, loose);
  }

  /** The pages the insert holds stay cached while it repairs the back link. */
  lemma LinkHolds(s: Pool, was: Leaf, p: PageId, q: PageId, lsn: U64)
    requires PoolWF(s) && p in s.cache && s.pins[p] > 0 && q in s.cache && s.pins[q] > 0
    ensures p in LinkIfAny(s, was, p, q, lsn).0.cache && q in LinkIfAny(s, was, p, q, lsn).0.cache
  {
    hide PoolWF, Fetch, MarkDirty;
    HeldStays(s, p, was.nextId, true);
    HeldStays(s, q, was.nextId, true);
  }

  /** An insert that succeeds, or is turned down before a split, leaves every clean page as on disk. */
  lemma InsertKept(s: Pool, p: PageId, key: U64, payload: seq<Byte>, lsn: U64)
    requires Sound(s) && Consistent(s, {})
    requires InsertLeaf(s, p, key, payload, lsn).1.Ok?
             || (!Panics(s, p, key, payload) && !SplitBegins(s, p, key, payload))
    ensures Consistent(InsertLeaf(s, p, key, payload, lsn).0, {})
  {
    hide PoolWF, Coherent, Fetch, New, L.Insert, NodeWell, SplitInsert, Release, MarkDirty, IsDirty, Consistent;
    hide Content, Moves;
    FetchMoves(s, p);
    FetchKept(s, p);
    FetchKeepsWF(s, p);
    if Fetch(s, p).1.Ok? {
      var s1 := Fetch(s, p).0;
      FetchedRelease(s, p, {});
      if s1.cache[p].LeafNode? {
        var l := s1.cache[p].leaf;
        FetchedWell(s, p);
        HeldInsert(s, s1, p, l, key, payload, lsn);
      }
    }
  }

  lemma FetchKept(s: Pool, p: PageId)
    requires PoolWF(s) && Consistent(s, {})
    ensures Consistent(Fetch(s, p).0, {})
  {
    hide PoolWF, Agrees, Backed, Fetch;
    FetchAgrees(s, p, {});
  }

  lemma HeldInsert(s: Pool, s1: Pool, p: PageId, l: Leaf, key: U64, payload: seq<Byte>, lsn: U64)
    requires Sound(s) && Consistent(s, {}) && Fetch(s, p).1.Ok? && s1 == Fetch(s, p).0
    requires Sound(s1) && Consistent(s1, {})
    requires p in s1.cache && s1.cache[p] == LeafNode(l) && s1.pins[p] > 0 && WellFormed(l)
    requires InsertHeld(s1, p, l, key, payload, lsn).1.Ok?
             || (L.Insert(l, key, payload).result != Err(Panic)
                 && (L.Insert(l, key, payload).result == Err(PageFull) ==> New(s1, true).1.Err?))
    ensures Consistent(InsertHeld(s1, p, l, key, payload, lsn).0, {})
  {
    hide PoolWF, Coherent, Fetch, New, L.Insert, NodeWell, SplitInto, MarkDirty, IsDirty, Consistent, Content, Ordered;
    InsertRefinesMap(l, key, payload);
    var d := L.Insert(l, key, payload);
    if d.result.Ok? {
      MarkedDirty(LeafNode(d.leaf), lsn);
      MarkedRelease(s1, p, MarkDirty(LeafNode(d.leaf), lsn), {});
    } else if d.result != Err(PageFull) {
      assert PutLeaf(s1, p, l) == s1;
      FetchedRelease(s, p, {});
    } else if New(s1, true).1.Err? {
      FailedNewKept(s, s1, p);
    } else {
      hide SplitInsert;
      SplitKept(s1, p, l, key, payload, lsn);
    }
  }

  lemma FailedNewKept(s: Pool, s1: Pool, p: PageId)
    requires Sound(s) && Consistent(s, {}) && Fetch(s, p).1.Ok? && s1 == Fetch(s, p).0
    requires PoolWF(s1) && Consistent(s1, {})
    requires p in s1.cache && s1.pins[p] > 0 && New(s1, true).1.Err?
    ensures Consistent(Release(New(s1, true).0, p), {})
  {
    hide PoolWF, Coherent, Fetch, New, IsDirty, Agrees;
    FetchedReleasable(s, p, {});
    NewAgrees(s1, true, {});
    NewKeepsWF(s1, true);
    HeldStays(s1, p, p, true);
    hide Backed;
    assert Releasable(New(s1, true).0, p);
    ReleaseAgrees(New(s1, true).0, p, {});
  }
}
