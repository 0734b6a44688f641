/** The tree as the object the code mutates: inserting into a leaf page and finding a record. */
module BpTrees {
  import opened Base
  import opened L = Leaves
  import opened LeafLaws
  import opened LeafPages
  import opened Nodes
  import opened Lru
  import opened Pools
  import opened PoolLaws
  import opened BufferPools
  import opened T = Trees
  import opened TreeLaws
  import opened PoolRuns
  import opened PoolProgress
  import opened Search

  /** Splits a full leaf and inserts into the half the key belongs to. */
  method SplitAndRetryInPlace(left: LeafPage, right: LeafPage, q: PageId, rowId: U64, payload: seq<Byte>)
    returns (r: Result<U64>)
    requires left != right && WellFormed(left.Value()) && right.Value() == EmptyLeaf(q)
    modifies left`slotArray, left`records, left`freeSize, right`slotArray, right`records, right`freeSize
    ensures Retried(left.Value(), right.Value(), r) == SplitAndRetry(old(left.Value()), q, rowId, payload)
  {
    ghost var l := left.Value();
    SplitWell(l, EmptyLeaf(q));
    hide L.Split, L.Insert, WellFormed, Ordered, Live;
    assert |left.records| <= 0x1_0000 && |left.slotArray| <= 0x1_0000 by { CountsFit(l); }
    var promoted := left.Split(right);
    if promoted.Err? { return promoted; }
    var inserted: Result<()>;
    if rowId < promoted.value {
      inserted := left.InsertRecord(rowId, payload);
    } else {
      inserted := right.InsertRecord(rowId, payload);
    }
    r := if inserted.Err? then Err(inserted.error) else promoted;
  }

  /** The same, and on success wires the two leaves to each other. */
  method SplitAndWire(p: PageId, left: LeafPage, q: PageId, right: LeafPage, rowId: U64, payload: seq<Byte>)
    returns (r: Result<U64>, oldHasNext: bool, oldNextId: PageId)
    requires left != right && WellFormed(left.Value()) && right.Value() == EmptyLeaf(q)
    modifies left, right
    ensures NodeWell(LeafNode(left.Value())) && NodeWell(LeafNode(right.Value()))
    ensures var t := SplitAndRetry(old(left.Value()), q, rowId, payload);
            && r == t.result && oldHasNext == t.left.hasNext && oldNextId == t.left.nextId
            && left.Value() == (if r.Err? then t.left else LinkedLeft(t.left, q))
            && right.Value() == (if r.Err? then t.right else LinkedRight(t.right, p, t.left))
  {
    hide SplitAndRetry, WellFormed;
    r := SplitAndRetryInPlace(left, right, q, rowId, payload);
    oldHasNext, oldNextId := left.hasNext, left.nextPageId;
    LinkedWell(left.Value(), q, right.Value(), p, 0);
    if r.Ok? {
      right.hasPrev, right.prevPageId := true, p;
      right.hasNext, right.nextPageId := oldHasNext, oldNextId;
      left.hasNext, left.nextPageId := true, q;
    }
  }

  lemma CountsFit(l: Leaf)
    requires WellFormed(l)
    ensures Indexed(l) && |l.records| <= 0x1_0000 && |l.slots| <= 0x1_0000
  {
  }

  class BpTree {
    const pool: BufferPool
    const rootPageId: PageId

    constructor (pool: BufferPool, rootPageId: PageId)
      ensures this.pool == pool && this.rootPageId == rootPageId
    {
      this.pool, this.rootPageId := pool, rootPageId;
    }

    /** Marks a cached page dirty. */
    method Stamp(p: PageId, frame: PageRef, lsn: U64)
      requires pool.Valid() && p in pool.pageTable && pool.pageTable[p] == frame
      modifies frame.Obj()
      ensures pool.Valid() && pool.State() == Touched(old(pool.State()), p, lsn)
    {
      hide PoolWF, NodeWell, LruReplacer.Valid, LruReplacer.Linked, LruReplacer.Recency, BufferPool.Cached;
      hide BufferPool.Apart;
      ghost var s := pool.State();
      CachedNodeWell(s, p);
      WellStays(s.cache[p], lsn);
      assert s.cache[p] == frame.Value();
      frame.SetDirty(lsn);
      pool.NodeChanged(p);
    }

    /** Inserts a record into a cached leaf. */
    method InsertInto(p: PageId, leaf: LeafPage, rowId: U64, payload: seq<Byte>) returns (r: Result<()>)
      requires pool.Valid() && p in pool.pageTable && pool.pageTable[p] == LeafRef(leaf)
      modifies leaf
      ensures pool.Valid() && WellFormed(old(leaf.Value()))
      ensures Done(leaf.Value(), r) == L.Insert(old(leaf.Value()), rowId, payload)
      ensures pool.State() == PutLeaf(old(pool.State()), p, leaf.Value())
    {
      hide PoolWF, L.Insert, LruReplacer.Valid, LruReplacer.Linked, LruReplacer.Recency, BufferPool.Cached;
      hide BufferPool.Apart;
      CachedNodeWell(pool.State(), p);
      assert pool.State().cache[p] == LeafNode(leaf.Value());
      InsertRefinesMap(leaf.Value(), rowId, payload);
      r := leaf.InsertRecord(rowId, payload);
      pool.NodeChanged(p);
    }

    lemma StampedOnce(s: Pool, p: PageId, l: Leaf, lsn: U64)
      ensures Touched(PutLeaf(s, p, l), p, lsn) == Put(s, p, MarkDirty(LeafNode(l), lsn))
    {
    }

    /** Inserts into a leaf page; splits it when it is full. */
    method InsertLeaf(leafPageId: PageId, rowId: U64, payload: seq<Byte>, lsn: U64)
      returns (r: Result<Option<SplitResult>>)
      requires pool.Valid()
      modifies pool.Repr()
      ensures pool.Valid()
      ensures (pool.State(), r) == T.InsertLeaf(old(pool.State()), leafPageId, rowId, payload, lsn)
    {
      hide PoolWF, NodeWell, Fetch, InsertHeld;
      hide LruReplacer.Valid, LruReplacer.Linked, LruReplacer.Recency, BufferPool.Cached, BufferPool.Apart;
      ghost var s := pool.State();
      FetchKeepsWF(s, leafPageId);
      var leafFrame := pool.FetchPage(leafPageId);
      if leafFrame.Err? { return Err(leafFrame.error); }
      ghost var s1 := pool.State();
      assert s1.cache[leafPageId] == leafFrame.value.Value();
      if leafFrame.value.InnerRef? {
        pool.GiveBack(leafPageId);
        return Err(CorruptPage(RecordIntoInternalNode));
      }
      r := InsertIntoHeld(leafPageId, leafFrame.value.leaf, rowId, payload, lsn);
    }

    method InsertIntoHeld(p: PageId, leaf: LeafPage, rowId: U64, payload: seq<Byte>, lsn: U64)
      returns (r: Result<Option<SplitResult>>)
      requires pool.Valid() && p in pool.pageTable && pool.pageTable[p] == LeafRef(leaf) && pool.pins[p] > 0
      modifies pool.Repr()
      ensures pool.Valid() && old(pool.State()).cache[p] == LeafNode(old(leaf.Value()))
      ensures (pool.State(), r) == InsertHeld(old(pool.State()), p, old(leaf.Value()), rowId, payload, lsn)
    {
      hide PoolWF, NodeWell, SplitInsert, L.Insert, WellFormed;
      hide LruReplacer.Valid, LruReplacer.Linked, LruReplacer.Recency, BufferPool.Cached, BufferPool.Apart;
      ghost var s1, l := pool.State(), leaf.Value();
      assert s1.cache[p] == LeafNode(l);
      var inserted := InsertInto(p, leaf, rowId, payload);
      InsertRefinesMap(l, rowId, payload);
      if inserted.Ok? {
        StampedOnce(s1, p, leaf.Value(), lsn);
        Stamp(p, LeafRef(leaf), lsn);
        pool.GiveBack(p);
        return Ok(None);
      }
      if inserted.error != PageFull {
        pool.GiveBack(p);
        return Err(inserted.error);
      }
      assert PutLeaf(s1, p, l) == s1;
      r := SplitAndInsert(p, leaf, rowId, payload, lsn);
    }

    /** Allocates a sibling, moves the upper half there, inserts into the right half and links the
        sibling into the chain. */
    method SplitAndInsert(p: PageId, leaf: LeafPage, rowId: U64, payload: seq<Byte>, lsn: U64)
      returns (r: Result<Option<SplitResult>>)
      requires pool.Valid() && p in pool.pageTable && pool.pageTable[p] == LeafRef(leaf) && pool.pins[p] > 0
      modifies pool.Repr()
      ensures pool.Valid() && WellFormed(old(leaf.Value()))
      ensures (pool.State(), r) == SplitInsert(old(pool.State()), p, old(leaf.Value()), rowId, payload, lsn)
    {
      hide PoolWF, New, SplitInto, LruReplacer.Valid, LruReplacer.Linked, LruReplacer.Recency, BufferPool.Cached;
      hide BufferPool.Apart;
      hide WellFormed;
      ghost var s1, l := pool.State(), leaf.Value();
      LeafOfWell(s1, p);
      NewKeepsWF(s1, true);
      HeldStays(s1, p, p, true);
      var made := pool.NewPage(true);
      if made.Err? {
        pool.GiveBack(p);
        return Err(made.error);
      }
      var (q, frame) := made.value;
      ghost var s2 := pool.State();
      assert s2.cache[p] == LeafNode(l) && pool.pageTable[p] == LeafRef(leaf);
      assert s2.cache[q] == frame.Value() == LeafNode(EmptyLeaf(q));
      r := SplitIntoNew(p, leaf, q, frame.leaf, rowId, payload, lsn);
    }

    method SplitIntoNew(p: PageId, leaf: LeafPage, q: PageId, right: LeafPage, rowId: U64, payload: seq<Byte>, lsn: U64)
      returns (r: Result<Option<SplitResult>>)
      requires pool.Valid() && p != q && pool.pins[p] > 0 && pool.pins[q] > 0 && WellFormed(leaf.Value())
      requires p in pool.pageTable && pool.pageTable[p] == LeafRef(leaf)
      requires q in pool.pageTable && pool.pageTable[q] == LeafRef(right) && right.Value() == EmptyLeaf(q)
      modifies pool.Repr()
      ensures pool.Valid()
      ensures (pool.State(), r) == SplitInto(old(pool.State()), p, q, old(leaf.Value()), rowId, payload, lsn)
    {
      hide PoolWF, NodeWell, SplitAndRetry, T.Finish, LinkedLeft, LinkedRight, LruReplacer.Valid, LruReplacer.Linked;
      hide LruReplacer.Recency, BufferPool.Cached, WellFormed;
      assert leaf != right by { assert pool.Apart(); }
      ghost var s2, t := pool.State(), SplitAndRetry(leaf.Value(), q, rowId, payload);
      var promoted, oldHasNext, oldNextId := SplitAndWire(p, leaf, q, right, rowId, payload);
      forall x | x in pool.pageTable && x != p && x != q
          ensures pool.pageTable[x].Value() == old(pool.pageTable[x].Value())
      {
        assert pool.pageTable[x].Obj() != leaf && pool.pageTable[x].Obj() != right;
      }
      pool.PairChanged((p, q));
      assert pool.State() == PutLeaf(PutLeaf(s2, p, leaf.Value()), q, right.Value());
      if promoted.Err? {
        pool.GiveBack(q);
        pool.GiveBack(p);
        return Err(promoted.error);
      }
      r := Finish(p, leaf, q, right, promoted.value, oldHasNext, oldNextId, lsn, t.left);
    }

    lemma LeafOfWell(s: Pool, p: PageId)
      requires PoolWF(s) && p in s.cache
      ensures s.cache[p].LeafNode? ==> WellFormed(s.cache[p].leaf)
    {
    }

    /** Points the old right sibling back at the new page, marks both halves dirty and lets go. */
    method Finish(p: PageId, leaf: LeafPage, q: PageId, right: LeafPage, promoted: U64, oldHasNext: bool,
                  oldNextId: PageId,
                  lsn: U64, ghost was: Leaf)
      returns (r: Result<Option<SplitResult>>)
      requires pool.Valid() && pool.pins[p] > 0 && pool.pins[q] > 0
      requires p in pool.pageTable && pool.pageTable[p] == LeafRef(leaf)
      requires q in pool.pageTable && pool.pageTable[q] == LeafRef(right)
      requires was.hasNext == oldHasNext && was.nextId == oldNextId
      modifies pool.Repr()
      ensures pool.Valid()
      ensures (pool.State(), r) == T.Finish(old(pool.State()), p, q, was, promoted, lsn)
    {
      hide PoolWF, NodeWell, LinkIfAny, Touched, LruReplacer.Valid, LruReplacer.Linked, LruReplacer.Recency;
      hide BufferPool.Cached, BufferPool.Apart, SameFrames;
      ghost var s3, table := pool.State(), pool.pageTable;
      InFrames(p);
      InFrames(q);
      var linked := LinkOldRightIfAny(oldHasNext, oldNextId, p, q, lsn, was);
      ghost var s4 := pool.State();
      assert (s4, linked) == LinkIfAny(s3, was, p, q, lsn);
      if linked.Err? {
        if linked.error != Deadlock {
          pool.GiveBack(q);
          pool.GiveBack(p);
        }
        assert pool.State() == if linked == Err(Deadlock) then s4 else Release(Release(s4, q), p);
        r := Err(linked.error);
        assert (pool.State(), r) == T.Finish(s3, p, q, was, promoted, lsn);
        return;
      }
      FrameKept(table, pool.pageTable, p);
      FrameKept(table, pool.pageTable, q);
      StampBoth(p, LeafRef(leaf), q, LeafRef(right), lsn);
      r := Ok(Some(SplitResult(promoted, q)));
      assert pool.State() == Release(Release(Touched(Touched(s4, p, lsn), q, lsn), q), p);
      assert (pool.State(), r) == T.Finish(s3, p, q, was, promoted, lsn);
    }

    method LinkOldRightIfAny(oldHasNext: bool, oldNextId: PageId, p: PageId, q: PageId, lsn: U64, ghost was: Leaf)
      returns (r: Result<()>)
      requires pool.Valid() && p in pool.pageTable && q in pool.pageTable && pool.pins[p] > 0 && pool.pins[q] > 0
      requires was.hasNext == oldHasNext && was.nextId == oldNextId
      modifies pool.Repr()
      ensures pool.Valid()
      ensures (pool.State(), r) == LinkIfAny(old(pool.State()), was, p, q, lsn)
      ensures p in pool.pageTable && q in pool.pageTable && SameFrames(old(pool.pageTable), pool.pageTable)
    {
      hide PoolWF, NodeWell, LinkBack, LruReplacer.Valid, LruReplacer.Linked, LruReplacer.Recency, BufferPool.Cached;
      hide BufferPool.Apart, SameFrames;
      SameFramesSelf(pool.pageTable);
      r := Ok(());
      if oldHasNext {
        r := LinkOldRight(oldNextId, p, q, lsn);
      }
    }

    lemma InFrames(p: PageId)
      requires p in pool.pageTable
      ensures pool.pageTable[p].Obj() in pool.Frames()
    {
    }

    lemma SameFramesSelf(a: map<PageId, PageRef>)
      ensures SameFrames(a, a)
    {
    }

    lemma FrameKept(a: map<PageId, PageRef>, b: map<PageId, PageRef>, p: PageId)
      requires SameFrames(a, b) && p in a && p in b
      ensures a[p] == b[p]
    {
    }

    method StampBoth(p: PageId, left: PageRef, q: PageId, right: PageRef, lsn: U64)
      requires pool.Valid() && p in pool.pageTable && pool.pageTable[p] == left && q in pool.pageTable
      requires pool.pageTable[q] == right
      modifies pool`pins, left.Obj(), right.Obj()
      ensures pool.Valid()
      ensures pool.State() == Release(Release(Touched(Touched(old(pool.State()), p, lsn), q, lsn), q), p)
    {
      hide PoolWF, NodeWell, Touched, LruReplacer.Valid, LruReplacer.Linked, LruReplacer.Recency, BufferPool.Cached;
      hide BufferPool.Apart;
      Stamp(p, left, lsn);
      Stamp(q, right, lsn);
      pool.GiveBack(q);
      pool.GiveBack(p);
    }

    method LinkOldRight(next: PageId, p: PageId, q: PageId, lsn: U64) returns (r: Result<()>)
      requires pool.Valid() && p in pool.pageTable && q in pool.pageTable && pool.pins[p] > 0 && pool.pins[q] > 0
      modifies pool.Repr()
      ensures pool.Valid()
      ensures (pool.State(), r) == LinkBack(old(pool.State()), next, p, q, lsn)
      ensures p in pool.pageTable && q in pool.pageTable && SameFrames(old(pool.pageTable), pool.pageTable)
    {
      hide PoolWF, Fetch, LruReplacer.Valid, LruReplacer.Linked, LruReplacer.Recency, BufferPool.Cached;
      hide BufferPool.Apart, NodeWell, SameFrames, Relinked;
      ghost var s, table := pool.State(), pool.pageTable;
      HeldStays(s, p, next, true);
      HeldStays(s, q, next, true);
      FetchKeepsWF(s, next);
      var frame := pool.FetchPage(next);
      if frame.Err? { return Err(frame.error); }
      if next in table { FrameKept(table, pool.pageTable, next); }
      assert fresh(frame.value.Obj()) || frame.value.Obj() in old(pool.Frames());
      if next == p || next == q { return Err(Deadlock); }
      RelinkFetched(next, frame.value, q, lsn);
      r := Ok(());
    }

    method RelinkFetched(next: PageId, frame: PageRef, q: PageId, lsn: U64)
      requires pool.Valid() && next in pool.pageTable && pool.pageTable[next] == frame
      modifies pool`pins, frame.Obj()
      ensures pool.Valid() && next in old(pool.State()).cache
      ensures pool.State() == Relinked(old(pool.State()), next, q, lsn)
    {
      hide PoolWF, LruReplacer.Valid, LruReplacer.Linked, LruReplacer.Recency, BufferPool.Cached, BufferPool.Apart;
      hide NodeWell;
      assert pool.State().cache[next] == frame.Value();
      if frame.LeafRef? {
        Relink(next, frame.leaf, q, lsn);
      }
      pool.GiveBack(next);
    }

    /** Points a leaf back at page q and marks it dirty. */
    method Relink(next: PageId, leaf: LeafPage, q: PageId, lsn: U64)
      requires pool.Valid() && next in pool.pageTable && pool.pageTable[next] == LeafRef(leaf)
      modifies leaf
      ensures pool.Valid()
      ensures pool.State() == Put(old(pool.State()), next,
                MarkDirty(LeafNode(old(leaf.Value()).(hasPrev := true, prevId := q)), lsn))
    {
      hide PoolWF, NodeWell, LruReplacer.Valid, LruReplacer.Linked, LruReplacer.Recency, BufferPool.Cached;
      hide BufferPool.Apart;
      ghost var l := leaf.Value();
      CachedNodeWell(pool.State(), next);
      assert pool.State().cache[next] == LeafNode(l);
      RelinkedWell(l, q, lsn);
      leaf.hasPrev, leaf.prevPageId := true, q;
      LeafRef(leaf).SetDirty(lsn);
      pool.NodeChanged(next);
    }

    // ----- finding -----

    /** Fetches a page and reads it for a key. */
    method Visit(p: PageId, rowId: U64, ghost m: map<PageId, Node>) returns (r: Result<Visited>)
      requires pool.Valid() && Coherent(pool.State()) && Shows(pool.State(), m)
      requires p in m && Searchable(m[p])
      modifies pool.Repr()
      ensures pool.Valid() && Coherent(pool.State()) && Shows(pool.State(), m) && pool.pins == old(pool.pins)
      ensures forall o :: o in pool.Frames() ==> o in old(pool.Frames()) || fresh(o)
      ensures r.Ok? ==> r.value == VisitOf(m[p], rowId)
      ensures Ready(old(pool.State())) && old(pool.pins) == multiset{} ==> r.Ok? && Ready(pool.State())
    {
      hide PoolWF, Fetch, Shows, Coherent, NodeWell, Ready, Searchable, VisitOf, Norm;
      hide LruReplacer.Valid, LruReplacer.Linked, LruReplacer.Recency, BufferPool.Cached, BufferPool.Apart;
      ghost var s := pool.State();
      FetchedShows(s, m, p);
      FetchKeepsWF(s, p);
      if Ready(s) && s.pins == multiset{} { FetchTotal(s, m, p); }
      FailedFetchAddsNothing(s, p);
      var frame := pool.FetchPage(p);
      pool.FreshFrames(p);
      if frame.Err? { return Err(frame.error); }
      assert pool.State().cache[p] == frame.value.Value();
      NormVisits(frame.value.Value(), rowId);
      var visited := LookHeld(p, frame.value, rowId);
      r := Ok(visited);
    }

    /** Reads a page that is held for a key, and lets go of it. */
    method LookHeld(p: PageId, frame: PageRef, rowId: U64) returns (v: Visited)
      requires pool.Valid() && p in pool.pageTable && pool.pageTable[p] == frame && Searchable(frame.Value())
      modifies pool`pins
      ensures pool.Valid() && pool.State() == Release(old(pool.State()), p)
      ensures v == VisitOf(old(frame.Value()), rowId)
    {
      hide PoolWF, Searchable, VisitOf, LruReplacer.Valid, LruReplacer.Linked, LruReplacer.Recency, BufferPool.Cached;
      hide BufferPool.Apart;
      ghost var s1 := pool.State();
      v := Look(frame, rowId);
      pool.CachedSame();
      assert pool.State() == s1;
      pool.GiveBack(p);
    }

    /** Looks a key up by descending from the root. On a well-formed tree the loop ends, with the
        height as its measure, and a value it returns is what the leaves of the tree hold for the
        key, whatever is evicted and loaded again in between. It fails only when the pool does. */
    method FindRecord(rowId: U64, ghost m: map<PageId, Node>, ghost height: nat) returns (r: Result<Option<seq<Byte>>>)
      requires pool.Valid() && Coherent(pool.State()) && Shows(pool.State(), m)
      requires TreeAt(m, rootPageId, 0, KEYS, height)
      modifies pool.Repr()
      ensures pool.Valid() && Coherent(pool.State()) && Shows(pool.State(), m) && pool.pins == old(pool.pins)
      ensures r.Ok? ==> r.value == ValueAt(TreeMap(m, rootPageId, height), rowId)
      ensures Ready(old(pool.State())) && old(pool.pins) == multiset{} ==> r.Ok? && Ready(pool.State())
    {
      hide PoolWF, Shows, Coherent, Ready, Searchable, Answers;
      hide LruReplacer.Valid, LruReplacer.Linked, LruReplacer.Recency, BufferPool.Cached, BufferPool.Apart;
      hide BufferPool.Frames;
      var currPageId := rootPageId;
      ghost var h, frames, ready := height, pool.Frames(), Ready(pool.State()) && pool.pins == multiset{};
      RootAnswers(m, rootPageId, height, rowId);
      while true
        invariant pool.Valid() && Coherent(pool.State()) && Shows(pool.State(), m) && pool.pins == old(pool.pins)
        invariant forall o :: o in pool.Frames() ==> o in frames || fresh(o)
        invariant ready ==> Ready(pool.State())
        invariant Answers(m, rootPageId, height, rowId, currPageId, h)
        decreases h
      {
        VisitStep(m, rootPageId, height, rowId, currPageId, h);
        ghost var before := pool.Frames();
        label visiting:
        var visited := Visit(currPageId, rowId, m);
        forall o | o in pool.Frames() ensures o in frames || fresh(o) {
          if o !in before { assert fresh@visiting(o); }
        }
        if visited.Err? { return Err(visited.error); }
        match visited.value {
          case Found(value) => return Ok(value);
          case Next(page) => currPageId, h := page, h - 1;
        }
      }
    }
  }

  datatype Visited = Next(page: PageId) | Found(value: Option<seq<Byte>>)

  predicate Searchable(n: Node) {
    match n
    case LeafNode(l) => WellFormed(l)
    case InnerNode(i) => InnerIndexed(i) && RoutesAscend(Routes(i))
  }

  /** What reading a node for a key says. */
  function VisitOf(n: Node, k: U64): Visited
    requires Searchable(n)
  {
    match n
    case LeafNode(l) => Found(L.Get(l, k))
    case InnerNode(i) => Next(RouteKey(i, k))
  }

  /** Searches a leaf, or routes the key one level down. */
  method Look(page: PageRef, rowId: U64) returns (v: Visited)
    requires Searchable(page.Value())
    ensures v == VisitOf(page.Value(), rowId)
  {
    match page {
      case InnerRef(node) =>
        var child := node.RouteTo(rowId);
        v := Next(child);
      case LeafRef(leaf) =>
        GetRefinesMap(leaf.Value(), rowId);
        var value := leaf.GetRecord(rowId);
        v := Found(value);
    }
  }

  lemma NormVisits(n: Node, k: U64)
    requires NodeWell(n) && Searchable(Norm(n))
    ensures Searchable(n) && VisitOf(Norm(n), k) == VisitOf(n, k)
  {
    match n
    case LeafNode(l) => NormGets(l, k);
    case InnerNode(i) => NormRoutes(i, k);
  }

  lemma NormRoutes(n: Inner, k: U64)
    requires InnerIndexed(n)
    ensures var n' := n.(freeSize := 0, dirty := false);
            InnerIndexed(n') && Routes(n') == Routes(n) && RouteKey(n', k) == RouteKey(n, k)
  {
    assert Routes(n.(freeSize := 0, dirty := false)) == Routes(n);
  }

  lemma NormGets(l: Leaf, k: U64)
    requires WellFormed(NormLeaf(l))
    ensures WellFormed(l) && L.Get(NormLeaf(l), k) == L.Get(l, k)
  {
    assert Ordered(NormLeaf(l)) == Ordered(l);
  }

  /** Fetching a page and letting go of it shows its content and changes none. */
  lemma FetchedShows(s: Pool, m: map<PageId, Node>, p: PageId)
    requires PoolWF(s) && Coherent(s) && Shows(s, m)
    ensures var (s', r) := Fetch(s, p);
            && (r.Ok? ==> p in s'.cache && p in m && m[p] == Norm(s'.cache[p])
                          && PoolWF(Release(s', p)) && Coherent(Release(s', p)) && Shows(Release(s', p), m)
                          && Release(s', p).pins == s.pins && NodeWell(s'.cache[p]))
            && (r.Err? ==> PoolWF(s') && Coherent(s') && Shows(s', m) && s'.pins == s.pins)
  {
    hide PoolWF, Coherent, Fetch, Content, NodeWell, Norm;
    FetchKeepsWF(s, p);
    FetchMoves(s, p);
    if Fetch(s, p).1.Ok? {
      ReleaseFetched(s, p);
      assert s.pins + multiset{p} - multiset{p} == s.pins;
    }
  }

  lemma FetchTotal(s: Pool, m: map<PageId, Node>, p: PageId)
    requires Ready(s) && s.pins == multiset{} && Shows(s, m) && p in m
    ensures Fetch(s, p).1.Ok? && Ready(Release(Fetch(s, p).0, p))
  {
    assert Content(s, p).Some?;
    SpareIfNothingHeld(s);
    FetchReady(s, p);
    ReleaseReady(Fetch(s, p).0, p);
  }

  /** Page p roots a tree of height at most h that answers for key k as the tree at root does. */
  ghost predicate Answers(m: map<PageId, Node>, root: PageId, height: nat, k: U64, p: PageId, h: nat) {
    && (exists lo: nat, hi: nat :: TreeAt(m, p, lo, hi, h) && lo <= k < hi)
    && ValueAt(TreeMap(m, p, h), k) == ValueAt(TreeMap(m, root, height), k)
  }

  lemma RootAnswers(m: map<PageId, Node>, root: PageId, height: nat, k: U64)
    requires TreeAt(m, root, 0, KEYS, height)
    ensures Answers(m, root, height, k, root, height)
  {
  }

  /** Reading the root of a tree answers for a key, or leaves a smaller tree that does. */
  lemma VisitStep(m: map<PageId, Node>, root: PageId, height: nat, k: U64, p: PageId, h: nat)
    requires Answers(m, root, height, k, p, h)
    ensures p in m && Searchable(m[p])
    ensures match VisitOf(m[p], k)
            case Found(value) => value == ValueAt(TreeMap(m, root, height), k)
            case Next(page) => h > 0 && Answers(m, root, height, k, page, h - 1)
  {
    var lo: nat, hi: nat :| TreeAt(m, p, lo, hi, h) && lo <= k < hi;
    match m[p]
    case LeafNode(l) => GetRefinesMap(l, k);
    case InnerNode(n) =>
      RouteStep(m, p, lo, hi, h, k);
      var i := PartitionPoint(Routes(n), k);
      assert TreeAt(m, Child(n, i), Low(n, i, lo), High(n, i, hi), h - 1);
  }
}
