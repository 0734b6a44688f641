/** Inserting gives back the pages it took, and on a pool where nothing is broken its result depends on
    the leaf alone. */
module TreeProgress {
  import opened Base
  import opened L = Leaves
  import opened LeafLaws
  import opened Nodes
  import opened Codec
  import Lru
  import opened Pools
  import opened PoolLaws
  import opened PoolOutcomes
  import opened PoolProgress
  import opened Trees
  import opened TreeLaws
  import opened InsertErrors
  import opened LeafInserts
  import opened Redo

  // ----- references -----

  /** Linking back holds the old right sibling only while it waits for itself. */
  lemma LinkGivesBack(s3: Pool, was: Leaf, p: PageId, q: PageId, lsn: U64)
    requires PoolWF(s3)
    ensures var (s4, linked) := LinkIfAny(s3, was, p, q, lsn);
            && (linked != Err(Deadlock) ==> s4.pins == s3.pins)
            && (linked == Err(Deadlock) ==> |s4.pins| == |s3.pins| + 1 && was.hasNext && was.nextId in {p, q})
  {
    hide PoolWF, Fetch;
    var next := was.nextId;
    FetchKeepsWF(s3, next);
    FetchReports(s3, next);
    assert s3.pins + multiset{next} - multiset{next} == s3.pins;
  }

  lemma RetryReports(l: Leaf, q: PageId, key: U64, payload: seq<Byte>)
    requires WellFormed(l)
    ensures var r := SplitAndRetry(l, q, key, payload).result;
            r != Err(Deadlock) && r != Err(CorruptPage(RecordIntoInternalNode))
  {
    hide L.Insert, L.Split, Ordered, LiveOnly, Bytes, Overflows;
    SplitWell(l, EmptyLeaf(q));
    SplitOutcome(l, EmptyLeaf(q));
    var h := L.Split(l, EmptyLeaf(q));
    OpErrors(h.left, key, payload);
    OpErrors(h.right, key, payload);
    hide WellFormed;
  }

  lemma SplitGivesBack(s1: Pool, p: PageId, l: Leaf, key: U64, payload: seq<Byte>, lsn: U64)
    requires PoolWF(s1) && WellFormed(l) && p in s1.cache && s1.pins[p] > 0
    ensures var (s', r) := SplitInsert(s1, p, l, key, payload, lsn);
            && (r != Err(Deadlock) ==> s'.pins == s1.pins - multiset{p})
            && (r == Err(Deadlock) ==> |s'.pins| == |s1.pins| + 2)
  {
    hide PoolWF, WellFormed, New, SplitAndRetry, LinkIfAny;
    NewKeepsWF(s1, true);
    NewReports(s1, true);
    if New(s1, true).1.Ok? {
      var s2, q := New(s1, true).0, New(s1, true).1.value;
      var t := SplitAndRetry(l, q, key, payload);
      RetryReports(l, q, key, payload);
      BothBack(s1.pins, p, q);
      if t.result.Ok? {
        HeldStays(s1, p, p, true);
        LinkedLeaves(t.left, t.right, p, q);
        PutPairWF(s2, p, q, LinkedLeft(t.left, q), LinkedRight(t.right, p, t.left));
        var s3 := PutLeaf(PutLeaf(s2, p, LinkedLeft(t.left, q)), q, LinkedRight(t.right, p, t.left));
        LinkGivesBack(s3, t.left, p, q, lsn);
      }
    }
  }

  lemma LinkedLeaves(l: Leaf, r: Leaf, p: PageId, q: PageId)
    requires WellFormed(l) && WellFormed(r)
    ensures WellFormed(LinkedLeft(l, q)) && WellFormed(LinkedRight(r, p, l))
  {
    assert Ordered(LinkedLeft(l, q)) == Ordered(l);
    assert Ordered(LinkedRight(r, p, l)) == Ordered(r);
  }

  lemma BothBack(pins: multiset<PageId>, p: PageId, q: PageId)
    ensures pins + multiset{q} - multiset{q} - multiset{p} == pins - multiset{p}
  {
  }

  /** However an insert into a leaf ends, short of a deadlock it holds no page it did not hold before: in
      place, by a split, turned down, or failing anywhere in between. A deadlock keeps three, the leaf,
      the new page and the page it waits for. */
  lemma InsertGivesBack(s: Pool, p: PageId, key: U64, payload: seq<Byte>, lsn: U64)
    requires PoolWF(s)
    ensures var (s', r) := InsertLeaf(s, p, key, payload, lsn);
            && (r != Err(Deadlock) ==> s'.pins == s.pins)
            && (r == Err(Deadlock) ==> |s'.pins| == |s.pins| + 3)
  {
    hide PoolWF, WellFormed, Fetch, NodeWell, L.Insert, SplitInsert;
    FetchKeepsWF(s, p);
    FetchReports(s, p);
    if Fetch(s, p).1.Ok? {
      var s1 := Fetch(s, p).0;
      assert s.pins + multiset{p} - multiset{p} == s.pins;
      if s1.cache[p].LeafNode? {
        var l := s1.cache[p].leaf;
        CachedLeafWell(s1, p, l);
        OpErrors(l, key, payload);
        SplitGivesBack(s1, p, l, key, payload, lsn);
      }
    }
  }

  lemma CachedLeafWell(s: Pool, p: PageId, l: Leaf)
    requires PoolWF(s) && p in s.cache && s.cache[p] == LeafNode(l)
    ensures WellFormed(l) && Indexed(l)
  {
  }

  // ----- failures -----

  /** A page that cannot be fetched is reported with the pool's own error, and an internal page, and
      nothing else, as one that takes no records. */
  lemma InsertFailures(s: Pool, p: PageId, key: U64, payload: seq<Byte>, lsn: U64)
    requires PoolWF(s)
    ensures var ((s', r), (s1, got)) := (InsertLeaf(s, p, key, payload, lsn), Fetch(s, p));
            && (got.Err? ==> s' == s1 && r == Err(got.error))
            && (r == Err(CorruptPage(RecordIntoInternalNode)) <==> got.Ok? && Fetched(s, p).None?)
            && (got.Ok? && Fetched(s, p).None? ==> s' == Release(s1, p))
  {
    hide PoolWF, WellFormed, Fetch, NodeWell, L.Insert, SplitInsert, Ordered;
    FetchKeepsWF(s, p);
    FetchReports(s, p);
    if Fetch(s, p).1.Ok? {
      var s1 := Fetch(s, p).0;
      if s1.cache[p].LeafNode? {
        var l := s1.cache[p].leaf;
        CachedLeafWell(s1, p, l);
        OpErrors(l, key, payload);
        SplitFailures(s1, p, l, key, payload, lsn);
      }
    }
  }

  /** A panic leaves the record it was reviving in the page. */
  lemma PanicKeepsRecord(s: Pool, p: PageId, key: U64, payload: seq<Byte>, lsn: U64)
    requires PoolWF(s) && Panics(s, p, key, payload)
    ensures var (s', r) := InsertLeaf(s, p, key, payload, lsn);
            && r == Err(Panic) && p in s'.cache && NodeWell(s'.cache[p]) && s'.cache[p].LeafNode?
    ensures var l' := InsertLeaf(s, p, key, payload, lsn).0.cache[p].leaf;
            Indexed(l') && Indexed(Fetched(s, p).value)
            && L.Live(l') == L.Live(Fetched(s, p).value)[key := payload]
  {
    hide PoolWF, WellFormed, Fetch, NodeWell, L.Insert, SplitInsert, Ordered, L.Live;
    FetchKeepsWF(s, p);
    var l := Fetched(s, p).value;
    CachedLeafWell(Fetch(s, p).0, p, l);
    PanicLeaves(l, key, payload);
  }

  lemma PanicLeaves(l: Leaf, key: U64, payload: seq<Byte>)
    requires WellFormed(l)
    ensures var d := L.Insert(l, key, payload);
            NodeWell(LeafNode(d.leaf)) && Indexed(d.leaf)
            && (d.result == Err(Panic) ==> L.Live(d.leaf) == L.Live(l)[key := payload])
  {
    InsertRefinesMap(l, key, payload);
    if L.Insert(l, key, payload).result == Err(Panic) { InsertReuse(l, key, payload); }
  }

  /** Which page could not be had decides what a split reports, and nothing else looks like an internal
      page. */
  lemma SplitFailures(s1: Pool, p: PageId, l: Leaf, key: U64, payload: seq<Byte>, lsn: U64)
    requires PoolWF(s1) && WellFormed(l) && p in s1.cache && s1.pins[p] > 0
    ensures var (r, made) := (SplitInsert(s1, p, l, key, payload, lsn).1, New(s1, true).1);
            && r != Err(CorruptPage(RecordIntoInternalNode))
            && (made.Err? ==> r == Err(made.error))
            && (made.Ok? && SplitAndRetry(l, made.value, key, payload).result.Err? ==>
                  r == Err(SplitAndRetry(l, made.value, key, payload).result.error))
  {
    hide PoolWF, WellFormed, New, SplitAndRetry, Fetch;
    NewKeepsWF(s1, true);
    NewReports(s1, true);
    if New(s1, true).1.Ok? {
      var s2, q := New(s1, true).0, New(s1, true).1.value;
      var t := SplitAndRetry(l, q, key, payload);
      RetryReports(l, q, key, payload);
      if t.result.Ok? {
        HeldStays(s1, p, p, true);
        LinkedLeaves(t.left, t.right, p, q);
        PutPairWF(s2, p, q, LinkedLeft(t.left, q), LinkedRight(t.right, p, t.left));
        var s3 := PutLeaf(PutLeaf(s2, p, LinkedLeft(t.left, q)), q, LinkedRight(t.right, p, t.left));
        FinishFailures(s3, p, q, t.left, t.result.value, lsn);
      }
    }
  }

  /** The link fails with the error of the fetch, and waits for itself only on a page it holds. */
  lemma FinishFailures(s3: Pool, p: PageId, q: PageId, was: Leaf, promoted: U64, lsn: U64)
    requires PoolWF(s3)
    ensures var (r, got) := (Finish(s3, p, q, was, promoted, lsn).1, Fetch(s3, was.nextId).1);
            && (r.Ok? <==> (was.hasNext ==> got.Ok? && was.nextId !in {p, q}))
            && (was.hasNext && got.Err? ==> r == Err(got.error) && PoolError(got.error))
            && (r == Err(Deadlock) <==> was.hasNext && got.Ok? && was.nextId in {p, q})
  {
    hide PoolWF, Fetch, Touched;
    FetchReports(s3, was.nextId);
  }

  // ----- results -----

  /** What an insert into a leaf at page p reports when nothing is broken and q is the next page number. */
  function Report(l: Leaf, p: PageId, q: PageId, key: U64, payload: seq<Byte>): Result<Option<SplitResult>>
    requires Indexed(l)
  {
    if |payload| > MAX_VALUE_SIZE then Err(TupleTooLarge(|payload|))
    else if key in L.Live(l) then Err(DuplicateKey(key))
    else if HasRoom(l, key, payload) then Ok(None)
    else if Holds(Ordered(l), key) then Err(Panic)
    else if UpperLive(l) == [] then Err(CorruptPage(EmptyRightSibling))
    else if !FitsBeside(LiveBeside(l, key), payload) then Err(PageFull)
    else if l.hasNext && l.nextId == p then Err(Deadlock)
    else Ok(Some(SplitResult(UpperLive(l)[0].rowId, q)))
  }

  lemma NormReports(l: Leaf, p: PageId, q: PageId, key: U64, payload: seq<Byte>)
    requires Indexed(l)
    ensures Indexed(NormLeaf(l)) && Report(NormLeaf(l), p, q, key, payload) == Report(l, p, q, key, payload)
  {
    assert Ordered(NormLeaf(l)) == Ordered(l);
  }

  lemma ShownIsKnown(s: Pool, p: PageId)
    requires Content(s, p).Some?
    ensures p in s.cache || p in s.disk.pages
  {
    hide Decode, Norm;
  }

  /** Changing a held page to one that fits. */
  lemma PutSits(s: Pool, p: PageId, n: Node)
    requires Ready(s) && p in s.cache && Sits(n)
    ensures Ready(Put(s, p, n))
  {
    hide Ready, Sits;
    PutReady(s, p, n);
  }

  lemma MarkedSits(n: Node, lsn: U64)
    requires Sits(n)
    ensures Sits(MarkDirty(n, lsn))
  {
    WellStays(n, lsn);
    match n
    case InnerNode(_) =>
    case LeafNode(_) => SameBytes(MarkDirty(n, lsn), n);
  }

  lemma RelinkedSits(l: Leaf, l': Leaf)
    requires Sits(LeafNode(l)) && l'.slots == l.slots && l'.records == l.records
    ensures Sits(LeafNode(l'))
  {
    assert Ordered(l') == Ordered(l);
    SameBytes(LeafNode(l'), LeafNode(l));
  }

  lemma LeafSits(l: Leaf)
    ensures WellFormed(l) && L.Fits(l) ==> Sits(LeafNode(l))
    ensures Sits(LeafNode(l)) ==> WellFormed(l) && L.Fits(l)
  {
  }

  /** What the second insert leaves behind fits, whether it succeeds or not. */
  lemma RetrySits(l: Leaf, q: PageId, key: U64, payload: seq<Byte>)
    requires WellFormed(l) && L.Fits(l) && L.Insert(l, key, payload).result == Err(PageFull)
    ensures var t := SplitAndRetry(l, q, key, payload); Sits(LeafNode(t.left)) && Sits(LeafNode(t.right))
  {
    hide Ordered, L.Live, L.Insert, L.Split, Bytes, HasRoom;
    SplitWell(l, EmptyLeaf(q));
    var h := L.Split(l, EmptyLeaf(q));
    SplitLaw(l, EmptyLeaf(q));
    RetryFits(l, EmptyLeaf(q), h, key, payload);
    InsertRefinesMap(h.left, key, payload);
    InsertRefinesMap(h.right, key, payload);
    var t := SplitAndRetry(l, q, key, payload);
    hide L.Fits, WellFormed, SplitAndRetry;
    LeafSits(t.left);
    LeafSits(t.right);
  }

  lemma LinkReady(s3: Pool, was: Leaf, p: PageId, q: PageId, lsn: U64)
    requires Ready(s3) && Spare(s3) && (was.hasNext ==> Content(s3, was.nextId).Some?)
    ensures var (s4, linked) := LinkIfAny(s3, was, p, q, lsn);
            && Ready(s4)
            && (linked.Err? <==> was.hasNext && was.nextId in {p, q}) && (linked.Err? ==> linked == Err(Deadlock))
  {
    hide PoolWF, Fetch, Ready, Sits, Spare, Content, Works;
    ReadyWF(s3);
    if was.hasNext {
      var next := was.nextId;
      ShownIsKnown(s3, next);
      FetchReady(s3, next);
      FetchKeepsWF(s3, next);
      RelinkedReady(Fetch(s3, next).0, next, q, lsn);
    }
  }

  lemma ReadyWF(s: Pool)
    requires Ready(s)
    ensures PoolWF(s) && s.capacity > 0
    ensures forall p :: p in s.cache ==> Sits(s.cache[p])
  {
  }

  lemma RelinkedReady(s: Pool, next: PageId, q: PageId, lsn: U64)
    requires Ready(s) && next in s.cache
    ensures Ready(Relinked(s, next, q, lsn))
  {
    ReadyWF(s);
    hide Ready, Sits;
    match s.cache[next]
    case LeafNode(o) =>
      var o' := o.(hasPrev := true, prevId := q);
      RelinkedSits(o, o');
      MarkedSits(LeafNode(o'), lsn);
      PutSits(s, next, MarkDirty(LeafNode(o'), lsn));
      ReleaseReady(Put(s, next, MarkDirty(LeafNode(o'), lsn)), next);
    case InnerNode(_) => ReleaseReady(s, next);
  }

  lemma FinishReady(s4: Pool, p: PageId, q: PageId, lsn: U64)
    requires Ready(s4)
    ensures Ready(Release(Release(Touched(Touched(s4, p, lsn), q, lsn), q), p))
    ensures Ready(Release(Release(s4, q), p))
  {
    hide Ready, Sits;
    ReleaseReady(s4, q);
    ReleaseReady(Release(s4, q), p);
    TouchedReady(s4, p, lsn);
    var s5 := Touched(s4, p, lsn);
    TouchedReady(s5, q, lsn);
    var s6 := Touched(s5, q, lsn);
    ReleaseReady(s6, q);
    ReleaseReady(Release(s6, q), p);
  }

  lemma TouchedReady(s: Pool, p: PageId, lsn: U64)
    requires Ready(s)
    ensures Ready(Touched(s, p, lsn))
  {
    ReadyWF(s);
    hide Ready, Sits;
    if p in s.cache {
      MarkedSits(s.cache[p], lsn);
      PutSits(s, p, MarkDirty(s.cache[p], lsn));
    }
  }

  /** A split on a working pool, the leaf being the only page held. */
  lemma SplitReports(s1: Pool, p: PageId, l: Leaf, key: U64, payload: seq<Byte>, lsn: U64)
    requires Sound(s1) && Ready(s1) && s1.pins == multiset{p} && s1.capacity >= 3
    requires s1.disk.nextFree + PAGE_SIZE < 0x1_0000_0000_0000_0000
    requires p in s1.cache && s1.cache[p] == LeafNode(l) && WellFormed(l) && L.Fits(l)
    requires L.Insert(l, key, payload).result == Err(PageFull) && (l.hasNext ==> Content(s1, l.nextId).Some?)
    ensures var (s', r) := SplitInsert(s1, p, l, key, payload, lsn);
            var t, q := SplitAndRetry(l, s1.disk.nextFree, key, payload), s1.disk.nextFree;
            && Ready(s')
            && (t.result.Err? ==> r == Err(t.result.error))
            && (t.result.Ok? && l.hasNext && l.nextId == p ==> r == Err(Deadlock))
            && (t.result.Ok? && !(l.hasNext && l.nextId == p) ==> r == Ok(Some(SplitResult(t.result.value, q))))
  {
    hide PoolWF, Coherent, New, Ready, Sits, Spare, SplitAndRetry, L.Insert, LinkIfAny, WellFormed, L.Fits, Content;
    hide Touched, Norm, NodeWell;
    SpareUnlessAllHeld(s1, {p});
    NewReady(s1, true);
    var s2, q := New(s1, true).0, s1.disk.nextFree;
    var t := SplitAndRetry(l, q, key, payload);
    RetrySits(l, q, key, payload);
    SplitKeepsHeaders(l, q, key, payload);
    var left := if t.result.Ok? then LinkedLeft(t.left, q) else t.left;
    var right := if t.result.Ok? then LinkedRight(t.right, p, t.left) else t.right;
    RelinkedSits(t.left, left);
    RelinkedSits(t.right, right);
    SitsWell(LeafNode(left));
    SitsWell(LeafNode(right));
    HalvesMove(s1, p, l, key, payload, q, left, right);
    var s3 := PutLeaf(PutLeaf(s2, p, left), q, right);
    PutSits(s2, p, LeafNode(left));
    PutSits(PutLeaf(s2, p, left), q, LeafNode(right));
    SpareWithTwo(s3, p, q);
    if t.result.Err? {
      FinishReady(s3, p, q, lsn);
    } else {
      LinkReady(s3, t.left, p, q, lsn);
      FinishReady(LinkIfAny(s3, t.left, p, q, lsn).0, p, q, lsn);
    }
  }

  /** An insert into a leaf that is held on a working pool. */
  lemma HeldReports(s1: Pool, p: PageId, l: Leaf, key: U64, payload: seq<Byte>, lsn: U64)
    requires Sound(s1) && Ready(s1) && s1.pins == multiset{p} && s1.capacity >= 3
    requires s1.disk.nextFree + PAGE_SIZE < 0x1_0000_0000_0000_0000
    requires p in s1.cache && s1.cache[p] == LeafNode(l) && Indexed(l) && (l.hasNext ==> Content(s1, l.nextId).Some?)
    ensures var (s', r) := InsertHeld(s1, p, l, key, payload, lsn);
            && r == Report(l, p, s1.disk.nextFree, key, payload)
            && (r != Err(Panic) ==> Ready(s'))
  {
    hide PoolWF, Coherent, Ready, Sits, Spare, SplitInsert, SplitAndRetry, L.Insert, WellFormed, L.Fits, Content;
    hide HasRoom, Holds, L.Live, UpperLive, FitsBeside, LiveBeside, NodeWell;
    ReadyWF(s1);
    LeafSits(l);
    var d := L.Insert(l, key, payload);
    InsertRefinesMap(l, key, payload);
    OpErrors(l, key, payload);
    if d.result.Ok? {
      LeafSits(d.leaf);
      MarkedSits(LeafNode(d.leaf), lsn);
      PutSits(s1, p, MarkDirty(LeafNode(d.leaf), lsn));
      ReleaseReady(Put(s1, p, MarkDirty(LeafNode(d.leaf), lsn)), p);
    } else if d.result == Err(PageFull) {
      RetryOutcome(l, s1.disk.nextFree, key, payload);
      SplitReports(s1, p, l, key, payload, lsn);
    } else if d.result != Err(Panic) {
      assert PutLeaf(s1, p, l) == s1;
      ReleaseReady(s1, p);
    }
  }

  /** The leaf a fetch hands out has the content the pool showed. */
  lemma FetchedLeaf(s: Pool, p: PageId, l: Leaf) returns (c: Leaf)
    requires Sound(s) && Content(s, p) == Some(LeafNode(l)) && Fetch(s, p).1.Ok?
    ensures p in Fetch(s, p).0.cache && Fetch(s, p).0.cache[p] == LeafNode(c) && Indexed(c) && NormLeaf(c) == l
  {
    hide PoolWF, Coherent, Fetch, Content;
    FetchMoves(s, p);
    c := Fetch(s, p).0.cache[p].leaf;
  }

  lemma FetchKeepsSpace(s: Pool, p: PageId)
    requires PoolWF(s)
    ensures Fetch(s, p).0.disk.nextFree == s.disk.nextFree && Fetch(s, p).0.capacity == s.capacity
  {
    hide PoolWF, Evict, Decode, Lru.Touch;
    EvictKeepsWF(s);
  }

  lemma SitsWell(n: Node)
    requires Sits(n)
    ensures NodeWell(n)
  {
  }

  lemma SpareWithTwo(s: Pool, p: PageId, q: PageId)
    requires s.pins == multiset{p} + multiset{q} && s.capacity >= 3
    ensures Spare(s)
  {
    assert |{p, q}| <= 2;
    SpareUnlessAllHeld(s, {p, q});
  }

  /** On a working pool with room for three pages and a page number left, what an insert reports depends
      on the leaf alone, and short of a panic the pool is ready for the next one: every page it changed
      still fits, and what it cached or made can be evicted. */
  lemma InsertReports(s: Pool, p: PageId, l: Leaf, key: U64, payload: seq<Byte>, lsn: U64)
    requires Sound(s) && Ready(s) && s.pins == multiset{} && s.capacity >= 3
    requires s.disk.nextFree + PAGE_SIZE < 0x1_0000_0000_0000_0000
    requires Content(s, p) == Some(LeafNode(l)) && Indexed(l) && (l.hasNext ==> Content(s, l.nextId).Some?)
    ensures var (s', r) := InsertLeaf(s, p, key, payload, lsn);
            && r == Report(l, p, s.disk.nextFree, key, payload)
            && (r != Err(Panic) ==> Ready(s'))
            && (r != Err(Deadlock) ==> s'.pins == multiset{})
  {
    hide PoolWF, Coherent, Fetch, Ready, Sits, Spare, SplitInsert, L.Insert, WellFormed, L.Fits, Content, Norm;
    hide NodeWell, Report;
    InsertGivesBack(s, p, key, payload, lsn);
    ShownIsKnown(s, p);
    SpareIfNothingHeld(s);
    FetchReady(s, p);
    FetchMoves(s, p);
    var s1 := Fetch(s, p).0;
    var c := FetchedLeaf(s, p, l);
    NormReports(c, p, s.disk.nextFree, key, payload);
    FetchKeepsSpace(s, p);
    HeldReports(s1, p, c, key, payload, lsn);
  }
}
