/** What an insert into a leaf does to the content of the pages. */
module TreeLaws {
  import opened Base
  import opened L = Leaves
  import opened LeafLaws
  import opened Nodes
  import opened Codec
  import Lru
  import opened Pools
  import opened PoolLaws
  import opened Trees

  /** From s to s' the pages of m got new content and all others kept theirs. */
  ghost predicate Moves(s: Pool, s': Pool, m: map<PageId, Node>) {
    forall p :: Content(s', p) == if p in m then Some(m[p]) else Content(s, p)
  }

  ghost predicate Sound(s: Pool) {
    PoolWF(s) && Coherent(s)
  }

  lemma MovesThen(s: Pool, s1: Pool, s2: Pool, m1: map<PageId, Node>, m2: map<PageId, Node>)
    requires Moves(s, s1, m1) && Moves(s1, s2, m2)
    ensures Moves(s, s2, m1 + m2)
  {
    hide Content;
  }

  /** Changing a page somebody holds. */
  lemma PutMoves(s: Pool, p: PageId, n: Node)
    requires Sound(s) && p in s.cache && s.pins[p] > 0 && NodeWell(n)
    ensures Sound(Put(s, p, n)) && Moves(s, Put(s, p, n), map[p := Norm(n)])
    ensures Put(s, p, n).pins == s.pins && Put(s, p, n).cache.Keys == s.cache.Keys
  {
    hide NodeWell, Decode, Norm, PoolWF;
    ReplacedWF(s, p, n);
    assert s.cache[p := n].Keys == s.cache.Keys;
  }

  /** A page that may be let go of: somebody else holds it, or it is dirty, or it is on disk. */
  ghost predicate Settled(s: Pool, p: PageId) {
    && p in s.cache
    && (s.pins[p] > 1 || IsDirty(s.cache[p]) || DiskContent(s.disk.pages, p) == Some(Norm(s.cache[p])))
  }

  lemma ReleaseMoves(s: Pool, p: PageId)
    requires Sound(s) && Settled(s, p)
    ensures Sound(Release(s, p)) && Moves(s, Release(s, p), map[])
  {
    hide NodeWell, Decode, Norm, IsDirty;
  }

  lemma FetchMoves(s: Pool, p: PageId)
    requires Sound(s)
    ensures Sound(Fetch(s, p).0) && Moves(s, Fetch(s, p).0, map[])
    ensures Fetch(s, p).1.Ok? ==>
              var s' := Fetch(s, p).0;
              && p in s'.cache && NodeWell(s'.cache[p]) && Content(s, p) == Some(Norm(s'.cache[p]))
              && s'.pins == s.pins + multiset{p}
    ensures forall q :: q in s.cache && s.pins[q] > 0 ==> q in Fetch(s, p).0.cache
  {
    hide Fetch, Decode, Norm, NodeWell;
    FetchKeepsWF(s, p);
    FetchContent(s, p);
  }

  /** A page somebody holds keeps its node through fetches and allocations of other pages. */
  lemma HeldStays(s: Pool, p: PageId, q: PageId, isLeaf: bool)
    requires PoolWF(s) && p in s.cache && s.pins[p] > 0
    ensures p in Fetch(s, q).0.cache && Fetch(s, q).0.cache[p] == s.cache[p]
    ensures p in New(s, isLeaf).0.cache && New(s, isLeaf).0.cache[p] == s.cache[p]
    ensures p in MakeRoom(s).0.cache && MakeRoom(s).0.cache[p] == s.cache[p]
  {
    hide NodeWell, Decode, Evict, Lru.Touch;
    EvictKeepsWF(s);
    HeldStaysOnEvict(s, p);
    if New(s, isLeaf).1.Ok? { NewKeepsWF(s, isLeaf); }
  }

  lemma HeldStaysOnEvict(s: Pool, p: PageId)
    requires PoolWF(s) && p in s.cache && s.pins[p] > 0
    ensures p in Evict(s).0.cache && Evict(s).0.cache[p] == s.cache[p]
  {
    hide NodeWell, Decode, Evict, Flush, Lru.Drop;
    EvictCases(s);
    var found := Lru.LastWhere(s.lru, Unpinned(s.pins));
    if found.Some? {
      var victim, s0 := s.lru[found.value], s.(lru := Lru.Drop(s.lru, found.value));
      WellStays(s0.cache[victim], 0);
      FlushCases(s0, victim);
    }
  }

  function NormLeaf(l: Leaf): Leaf {
    l.(freeSize := 0, dirty := false)
  }

  /** The content of a page that was written and marked dirty. */
  function Stamped(l: Leaf, lsn: U64): Node {
    LeafNode(NormLeaf(l.(lastLsn := lsn)))
  }

  lemma InsertKeepsHeader(l: Leaf, key: U64, payload: seq<Byte>)
    requires Indexed(l)
    ensures var l' := L.Insert(l, key, payload).leaf;
            l' == l.(slots := l'.slots, records := l'.records, freeSize := l'.freeSize)
  {
  }

  /** An insert that fits changes the one page only. */
  lemma InsertInPlace(s: Pool, p: PageId, key: U64, payload: seq<Byte>, lsn: U64) returns (l: Leaf)
    requires Sound(s) && InsertLeaf(s, p, key, payload, lsn).1 == Ok(None)
    ensures WellFormed(l) && Content(s, p) == Some(LeafNode(NormLeaf(l)))
    ensures L.Insert(l, key, payload).result.Ok?
    ensures Sound(InsertLeaf(s, p, key, payload, lsn).0)
    ensures Moves(s, InsertLeaf(s, p, key, payload, lsn).0, map[p := Stamped(L.Insert(l, key, payload).leaf, lsn)])
  {
    hide PoolWF, Coherent, Fetch, L.Insert, Content, SplitInsert, Release;
    var s1 := Fetch(s, p).0;
    FetchMoves(s, p);
    l := s1.cache[p].leaf;
    var d := L.Insert(l, key, payload);
    InsertRefinesMap(l, key, payload);
    WellStays(LeafNode(d.leaf), lsn);
    var n := MarkDirty(LeafNode(d.leaf), lsn);
    PutMoves(s1, p, n);
    ReleaseMoves(Put(s1, p, n), p);
    MovesThen(s, s1, Put(s1, p, n), map[], map[p := Norm(n)]);
    MovesThen(s, Put(s1, p, n), Release(Put(s1, p, n), p), map[] + map[p := Norm(n)], map[]);
    assert map[] + map[p := Norm(n)] + map[] == map[p := Norm(n)];
  }

  /** An insert the leaf rejects, other than for room, changes no content. */
  lemma RejectedInsert(s: Pool, p: PageId, key: U64, payload: seq<Byte>, lsn: U64)
    requires Sound(s) && Fetch(s, p).1.Ok? && Content(s, p).Some? && Content(s, p).value.LeafNode?
    requires var l := Content(s, p).value.leaf;
             WellFormed(l) && (|payload| > MAX_VALUE_SIZE || key in Live(l))
    ensures var (s', r) := InsertLeaf(s, p, key, payload, lsn);
            && Sound(s') && Moves(s, s', map[])
            && r == Err(if |payload| > MAX_VALUE_SIZE then TupleTooLarge(|payload|) else DuplicateKey(key))
  {
    hide PoolWF, Coherent, Fetch, L.Insert, Content, SplitInsert, Release, Ordered;
    FetchMoves(s, p);
    var l := Fetch(s, p).0.cache[p].leaf;
    SameLive(l);
    InsertRefinesMap(l, key, payload);
    ReleaseFetched(s, p);
    assert PutLeaf(Fetch(s, p).0, p, l) == Fetch(s, p).0;
  }

  lemma SameLive(l: Leaf)
    requires WellFormed(NormLeaf(l))
    ensures WellFormed(l) && Live(NormLeaf(l)) == Live(l)
  {
    assert Ordered(NormLeaf(l)) == Ordered(l);
  }

  /** The page whose back link a split rewires. */
  function BackLink(s: Pool, next: PageId, q: PageId, lsn: U64): map<PageId, Node> {
    match Content(s, next)
    case Some(LeafNode(o)) => map[next := Stamped(o.(hasPrev := true, prevId := q), lsn)]
    case _ => map[]
  }

  lemma LinkMoves(s: Pool, next: PageId, p: PageId, q: PageId, lsn: U64)
    requires Sound(s) && LinkBack(s, next, p, q, lsn).1.Ok?
    requires p in s.cache && q in s.cache && s.pins[p] > 0 && s.pins[q] > 0
    ensures next != p && next != q
    ensures var s' := LinkBack(s, next, p, q, lsn).0;
            && Sound(s') && Moves(s, s', BackLink(s, next, q, lsn)) && s'.pins == s.pins
            && p in s'.cache && q in s'.cache && s'.cache[p] == s.cache[p] && s'.cache[q] == s.cache[q]
  {
    hide PoolWF, Fetch, Decode, NodeWell;
    var s1 := Fetch(s, next).0;
    FetchMoves(s, next);
    HeldStays(s, p, next, true);
    HeldStays(s, q, next, true);
    assert s1.pins - multiset{next} == s.pins;
    match s1.cache[next]
    case LeafNode(o) =>
      var n := MarkDirty(LeafNode(o.(hasPrev := true, prevId := q)), lsn);
      RelinkedWell(o, q, lsn);
      PutMoves(s1, next, n);
      ReleaseMoves(Put(s1, next, n), next);
    case InnerNode(_) =>
      ReleaseFetched(s, next);
  }

  lemma RelinkedWell(o: Leaf, q: PageId, lsn: U64)
    requires NodeWell(LeafNode(o))
    ensures NodeWell(MarkDirty(LeafNode(o.(hasPrev := true, prevId := q)), lsn))
  {
    assert Ordered(o.(hasPrev := true, prevId := q, lastLsn := lsn, dirty := true)) == Ordered(o);
  }

  lemma FetchedIsSettled(s: Pool, p: PageId)
    requires Sound(s) && Fetch(s, p).1.Ok?
    ensures Settled(Fetch(s, p).0, p)
  {
    hide NodeWell, Decode, Norm, IsDirty, Lru.Touch, MakeRoom, PoolWF;
    FetchMoves(s, p);
  }

  /** Fetching a page and letting go of it again. */
  lemma ReleaseFetched(s: Pool, p: PageId)
    requires Sound(s) && Fetch(s, p).1.Ok?
    ensures Sound(Release(Fetch(s, p).0, p)) && Moves(s, Release(Fetch(s, p).0, p), map[])
  {
    hide PoolWF, Coherent, Fetch, Content, Settled;
    FetchMoves(s, p);
    FetchedIsSettled(s, p);
    ReleaseMoves(Fetch(s, p).0, p);
  }

  lemma SplitKeepsHeaders(l: Leaf, q: PageId, key: U64, payload: seq<Byte>)
    requires WellFormed(l)
    ensures var t := SplitAndRetry(l, q, key, payload);
            && t.left == l.(slots := t.left.slots, records := t.left.records, freeSize := t.left.freeSize)
            && t.right == EmptyLeaf(q).(slots := t.right.slots,
                                        records := t.right.records, freeSize := t.right.freeSize)
  {
    SplitWell(l, EmptyLeaf(q));
    var h := L.Split(l, EmptyLeaf(q));
    HalvesKeepHeaders(l, q);
    InsertKeepsHeader(h.left, key, payload);
    InsertKeepsHeader(h.right, key, payload);
    hide L.Split, L.Insert, WellFormed;
  }

  lemma HalvesKeepHeaders(l: Leaf, q: PageId)
    requires WellFormed(l)
    ensures |l.slots| <= 0x1_0000
    ensures var h := L.Split(l, EmptyLeaf(q));
            && h.left == l.(slots := h.left.slots, records := h.left.records, freeSize := h.left.freeSize)
            && h.right == EmptyLeaf(q).(slots := h.right.slots,
                                        records := h.right.records, freeSize := h.right.freeSize)
  {
    hide Ordered, LiveOnly;
  }

  /** The pages a split writes, with their new content. */
  function SplitPages(s: Pool, p: PageId, q: PageId, t: Retried, lsn: U64): map<PageId, Node> {
    (if t.left.hasNext then BackLink(s, t.left.nextId, q, lsn) else map[])
    + map[p := Stamped(LinkedLeft(t.left, q), lsn), q := Stamped(LinkedRight(t.right, p, t.left), lsn)]
  }

  lemma LinkedWell(l: Leaf, q: PageId, r: Leaf, p: PageId, lsn: U64)
    requires WellFormed(l) && WellFormed(r)
    ensures NodeWell(LeafNode(LinkedLeft(l, q))) && NodeWell(LeafNode(LinkedRight(r, p, l)))
  {
    assert Ordered(LinkedLeft(l, q)) == Ordered(l);
    assert Ordered(LinkedRight(r, p, l)) == Ordered(r);
  }

  /** The first half of a splitting insert: the new page and both halves. */
  lemma HalvesMove(s1: Pool, p: PageId, l: Leaf, key: U64, payload: seq<Byte>, q: PageId, left: Leaf, right: Leaf)
    requires Sound(s1) && p in s1.cache && s1.pins[p] > 0 && New(s1, true).1 == Ok(q)
    requires NodeWell(LeafNode(left)) && NodeWell(LeafNode(right))
    ensures p != q && Content(s1, q) == None
    ensures var s2 := New(s1, true).0;
            var s3 := PutLeaf(PutLeaf(s2, p, left), q, right);
            && p in s2.cache && q in s2.cache && s2.pins == s1.pins + multiset{q}
            && Sound(s3) && s3.pins == s1.pins + multiset{q} && p in s3.cache && q in s3.cache
            && Moves(s1, s3, map[p := Norm(LeafNode(left)), q := Norm(LeafNode(right))])
  {
    hide PoolWF, Coherent, New, Content, NodeWell, Norm;
    var s2 := New(s1, true).0;
    NewKeepsWF(s1, true);
    NewContent(s1, true);
    HeldStays(s1, p, p, true);
    assert p in s1.cache && q !in s1.cache;
    PutMoves(s2, p, LeafNode(left));
    PutMoves(PutLeaf(s2, p, left), q, LeafNode(right));
  }

  /** The second half: both pages marked dirty and let go of. */
  lemma MarkedMove(s: Pool, p: PageId, q: PageId, left: Leaf, right: Leaf, lsn: U64)
    requires Sound(s) && p != q && p in s.cache && q in s.cache && s.pins[p] > 0 && s.pins[q] > 0
    requires s.cache[p] == LeafNode(left) && s.cache[q] == LeafNode(right)
    ensures var s' := Release(Release(Touched(Touched(s, p, lsn), q, lsn), q), p);
            Sound(s') && Moves(s, s', map[p := Stamped(left, lsn), q := Stamped(right, lsn)])
  {
    CachedNodeWell(s, p);
    CachedNodeWell(s, q);
    WellStays(LeafNode(left), lsn);
    WellStays(LeafNode(right), lsn);
    hide PoolWF, Coherent, Content, NodeWell, Norm;
    var s1, s2 := Touched(s, p, lsn), Touched(Touched(s, p, lsn), q, lsn);
    PutMoves(s, p, MarkDirty(LeafNode(left), lsn));
    PutMoves(s1, q, MarkDirty(LeafNode(right), lsn));
    ReleaseMoves(s2, q);
    ReleaseMoves(Release(s2, q), p);
    assert Norm(MarkDirty(LeafNode(left), lsn)) == Stamped(left, lsn) by { StampedNorm(left, lsn); }
    assert Norm(MarkDirty(LeafNode(right), lsn)) == Stamped(right, lsn) by { StampedNorm(right, lsn); }
  }

  lemma StampedNorm(l: Leaf, lsn: U64)
    ensures Norm(MarkDirty(LeafNode(l), lsn)) == Stamped(l, lsn)
  {
  }

  /** A splitting insert that succeeds changes the content of exactly the leaf, the new page and the
      old right sibling. */
  lemma SplitMoves(s1: Pool, p: PageId, l: Leaf, key: U64, payload: seq<Byte>, lsn: U64)
    requires Sound(s1) && p in s1.cache && s1.pins[p] > 0 && WellFormed(l)
    requires SplitInsert(s1, p, l, key, payload, lsn).1.Ok?
    ensures var (s', r) := SplitInsert(s1, p, l, key, payload, lsn);
            var q := r.value.value.newPage;
            var t := SplitAndRetry(l, q, key, payload);
            && t.result == Ok(r.value.value.promoted)
            && p != q && Content(s1, q) == None
            && (t.left.hasNext ==> t.left.nextId != p && t.left.nextId != q)
            && Sound(s') && Moves(s1, s', SplitPages(s1, p, q, t, lsn))
  {
    hide PoolWF, Coherent, New, Content, NodeWell, Norm, SplitAndRetry, LinkBack, Touched, WellFormed;
    var q := New(s1, true).1.value;
    var t := SplitAndRetry(l, q, key, payload);
    var left, right := LinkedLeft(t.left, q), LinkedRight(t.right, p, t.left);
    LinkedWell(t.left, q, t.right, p, lsn);
    HalvesMove(s1, p, l, key, payload, q, left, right);
    var s2 := New(s1, true).0;
    var s3 := PutLeaf(PutLeaf(s2, p, left), q, right);
    var s4 := s3;
    if t.left.hasNext {
      LinkMoves(s3, t.left.nextId, p, q, lsn);
      s4 := LinkBack(s3, t.left.nextId, p, q, lsn).0;
    }
    MarkedMove(s4, p, q, left, right, lsn);
  }
}
