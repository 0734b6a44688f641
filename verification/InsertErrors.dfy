/** Inserts that fail: those rejected before the leaf is split change nothing, the others do. */
module InsertErrors {
  import opened Base
  import opened L = Leaves
  import opened LeafLaws
  import opened Nodes
  import opened Codec
  import Lru
  import opened Pools
  import opened PoolLaws
  import opened Trees
  import opened TreeLaws

  /** The leaf an insert is given, once it is fetched. */
  function Fetched(s: Pool, p: PageId): Option<Leaf>
    requires PoolWF(s)
  {
    var (s1, r) := Fetch(s, p);
    if r.Ok? && p in s1.cache && s1.cache[p].LeafNode? then Some(s1.cache[p].leaf) else None
  }

  lemma FetchedWell(s: Pool, p: PageId)
    requires PoolWF(s)
    ensures Fetched(s, p).Some? ==> WellFormed(Fetched(s, p).value)
  {
    hide PoolWF, Fetch, WellFormed;
    FetchKeepsWF(s, p);
    if Fetched(s, p).Some? { CachedNodeWell(Fetch(s, p).0, p); }
  }

  /** Reviving a tombstone with more bytes than the page has panics. */
  predicate Panics(s: Pool, p: PageId, key: U64, payload: seq<Byte>)
    requires PoolWF(s)
  {
    FetchedWell(s, p);
    Fetched(s, p).Some? && L.Insert(Fetched(s, p).value, key, payload).result == Err(Panic)
  }

  /** The leaf is full, and a new page for its upper half was allocated. */
  predicate SplitBegins(s: Pool, p: PageId, key: U64, payload: seq<Byte>)
    requires PoolWF(s)
  {
    FetchKeepsWF(s, p);
    FetchedWell(s, p);
    && Fetched(s, p).Some? && L.Insert(Fetched(s, p).value, key, payload).result == Err(PageFull)
    && New(Fetch(s, p).0, true).1.Ok?
  }

  // ----- before the split -----

  /** Eviction keeps the image of a page somebody holds. */
  lemma EvictKeepsImage(s: Pool, p: PageId)
    requires PoolWF(s) && p in s.cache && s.pins[p] > 0
    ensures DiskContent(Evict(s).0.disk.pages, p) == DiskContent(s.disk.pages, p)
    ensures DiskContent(MakeRoom(s).0.disk.pages, p) == DiskContent(s.disk.pages, p)
  {
    hide PoolWF, Decode, Norm, Evict, Flush, Lru.Drop, NodeIndexed, NodeFits;
    EvictCases(s);
    var found := Lru.LastWhere(s.lru, Unpinned(s.pins));
    if found.Some? {
      var victim, s0 := s.lru[found.value], s.(lru := Lru.Drop(s.lru, found.value));
      CachedIndexed(s0);
      FlushCases(s0, victim);
    }
  }

  lemma NewKeepsSettled(s: Pool, p: PageId)
    requires Sound(s) && Settled(s, p) && s.pins[p] > 0 && New(s, true).1.Err?
    ensures Settled(New(s, true).0, p) && Sound(New(s, true).0) && Moves(s, New(s, true).0, map[])
  {
    hide PoolWF, Decode, Norm, Evict, IsDirty;
    NewKeepsWF(s, true);
    NewContent(s, true);
    HeldStays(s, p, p, true);
    EvictKeepsImage(s, p);
    hide Content, Coherent;
  }

  lemma NewFails(s1: Pool, p: PageId)
    requires Sound(s1) && Settled(s1, p) && s1.pins[p] > 0 && New(s1, true).1.Err?
    ensures var s' := Release(New(s1, true).0, p); Sound(s') && Moves(s1, s', map[])
  {
    hide PoolWF, Coherent, New, Content, Settled;
    NewKeepsSettled(s1, p);
    ReleaseMoves(New(s1, true).0, p);
  }

  /** An insert that fails before the split leaves all content alone. */
  lemma RejectedChangesNothing(s: Pool, p: PageId, key: U64, payload: seq<Byte>, lsn: U64)
    requires Sound(s) && InsertLeaf(s, p, key, payload, lsn).1.Err?
    requires !Panics(s, p, key, payload) && !SplitBegins(s, p, key, payload)
    ensures Sound(InsertLeaf(s, p, key, payload, lsn).0) && Moves(s, InsertLeaf(s, p, key, payload, lsn).0, map[])
  {
    hide PoolWF, Coherent, Fetch, New, L.Insert, Content, SplitInto, Release, NodeWell, Ordered;
    FetchMoves(s, p);
    FetchKeepsWF(s, p);
    if Fetch(s, p).1.Ok? {
      var s1 := Fetch(s, p).0;
      ReleaseFetched(s, p);
      if s1.cache[p].LeafNode? {
        var l := s1.cache[p].leaf;
        FetchedWell(s, p);
        InsertRefinesMap(l, key, payload);
        assert PutLeaf(s1, p, l) == s1;
        if L.Insert(l, key, payload).result == Err(PageFull) {
          FetchedIsSettled(s, p);
          NewFails(s1, p);
        }
      }
    }
  }

  // ----- after the split -----

  /** The old leaf as a split that fails leaves it: halved, and linked to the new page if the second
      insert went through. */
  function Halved(t: Retried, q: PageId): Leaf {
    if t.result.Err? then t.left else LinkedLeft(t.left, q)
  }

  function UpperHalf(t: Retried, p: PageId): Leaf {
    if t.result.Err? then t.right else LinkedRight(t.right, p, t.left)
  }

  lemma HalvedWell(t: Retried, p: PageId, q: PageId)
    requires WellFormed(t.left) && WellFormed(t.right)
    ensures NodeWell(LeafNode(Halved(t, q))) && NodeWell(LeafNode(UpperHalf(t, p)))
  {
    LinkedWell(t.left, q, t.right, p, 0);
    assert NodeWell(LeafNode(t.left)) && NodeWell(LeafNode(t.right));
  }

  /** The old right sibling could not be fetched, or is a page the insert itself holds. */
  lemma FailedLink(s3: Pool, was: Leaf, p: PageId, q: PageId, lsn: U64)
    requires Sound(s3) && LinkIfAny(s3, was, p, q, lsn).1.Err?
    requires p in s3.cache && s3.pins[p] > 0 && q in s3.cache && s3.pins[q] > 0
    ensures SameContent(s3, LinkIfAny(s3, was, p, q, lsn).0)
    ensures p in LinkIfAny(s3, was, p, q, lsn).0.cache && q in LinkIfAny(s3, was, p, q, lsn).0.cache
    ensures LinkIfAny(s3, was, p, q, lsn).0.cache[p] == s3.cache[p]
    ensures LinkIfAny(s3, was, p, q, lsn).0.cache[q] == s3.cache[q]
  {
    hide PoolWF, Coherent, Fetch, Content, Relinked;
    FetchContent(s3, was.nextId);
    HeldStays(s3, p, was.nextId, true);
    HeldStays(s3, q, was.nextId, true);
  }

  /** From the allocation on, a failing insert has put the halves in place of the leaf. */
  lemma FailedSplit(s1: Pool, p: PageId, l: Leaf, key: U64, payload: seq<Byte>, lsn: U64, q: PageId)
    requires Sound(s1) && p in s1.cache && s1.pins[p] > 0 && WellFormed(l)
    requires New(s1, true).1 == Ok(q) && SplitInsert(s1, p, l, key, payload, lsn).1.Err?
    ensures var s' := SplitInsert(s1, p, l, key, payload, lsn).0;
            var t := SplitAndRetry(l, q, key, payload);
            && p != q && Content(s1, q) == None
            && p in s'.cache && s'.cache[p] == LeafNode(Halved(t, q))
            && q in s'.cache && s'.cache[q] == LeafNode(UpperHalf(t, p))
            && (forall x :: x != p && x != q ==> Content(s', x) == Content(s1, x))
  {
    hide PoolWF, Coherent, New, Content, NodeWell, Norm, SplitAndRetry, LinkIfAny, Touched, WellFormed;
    NewStaysWell(s1);
    var t := SplitAndRetry(l, q, key, payload);
    var left, right := Halved(t, q), UpperHalf(t, p);
    HalvedWell(t, p, q);
    hide Halved, UpperHalf;
    HalvesMove(s1, p, l, key, payload, q, left, right);
    var s2 := New(s1, true).0;
    var s3 := PutLeaf(PutLeaf(s2, p, left), q, right);
    if t.result.Err? {
      assert left == t.left && right == t.right by { HalvedOnError(t, p, q); }
      ReleaseShows(s3, q);
      ReleaseShows(Release(s3, q), p);
    } else {
      assert left == LinkedLeft(t.left, q) && right == LinkedRight(t.right, p, t.left) by { HalvedOnSuccess(t, p, q); }
      FailedLink(s3, t.left, p, q, lsn);
      var s4 := LinkIfAny(s3, t.left, p, q, lsn).0;
      ReleaseShows(s4, q);
      ReleaseShows(Release(s4, q), p);
    }
  }

  lemma NewStaysWell(s: Pool)
    requires PoolWF(s)
    ensures PoolWF(New(s, true).0)
  {
    hide PoolWF, New;
    NewKeepsWF(s, true);
  }

  lemma HalvedOnError(t: Retried, p: PageId, q: PageId)
    requires t.result.Err?
    ensures Halved(t, q) == t.left && UpperHalf(t, p) == t.right
  {
  }

  lemma HalvedOnSuccess(t: Retried, p: PageId, q: PageId)
    requires t.result.Ok?
    ensures Halved(t, q) == LinkedLeft(t.left, q) && UpperHalf(t, p) == LinkedRight(t.right, p, t.left)
  {
  }

  /** Short of a panic, an insert that returns an error changes no content exactly when the leaf was
      not yet being split. */
  lemma FailedInsert(s: Pool, p: PageId, key: U64, payload: seq<Byte>, lsn: U64)
    requires Sound(s) && InsertLeaf(s, p, key, payload, lsn).1.Err? && !Panics(s, p, key, payload)
    ensures SameContent(s, InsertLeaf(s, p, key, payload, lsn).0) <==> !SplitBegins(s, p, key, payload)
  {
    hide PoolWF, Coherent, Fetch, New, L.Insert, Content, InsertLeaf, WellFormed, SplitAndRetry, SplitInsert;
    if SplitBegins(s, p, key, payload) {
      BegunInsert(s, p, key, payload, lsn);
      var s1 := Fetch(s, p).0;
      HalfDone(s, p, key, payload, lsn, s1, s1.cache[p].leaf, New(s1, true).1.value);
    } else {
      RejectedChangesNothing(s, p, key, payload, lsn);
    }
  }

  /** From the allocation of the new page on a failing insert leaves the old leaf halved, without the
      change being marked in its dirty flag, and the new page with the rest behind. */
  lemma HalfDone(s: Pool, p: PageId, key: U64, payload: seq<Byte>, lsn: U64, s1: Pool, l: Leaf, q: PageId)
    requires Sound(s) && InsertLeaf(s, p, key, payload, lsn).1.Err? && SplitBegins(s, p, key, payload)
    requires s1 == Fetch(s, p).0 && PoolWF(s1) && Fetched(s, p) == Some(l) && WellFormed(l) && New(s1, true).1 == Ok(q)
    ensures var s', t := InsertLeaf(s, p, key, payload, lsn).0, SplitAndRetry(l, q, key, payload);
            && p in s'.cache && s'.cache[p] == LeafNode(Halved(t, q)) && Halved(t, q).dirty == l.dirty
            && q in s'.cache && s'.cache[q] == LeafNode(UpperHalf(t, p)) && !UpperHalf(t, p).dirty
            && (forall x :: x != p && x != q ==> Content(s', x) == Content(s, x))
            && !SameContent(s, s')
  {
    hide PoolWF, Coherent, Fetch, New, L.Insert, Content, WellFormed, SplitInsert, SplitAndRetry, Halved, UpperHalf;
    FetchMoves(s, p);
    BegunInsert(s, p, key, payload, lsn);
    hide InsertLeaf, Moves, SplitBegins;
    FailedSplit(s1, p, l, key, payload, lsn, q);
    HalvedHeaders(l, q, key, payload, p);
    SplitChanges(s, s1, SplitInsert(s1, p, l, key, payload, lsn).0, p, q);
  }

  lemma BegunInsert(s: Pool, p: PageId, key: U64, payload: seq<Byte>, lsn: U64)
    requires PoolWF(s) && SplitBegins(s, p, key, payload)
    ensures var s1 := Fetch(s, p).0;
            && PoolWF(s1) && p in s1.cache && s1.cache[p].LeafNode? && s1.pins[p] > 0 && WellFormed(s1.cache[p].leaf)
            && s1.cache[p].leaf == Fetched(s, p).value
            && InsertLeaf(s, p, key, payload, lsn) == SplitInsert(s1, p, s1.cache[p].leaf, key, payload, lsn)
  {
    hide PoolWF, Fetch, New, L.Insert, WellFormed, NodeWell, SplitInsert;
    FetchKeepsWF(s, p);
    FetchedWell(s, p);
  }

  lemma HalvedHeaders(l: Leaf, q: PageId, key: U64, payload: seq<Byte>, p: PageId)
    requires WellFormed(l)
    ensures var t := SplitAndRetry(l, q, key, payload);
            Halved(t, q).dirty == l.dirty && !UpperHalf(t, p).dirty
  {
    hide WellFormed, SplitAndRetry;
    SplitKeepsHeaders(l, q, key, payload);
  }

  lemma SplitChanges(s: Pool, s1: Pool, s': Pool, p: PageId, q: PageId)
    requires Moves(s, s1, map[]) && Content(s1, q) == None && q in s'.cache
    requires forall x :: x != p && x != q ==> Content(s', x) == Content(s1, x)
    ensures !SameContent(s, s') && forall x :: x != p && x != q ==> Content(s', x) == Content(s, x)
  {
    CachedShows(s', q);
    hide Content;
    assert Content(s, q) == None;
  }

  lemma CachedShows(s: Pool, p: PageId)
    requires p in s.cache
    ensures Content(s, p) == Some(Norm(s.cache[p]))
  {
  }
}
