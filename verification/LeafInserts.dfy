/** Inserting into the leaf level: the chain stays one sorted map, with exactly the new key added. */
module LeafInserts {
  import opened Base
  import opened L = Leaves
  import opened LeafLaws
  import opened Nodes
  import Lru
  import opened Pools
  import opened PoolLaws
  import opened PoolRuns
  import opened Trees
  import opened TreeLaws
  import opened Chains

  // ----- rewriting one leaf of the chain -----

  /** From m to m' leaf p got other records, nothing else changed along the chain. */
  ghost predicate Rewritten(m: map<PageId, Node>, m': map<PageId, Node>, ids: seq<PageId>, i: nat)
    requires AllLeaves(m, ids) && i < |ids|
  {
    && LeafAt(m', ids[i])
    && m'[ids[i]].leaf.hasPrev == m[ids[i]].leaf.hasPrev && m'[ids[i]].leaf.prevId == m[ids[i]].leaf.prevId
    && m'[ids[i]].leaf.hasNext == m[ids[i]].leaf.hasNext && m'[ids[i]].leaf.nextId == m[ids[i]].leaf.nextId
    && forall j :: 0 <= j < |ids| && j != i ==> ids[j] in m' && m'[ids[j]] == m[ids[j]]
  }

  lemma RewrittenLinks(m: map<PageId, Node>, m': map<PageId, Node>, ids: seq<PageId>, i: nat)
    requires Chain(m, ids) && i < |ids| && Rewritten(m, m', ids, i)
    ensures AllLeaves(m', ids) && AllJoined(m', ids)
    ensures !m'[ids[0]].leaf.hasPrev && !m'[ids[|ids| - 1]].leaf.hasNext
  {
    hide Ordered, WellFormed, Along, Ascending;
    forall j | 0 <= j < |ids| ensures LeafAt(m', ids[j]) { assert LeafAt(m, ids[j]); }
    forall a, b | 0 <= a < b < |ids| && b == a + 1 ensures Joined(m'[ids[a]].leaf, ids[a], m'[ids[b]].leaf, ids[b]) {
      assert Joined(m[ids[a]].leaf, ids[a], m[ids[b]].leaf, ids[b]);
    }
  }

  lemma RewrittenAlong(m: map<PageId, Node>, m': map<PageId, Node>, ids: seq<PageId>, i: nat)
    requires Chain(m, ids) && i < |ids| && Rewritten(m, m', ids, i)
    ensures AllLeaves(m', ids) && AllLeaves(m, ids[..i]) && AllLeaves(m, ids[i + 1..])
    ensures Along(m', ids) == Along(m, ids[..i]) + Ordered(m'[ids[i]].leaf) + Along(m, ids[i + 1..])
  {
    hide Ordered, Along, Ascending;
    RewrittenLinks(m, m', ids, i);
    AlongSlice(m, m', ids, 0, i);
    AlongSlice(m, m', ids, i + 1, |ids|);
    assert ids[0..i] == ids[..i] && ids[i + 1..|ids|] == ids[i + 1..];
    AlongAround(m', ids, i);
  }

  /** Records that are new to a stretch of a sorted list all hold key k. */
  lemma MiddleReplaced(pre: seq<Record>, rs: seq<Record>, post: seq<Record>, x: seq<Record>, k: U64)
    requires Ascending(pre + rs + post) && Ascending(x) && Below(pre, k) && Above(post, k)
    requires forall r :: r in x ==> r.rowId == k || r in rs
    ensures Ascending(pre + x + post)
  {
    PartsAscend(pre, rs, post);
    Assemble(pre, x, post);
  }

  lemma MiddleMeans(pre: seq<Record>, rs: seq<Record>, post: seq<Record>, x: seq<Record>, k: U64, data: seq<Byte>)
    requires Below(pre, k) && Above(post, k) && k !in LiveMap(rs) && LiveMap(x) == LiveMap(rs)[k := data]
    ensures k !in LiveMap(pre + rs + post)
    ensures LiveMap(pre + x + post) == LiveMap(pre + rs + post)[k := data]
  {
    NoKey(pre, k);
    NoKey(post, k);
    LiveMapConcat(pre + rs, post);
    LiveMapConcat(pre, rs);
    LiveMapConcat(pre + x, post);
    LiveMapConcat(pre, x);
    hide LiveMap;
    AddBetween(LiveMap(pre), LiveMap(rs), LiveMap(post), k, data);
  }

  lemma AddBetween(a: map<U64, seq<Byte>>, b: map<U64, seq<Byte>>, c: map<U64, seq<Byte>>, k: U64, data: seq<Byte>)
    requires k !in c
    ensures (a + b[k := data]) + c == ((a + b) + c)[k := data]
  {
  }

  lemma InsertedMembers(l: Leaf, k: U64, payload: seq<Byte>)
    requires WellFormed(l) && L.Insert(l, k, payload).result.Ok?
    ensures WellFormed(L.Insert(l, k, payload).leaf)
    ensures forall r :: r in Ordered(L.Insert(l, k, payload).leaf) ==> r.rowId == k || r in Ordered(l)
  {
    hide Compact, LiveOnly;
    var rs, i, r := Ordered(l), LowerBound(Ordered(l), k), Record(k, payload, false);
    InsertRefinesMap(l, k, payload);
    LookupWell(l, k);
    if Holds(rs, k) {
      ReplacedShape(l, k, r);
      CompactLaw(l.(records := l.records[l.slots[i] := r]));
      LiveOnlyMembers(rs[..i] + [r] + rs[i + 1..]);
      MembersAround(rs, i, i + 1, r);
    } else {
      InsertFresh(l, k, payload);
      MembersAround(rs, i, i, r);
    }
  }

  lemma LookupWell(l: Leaf, k: U64)
    requires WellFormed(l)
    ensures Indexed(l)
    ensures k in L.Live(l) <==> Holds(Ordered(l), k) && !Ordered(l)[LowerBound(Ordered(l), k)].deleted
  {
    L.Lookup(Ordered(l), k);
  }

  lemma MembersAround(rs: seq<Record>, i: nat, j: nat, r: Record)
    requires i <= |rs| && j <= |rs|
    ensures forall x :: x in rs[..i] + [r] + rs[j..] ==> x == r || x in rs
  {
  }

  /** A leaf that got a key of its range leaves the chain sorted. */
  lemma RewrittenChain(m: map<PageId, Node>, m': map<PageId, Node>, ids: seq<PageId>, i: nat, l: Leaf, k: U64,
                       payload: seq<Byte>)
    requires Chain(m, ids) && i < |ids| && Rewritten(m, m', ids, i) && InRange(m, ids, i, k)
    requires WellFormed(l) && L.Insert(l, k, payload).result.Ok? && Indexed(L.Insert(l, k, payload).leaf)
    requires Ordered(m[ids[i]].leaf) == Ordered(l)
    requires Ordered(m'[ids[i]].leaf) == Ordered(L.Insert(l, k, payload).leaf)
    ensures Chain(m', ids)
    ensures k !in LiveMap(Along(m, ids)) && LiveMap(Along(m', ids)) == LiveMap(Along(m, ids))[k := payload]
  {
    hide Ordered, Along, Ascending, Lru.Distinct, LiveMap;
    InsertRefinesMap(l, k, payload);
    InsertedMembers(l, k, payload);
    InsertedAscending(l, k, payload);
    hide L.Insert;
    RewrittenLinks(m, m', ids, i);
    RewrittenAlong(m, m', ids, i);
    AlongAround(m, ids, i);
    var pre, post, x := Along(m, ids[..i]), Along(m, ids[i + 1..]), Ordered(m'[ids[i]].leaf);
    MiddleReplaced(pre, Ordered(l), post, x, k);
    MiddleMeans(pre, Ordered(l), post, x, k, payload);
  }

  lemma InsertedAscending(l: Leaf, k: U64, payload: seq<Byte>)
    requires WellFormed(l)
    ensures Indexed(L.Insert(l, k, payload).leaf) && Ascending(Ordered(L.Insert(l, k, payload).leaf))
  {
    InsertRefinesMap(l, k, payload);
  }

  // ----- from pages to the chain -----

  lemma MovedShows(s: Pool, s': Pool, m: map<PageId, Node>, c: map<PageId, Node>)
    requires Shows(s, m) && Moves(s, s', c)
    ensures Shows(s', m + c)
  {
    hide Content;
  }

  lemma NormReads(l: Leaf, lsn: U64)
    requires WellFormed(l)
    ensures WellFormed(NormLeaf(l)) && Ordered(NormLeaf(l)) == Ordered(l)
    ensures WellFormed(Stamped(l, lsn).leaf) && Ordered(Stamped(l, lsn).leaf) == Ordered(l)
  {
    assert Ordered(NormLeaf(l)) == Ordered(l);
    assert Ordered(Stamped(l, lsn).leaf) == Ordered(l);
  }

  /** An insert that fits keeps the chain. */
  lemma InPlaceKeepsChain(s: Pool, m: map<PageId, Node>, ids: seq<PageId>, i: nat, key: U64, payload: seq<Byte>,
                          lsn: U64)
    returns (m': map<PageId, Node>)
    requires Sound(s) && Shows(s, m) && Chain(m, ids) && i < |ids| && InRange(m, ids, i, key)
    requires InsertLeaf(s, ids[i], key, payload, lsn).1 == Ok(None)
    ensures Sound(InsertLeaf(s, ids[i], key, payload, lsn).0) && Shows(InsertLeaf(s, ids[i], key, payload, lsn).0, m')
    ensures Chain(m', ids) && m'.Keys == m.Keys && forall p :: p in m && p != ids[i] ==> m'[p] == m[p]
    ensures key !in LiveMap(Along(m, ids)) && LiveMap(Along(m', ids)) == LiveMap(Along(m, ids))[key := payload]
  {
    hide PoolWF, Coherent, Content, InsertLeaf, Ordered, Along, Ascending, Lru.Distinct, L.Insert, InRange, Moves;
    var p := ids[i];
    var s' := InsertLeaf(s, p, key, payload, lsn).0;
    var l := InsertInPlace(s, p, key, payload, lsn);
    var n := Stamped(L.Insert(l, key, payload).leaf, lsn);
    m' := m[p := n];
    assert LeafAt(m, p) && m[p] == LeafNode(NormLeaf(l));
    MovedShows(s, s', m, map[p := n]);
    assert m + map[p := n] == m';
    NormReads(l, lsn);
    InsertRefinesMap(l, key, payload);
    NormReads(L.Insert(l, key, payload).leaf, lsn);
    InsertKeepsHeader(l, key, payload);
    RewrittenOne(m, m', ids, i);
    RewrittenChain(m, m', ids, i, l, key, payload);
  }

  lemma RewrittenOne(m: map<PageId, Node>, m': map<PageId, Node>, ids: seq<PageId>, i: nat)
    requires Chain(m, ids) && i < |ids| && LeafAt(m', ids[i]) && LeafAt(m, ids[i]) && m' == m[ids[i] := m'[ids[i]]]
    requires m'[ids[i]].leaf.hasPrev == m[ids[i]].leaf.hasPrev && m'[ids[i]].leaf.prevId == m[ids[i]].leaf.prevId
    requires m'[ids[i]].leaf.hasNext == m[ids[i]].leaf.hasNext && m'[ids[i]].leaf.nextId == m[ids[i]].leaf.nextId
    ensures Rewritten(m, m', ids, i)
  {
    hide Ordered, WellFormed, Along, Ascending;
    forall j | 0 <= j < |ids| && j != i ensures ids[j] in m' && m'[ids[j]] == m[ids[j]] {
      assert LeafAt(m, ids[j]);
    }
  }

  /** The map after a splitting insert. */
  function SplitMap(m: map<PageId, Node>, p: PageId, q: PageId, t: Retried, lsn: U64): map<PageId, Node> {
    var next := t.left.nextId;
    var linked := if t.left.hasNext && next in m && m[next].LeafNode?
                  then m[next := Stamped(m[next].leaf.(hasPrev := true, prevId := q), lsn)] else m;
    linked[p := Stamped(LinkedLeft(t.left, q), lsn)][q := Stamped(LinkedRight(t.right, p, t.left), lsn)]
  }

  lemma SplitMapShows(s: Pool, s': Pool, m: map<PageId, Node>, p: PageId, q: PageId, t: Retried, lsn: U64)
    requires Shows(s, m) && Moves(s, s', SplitPages(s, p, q, t, lsn))
    requires p != q && (t.left.hasNext ==> t.left.nextId != p && t.left.nextId != q)
    ensures Shows(s', SplitMap(m, p, q, t, lsn))
  {
    hide Content;
    assert t.left.hasNext ==> Content(s, t.left.nextId) == if t.left.nextId in m then Some(m[t.left.nextId]) else None;
    MovedShows(s, s', m, SplitPages(s, p, q, t, lsn));
    assert m + SplitPages(s, p, q, t, lsn) == SplitMap(m, p, q, t, lsn);
  }

  lemma SplitSplices(m: map<PageId, Node>, l: Leaf, p: PageId, q: PageId, t: Retried, lsn: U64)
    requires LeafAt(m, p) && m[p] == LeafNode(NormLeaf(l)) && p != q
    requires WellFormed(t.left) && WellFormed(t.right)
    requires t.left == l.(slots := t.left.slots, records := t.left.records, freeSize := t.left.freeSize)
    requires t.left.hasNext ==> t.left.nextId != p && t.left.nextId != q
    ensures Spliced(m, SplitMap(m, p, q, t, lsn), p, q)
    ensures Ordered(SplitMap(m, p, q, t, lsn)[p].leaf) == Ordered(t.left)
    ensures Ordered(SplitMap(m, p, q, t, lsn)[q].leaf) == Ordered(t.right)
  {
    StampedReads(LinkedLeft(t.left, q), t.left, lsn);
    StampedReads(LinkedRight(t.right, p, t.left), t.right, lsn);
    if t.left.hasNext && LeafAt(m, t.left.nextId) {
      StampedReads(m[t.left.nextId].leaf.(hasPrev := true, prevId := q), m[t.left.nextId].leaf, lsn);
    }
    hide Ordered, WellFormed;
  }

  lemma StampedReads(l: Leaf, was: Leaf, lsn: U64)
    requires WellFormed(was) && l.slots == was.slots && l.records == was.records
    ensures WellFormed(l) && WellFormed(Stamped(l, lsn).leaf) && Ordered(Stamped(l, lsn).leaf) == Ordered(was)
  {
    assert Ordered(l) == Ordered(was);
    NormReads(l, lsn);
  }

  /** An insert that splits splices the new page into the chain behind the old one. */
  lemma SplitKeepsChain(s: Pool, m: map<PageId, Node>, ids: seq<PageId>, i: nat, key: U64, payload: seq<Byte>, lsn: U64)
    returns (m': map<PageId, Node>)
    requires Sound(s) && Shows(s, m) && Chain(m, ids) && i < |ids| && InRange(m, ids, i, key)
    requires InsertLeaf(s, ids[i], key, payload, lsn).1.Ok? && InsertLeaf(s, ids[i], key, payload, lsn).1.value.Some?
    ensures Sound(InsertLeaf(s, ids[i], key, payload, lsn).0) && Shows(InsertLeaf(s, ids[i], key, payload, lsn).0, m')
    ensures var q := InsertLeaf(s, ids[i], key, payload, lsn).1.value.value.newPage;
            && q !in m && Chain(m', WithPage(ids, i, q))
            && key !in LiveMap(Along(m, ids))
            && LiveMap(Along(m', WithPage(ids, i, q))) == LiveMap(Along(m, ids))[key := payload]
            && Divides(m', InsertLeaf(s, ids[i], key, payload, lsn).1.value.value.promoted, ids[i], q)
  {
    hide PoolWF, Coherent, Content, Ordered, Along, Ascending, Lru.Distinct, L.Insert, Fetch, Release, SplitInsert;
    hide InRange;
    hide Below, Above, Moves, SplitAndRetry, LiveMap, SplitMap, Spliced, SplitPages;
    var p := ids[i];
    var s1 := Fetch(s, p).0;
    FetchMoves(s, p);
    MovedShows(s, s1, m, map[]);
    assert m + map[] == m;
    var l := s1.cache[p].leaf;
    InsertRefinesMap(l, key, payload);
    SplitMoves(s1, p, l, key, payload, lsn);
    var (s', r) := SplitInsert(s1, p, l, key, payload, lsn);
    var q := r.value.value.newPage;
    var t := SplitAndRetry(l, q, key, payload);
    SplitKeepsHeaders(l, q, key, payload);
    assert m[p] == LeafNode(NormLeaf(l)) && LeafAt(m, p);
    m' := SplitMap(m, p, q, t, lsn);
    SplitMapShows(s1, s', m, p, q, t, lsn);
    SplitSplices(m, l, p, q, t, lsn);
    var u, v := RetryLists(l, q, key, payload);
    NormReads(l, lsn);
    NotInChain(m, ids, q);
    SplicedChain(m, m', ids, i, q, u, v, Record(key, payload, false));
    RetryDivides(l, q, key, payload);
  }

  lemma NotInChain(m: map<PageId, Node>, ids: seq<PageId>, q: PageId)
    requires AllLeaves(m, ids) && q !in m
    ensures q !in ids
  {
    hide WellFormed;
    assert forall i :: 0 <= i < |ids| ==> LeafAt(m, ids[i]);
  }

  // ----- when the second insert fails -----

  /** The live records of the two halves a split makes. */
  function LowerLive(l: Leaf): seq<Record>
    requires Indexed(l)
  {
    LiveOnly(Ordered(l)[..|l.slots| / 2])
  }

  function UpperLive(l: Leaf): seq<Record>
    requires Indexed(l)
  {
    LiveOnly(Ordered(l)[|l.slots| / 2..])
  }

  /** The live records that would share a page with a key after the split. */
  function LiveBeside(l: Leaf, key: U64): seq<Record>
    requires Indexed(l)
  {
    if UpperLive(l) != [] && key >= UpperLive(l)[0].rowId then UpperLive(l) else LowerLive(l)
  }

  /** A payload fits on a page beside these records, as insert checks it. */
  predicate FitsBeside(rs: seq<Record>, payload: seq<Byte>) {
    LEAF_NODE_HEADER_SIZE + SlotArea(|rs|) + Bytes(rs) + 17 + |payload| <= PAGE_SIZE
  }

  /** Splitting a full page and inserting again, by what the page holds: it succeeds exactly when the
      upper half has a live record and the payload fits beside those of its half. */
  lemma RetryOutcome(l: Leaf, q: PageId, key: U64, payload: seq<Byte>)
    requires WellFormed(l) && L.Fits(l) && L.Insert(l, key, payload).result == Err(PageFull)
    ensures SplitAndRetry(l, q, key, payload).result ==
            if UpperLive(l) == [] then Err(CorruptPage(EmptyRightSibling))
            else if FitsBeside(LiveBeside(l, key), payload) then Ok(UpperLive(l)[0].rowId)
            else Err(PageFull)
  {
    hide Ordered, L.Live, L.Insert, L.Split, L.Fits, Bytes;
    SplitWell(l, EmptyLeaf(q));
    var h := L.Split(l, EmptyLeaf(q));
    SplitLaw(l, EmptyLeaf(q));
    RetryFits(l, EmptyLeaf(q), h, key, payload);
    HalfBytes(h.left);
    HalfBytes(h.right);
    InsertOk(Half(h, key), key, payload);
    hide WellFormed;
  }

  lemma HalfBytes(l: Leaf)
    requires WellFormed(l)
    ensures Indexed(l) && UsedBytes(l) == LEAF_NODE_HEADER_SIZE + SlotArea(|Ordered(l)|) + Bytes(Ordered(l))
  {
  }

  lemma InsertOk(l: Leaf, key: U64, payload: seq<Byte>)
    requires WellFormed(l)
    ensures L.Insert(l, key, payload).result.Ok? ==> L.Insert(l, key, payload).result == Ok(())
  {
    assert L.Insert(l, key, payload).result.Ok? ==> L.Insert(l, key, payload).result.value == ();
  }

  /** A split that does not help loses records. When the payload does not fit beside the live records
      of its half, the insert fails with the page keeping only the lower half; the new page with the
      upper one links to nothing, and no other page changes, so none links to it. */
  lemma FailedRetryLosesUpperHalf(s1: Pool, p: PageId, l: Leaf, key: U64, payload: seq<Byte>, lsn: U64, q: PageId)
    requires Sound(s1) && p in s1.cache && s1.cache[p] == LeafNode(l) && s1.pins[p] > 0 && WellFormed(l) && L.Fits(l)
    requires L.Insert(l, key, payload).result == Err(PageFull) && New(s1, true).1 == Ok(q)
    requires UpperLive(l) != [] && !FitsBeside(LiveBeside(l, key), payload)
    ensures var (s', r) := SplitInsert(s1, p, l, key, payload, lsn);
            var t := SplitAndRetry(l, q, key, payload);
            && r == Err(PageFull) && p != q && Content(s1, q) == None
            && Content(s', p) == Some(LeafNode(NormLeaf(t.left))) && Content(s', q) == Some(LeafNode(NormLeaf(t.right)))
            && (forall x :: x != p && x != q ==> Content(s', x) == Content(s1, x))
            && Ordered(t.left) == LowerLive(l) && t.left.hasNext == l.hasNext && t.left.nextId == l.nextId
            && t.left.hasPrev == l.hasPrev && t.left.prevId == l.prevId
            && Ordered(t.right) == UpperLive(l) && !t.right.hasPrev && !t.right.hasNext
  {
    hide PoolWF, Coherent, New, L.Split, L.Insert, Ordered, L.Live, NodeWell, Content, NormLeaf, L.Fits, UpperLive;
    hide LowerLive, FitsBeside, LiveBeside, SplitAndRetry, WellFormed, Norm, LinkedLeft, LinkedRight;
    RetryOutcome(l, q, key, payload);
    FailedHalves(l, q, key, payload);
    var t := SplitAndRetry(l, q, key, payload);
    LeafIsWell(t.left);
    LeafIsWell(t.right);
    HalvesMove(s1, p, l, key, payload, q, t.left, t.right);
    NewKeepsWF(s1, true);
    NormOfLeaf(t.left);
    NormOfLeaf(t.right);
    var s3 := PutLeaf(PutLeaf(New(s1, true).0, p, t.left), q, t.right);
    ReleaseShows(s3, q);
    ReleaseShows(Release(s3, q), p);
    hide Sound;
    assert SplitInsert(s1, p, l, key, payload, lsn) == (Release(Release(s3, q), p), Err(PageFull));
  }

  lemma NormOfLeaf(l: Leaf)
    ensures Norm(LeafNode(l)) == LeafNode(NormLeaf(l))
  {
  }

  /** The two leaves after a split whose second insert was rejected as full, too. */
  lemma FailedHalves(l: Leaf, q: PageId, key: U64, payload: seq<Byte>)
    requires WellFormed(l) && L.Fits(l) && L.Insert(l, key, payload).result == Err(PageFull)
    requires SplitAndRetry(l, q, key, payload).result == Err(PageFull)
    ensures var t := SplitAndRetry(l, q, key, payload);
            && Ordered(t.left) == LowerLive(l) && Ordered(t.right) == UpperLive(l)
            && t.left.hasNext == l.hasNext && t.left.nextId == l.nextId
            && t.left.hasPrev == l.hasPrev && t.left.prevId == l.prevId
            && !t.right.hasPrev && !t.right.hasNext
  {
    hide Ordered, L.Live, L.Insert, L.Split, L.Fits;
    SplitWell(l, EmptyLeaf(q));
    var h := L.Split(l, EmptyLeaf(q));
    SplitLaw(l, EmptyLeaf(q));
    RetryFits(l, EmptyLeaf(q), h, key, payload);
    HalvesKeepHeaders(l, q);
    hide WellFormed;
  }

  /** On the chain that means: the page keeps its place, and the keys live in its upper half are gone
      from what is live along it. */
  lemma FailedRetryOnChain(m: map<PageId, Node>, m': map<PageId, Node>, ids: seq<PageId>, i: nat, l: Leaf, left: Leaf)
    requires Chain(m, ids) && i < |ids| && WellFormed(l) && WellFormed(left)
    requires m[ids[i]] == LeafNode(NormLeaf(l)) && ids[i] in m' && m'[ids[i]] == LeafNode(NormLeaf(left))
    requires forall j :: 0 <= j < |ids| && j != i ==> ids[j] in m' && m'[ids[j]] == m[ids[j]]
    requires Ordered(left) == LowerLive(l) && left.hasNext == l.hasNext && left.nextId == l.nextId
    requires left.hasPrev == l.hasPrev && left.prevId == l.prevId
    ensures Chain(m', ids)
    ensures LiveMap(Along(m', ids)) == LiveMap(Along(m, ids)) - LiveMap(UpperLive(l)).Keys
  {
    NormReads(l, 0);
    NormReads(left, 0);
    assert LeafAt(m, ids[i]) && Rewritten(m, m', ids, i);
    var rs := Ordered(l);
    LowerMembers(rs, |l.slots| / 2);
    hide Ordered, Along, Ascending, LiveMap, LiveOnly, WellFormed, Rewritten;
    RewrittenLinks(m, m', ids, i);
    RewrittenAlong(m, m', ids, i);
    AlongAround(m, ids, i);
    LosesUpper(Along(m, ids[..i]), rs, Along(m, ids[i + 1..]), |l.slots| / 2);
  }

  lemma LowerMembers(rs: seq<Record>, mid: nat)
    requires mid <= |rs|
    ensures LiveMap(LiveOnly(rs[..mid])) + LiveMap(LiveOnly(rs[mid..])) == LiveMap(rs)
  {
    CutMeaning(rs, mid);
  }

  /** Dropping the upper live records, and all tombstones, from the middle of a sorted list. */
  lemma LosesUpper(pre: seq<Record>, rs: seq<Record>, post: seq<Record>, mid: nat)
    requires Ascending(pre + rs + post) && mid <= |rs|
    ensures Ascending(pre + LiveOnly(rs[..mid]) + post)
    ensures LiveMap(pre + LiveOnly(rs[..mid]) + post)
         == LiveMap(pre + rs + post) - LiveMap(LiveOnly(rs[mid..])).Keys
  {
    var a, b := LiveOnly(rs[..mid]), LiveOnly(rs[mid..]);
    PartsAscend(pre, rs, post);
    LiveOnlyMembers(rs[..mid]);
    CutAscends(rs, mid);
    LiveOnlyAscends(rs[..mid]);
    Assemble(pre, a, post);
    CutMeaning(rs, mid);
    LiveMapConcat(pre + rs, post);
    LiveMapConcat(pre, rs);
    LiveMapConcat(pre + a, post);
    LiveMapConcat(pre, a);
    forall k | k in LiveMap(b) ensures k !in LiveMap(pre) && k !in LiveMap(a) && k !in LiveMap(post) {
      OnlyInUpper(pre, rs, post, mid, k);
    }
    hide LiveMap, LiveOnly;
    WithoutMiddle(LiveMap(pre), LiveMap(a), LiveMap(b), LiveMap(post));
  }

  lemma OnlyInUpper(pre: seq<Record>, rs: seq<Record>, post: seq<Record>, mid: nat, k: U64)
    requires Ascending(pre + rs + post) && mid <= |rs| && k in LiveMap(LiveOnly(rs[mid..]))
    ensures k !in LiveMap(pre) && k !in LiveMap(LiveOnly(rs[..mid])) && k !in LiveMap(post)
  {
    PartsAscend(pre, rs, post);
    LiveOnlyMembers(rs[..mid]);
    LiveOnlyMembers(rs[mid..]);
    var r := HolderOf(LiveOnly(rs[mid..]), k);
    assert r in rs[mid..];
    var j :| mid <= j < |rs| && rs[j] == r;
    assert r in rs;
    hide LiveMap, LiveOnly;
    forall i | 0 <= i < |pre| ensures pre[i].rowId < k { assert pre[i] in pre; }
    forall i | 0 <= i < |post| ensures k < post[i].rowId { assert post[i] in post; }
    var lower := LiveOnly(rs[..mid]);
    forall i | 0 <= i < |lower| ensures lower[i].rowId < k {
      assert lower[i] in lower;
      var x :| 0 <= x < mid && rs[x] == lower[i];
      assert rs[x].rowId < rs[j].rowId;
    }
    NoKey(pre, k);
    NoKey(post, k);
    NoKey(LiveOnly(rs[..mid]), k);
  }

  lemma HolderOf(rs: seq<Record>, k: U64) returns (r: Record)
    requires k in LiveMap(rs)
    ensures r in rs && r.rowId == k
  {
    LiveMapKeys(rs, k);
    var i :| 0 <= i < |rs| && rs[i].rowId == k && !rs[i].deleted;
    r := rs[i];
  }

  lemma WithoutMiddle(a: map<U64, seq<Byte>>, b: map<U64, seq<Byte>>, c: map<U64, seq<Byte>>, d: map<U64, seq<Byte>>)
    requires forall k :: k in c ==> k !in a && k !in b && k !in d
    ensures (a + b) + d == ((a + (b + c)) + d) - c.Keys
  {
  }

  lemma LeafIsWell(l: Leaf)
    ensures WellFormed(l) ==> NodeWell(LeafNode(l))
  {
  }

  // ----- splitting and routing agree -----

  /** Every key of leaf p is below the separator, every key of leaf q is not. */
  ghost predicate Divides(m: map<PageId, Node>, separator: U64, p: PageId, q: PageId) {
    && LeafAt(m, p) && LeafAt(m, q)
    && Below(Ordered(m[p].leaf), separator)
    && forall r :: r in Ordered(m[q].leaf) ==> separator <= r.rowId
  }

  lemma RetryDivides(l: Leaf, q: PageId, k: U64, payload: seq<Byte>)
    requires WellFormed(l) && !Holds(Ordered(l), k) && |payload| <= MAX_VALUE_SIZE
    requires SplitAndRetry(l, q, k, payload).result.Ok?
    ensures var t := SplitAndRetry(l, q, k, payload);
            && Below(Ordered(t.left), t.result.value)
            && forall r :: r in Ordered(t.right) ==> t.result.value <= r.rowId
  {
    hide L.Insert, L.Split, LiveOnly, Ascending, LowerBound;
    var rs, mid := Ordered(l), |l.slots| / 2;
    SplitLists(l, q);
    var h := L.Split(l, EmptyLeaf(q));
    var a, b, r := LiveOnly(rs[..mid]), LiveOnly(rs[mid..]), Record(k, payload, false);
    MembersOfLive(rs, mid);
    NotHeldInPart(rs, a, k);
    NotHeldInPart(rs, b, k);
    SeparatedBy(rs, mid);
    hide Ordered, WellFormed, Holds;
    if k < h.promoted.value {
      InsertedList(h.left, k, payload);
      BelowWith(a, LowerBound(a, k), r, h.promoted.value);
    } else {
      InsertedList(h.right, k, payload);
      AtLeastWith(b, LowerBound(b, k), r, h.promoted.value);
    }
  }

  lemma BelowWith(a: seq<Record>, i: nat, r: Record, bound: U64)
    requires i <= |a| && Below(a, bound) && r.rowId < bound
    ensures Below(a[..i] + [r] + a[i..], bound)
  {
  }

  lemma AtLeastWith(b: seq<Record>, i: nat, r: Record, bound: U64)
    requires i <= |b| && (forall j :: 0 <= j < |b| ==> bound <= b[j].rowId) && bound <= r.rowId
    ensures forall x :: x in b[..i] + [r] + b[i..] ==> bound <= x.rowId
  {
  }
}
