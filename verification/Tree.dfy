/**
 The leaf level of the B+ tree over the buffer pool: inserting into a leaf, splitting it when it is
 full and splicing the new page into the doubly linked chain of leaves. As everywhere the functions
 say what the code does, error returns that leave pages half changed included.
 */
module Trees {
  import opened Base
  import opened L = Leaves
  import opened LeafLaws
  import opened Nodes
  import opened Lru
  import opened Pools
  import opened PoolLaws

  datatype SplitResult = SplitResult(promoted: U64, newPage: PageId)

  function PutLeaf(s: Pool, p: PageId, l: Leaf): Pool {
    Put(s, p, LeafNode(l))
  }

  // ----- inserting -----

  function InsertLeaf(s: Pool, p: PageId, key: U64, payload: seq<Byte>, lsn: U64): (Pool, Result<Option<SplitResult>>)
    requires PoolWF(s)
  {
    var (s1, got) := Fetch(s, p);
    if got.Err? then (s1, Err(got.error))
    else
      FetchKeepsWF(s, p);
      match s1.cache[p]
      case InnerNode(_) => (Release(s1, p), Err(CorruptPage(RecordIntoInternalNode)))
      case LeafNode(l) => InsertHeld(s1, p, l, key, payload, lsn)
  }

  /** Inserting into leaf l, held as page p. */
  function InsertHeld(s1: Pool, p: PageId, l: Leaf, key: U64, payload: seq<Byte>, lsn: U64): (Pool,
                      Result<Option<SplitResult>>)
    requires PoolWF(s1) && p in s1.cache && s1.cache[p] == LeafNode(l) && s1.pins[p] > 0
  {
    var d := L.Insert(l, key, payload);
    if d.result.Ok? then (Release(Put(s1, p, MarkDirty(LeafNode(d.leaf), lsn)), p), Ok(None))
    else if d.result != Err(PageFull) then (Release(PutLeaf(s1, p, d.leaf), p), Err(d.result.error))
    else SplitInsert(s1, p, l, key, payload, lsn)
  }

  /** The two leaves after a split and the second attempt to insert. */
  datatype Retried = Retried(left: Leaf, right: Leaf, result: Result<U64>)

  function SplitAndRetry(l: Leaf, q: PageId, key: U64, payload: seq<Byte>): (t: Retried)
    requires WellFormed(l)
    ensures WellFormed(t.left) && WellFormed(t.right)
  {
    SplitWell(l, EmptyLeaf(q));
    var h := L.Split(l, EmptyLeaf(q));
    if h.promoted.Err? then Retried(h.left, h.right, h.promoted)
    else if key < h.promoted.value then
      InsertRefinesMap(h.left, key, payload);
      var d := L.Insert(h.left, key, payload);
      Retried(d.leaf, h.right, if d.result.Err? then Err(d.result.error) else h.promoted)
    else
      InsertRefinesMap(h.right, key, payload);
      var d := L.Insert(h.right, key, payload);
      Retried(h.left, d.leaf, if d.result.Err? then Err(d.result.error) else h.promoted)
  }

  /** The left leaf pointing forward to page q. */
  function LinkedLeft(l: Leaf, q: PageId): Leaf {
    l.(hasNext := true, nextId := q)
  }

  /** The right leaf between page p and what came after l. */
  function LinkedRight(r: Leaf, p: PageId, l: Leaf): Leaf {
    r.(hasPrev := true, prevId := p, hasNext := l.hasNext, nextId := l.nextId)
  }

  function SplitInsert(s1: Pool, p: PageId, l: Leaf, key: U64, payload: seq<Byte>, lsn: U64): (r: (Pool,
                       Result<Option<SplitResult>>))
    requires PoolWF(s1) && WellFormed(l) && p in s1.cache && s1.pins[p] > 0
    ensures r.1.Ok? ==> r.1.value.Some?
  {
    var (s2, made) := New(s1, true);
    if made.Err? then (Release(s2, p), Err(made.error))
    else
      NewKeepsWF(s1, true);
      SplitInto(s2, p, made.value, l, key, payload, lsn)
  }

  /** Splits leaf l, held as page p, into the new page q. */
  function SplitInto(s2: Pool, p: PageId, q: PageId, l: Leaf, key: U64, payload: seq<Byte>, lsn: U64): (r: (Pool,
                     Result<Option<SplitResult>>))
    requires PoolWF(s2) && WellFormed(l) && p in s2.cache && q in s2.cache
    ensures r.1.Ok? ==> r.1.value.Some?
  {
    var t := SplitAndRetry(l, q, key, payload);
    if t.result.Err? then
      (Release(Release(PutLeaf(PutLeaf(s2, p, t.left), q, t.right), q), p), Err(t.result.error))
    else
      var s3 := PutLeaf(PutLeaf(s2, p, LinkedLeft(t.left, q)), q, LinkedRight(t.right, p, t.left));
      PutPairWF(s2, p, q, LinkedLeft(t.left, q), LinkedRight(t.right, p, t.left));
      Finish(s3, p, q, t.left, t.result.value, lsn)
  }

  function LinkIfAny(s3: Pool, was: Leaf, p: PageId, q: PageId, lsn: U64): (Pool, Result<()>)
    requires PoolWF(s3)
  {
    if was.hasNext then LinkBack(s3, was.nextId, p, q, lsn) else (s3, Ok(()))
  }

  /** Repairs the back link of the page that came after leaf was, marks p and q dirty and lets go. */
  function Finish(s3: Pool, p: PageId, q: PageId, was: Leaf, promoted: U64, lsn: U64): (r: (Pool,
                  Result<Option<SplitResult>>))
    requires PoolWF(s3)
    ensures r.1.Ok? ==> r.1.value.Some?
  {
    var (s4, linked) := LinkIfAny(s3, was, p, q, lsn);
    if linked == Err(Deadlock) then (s4, Err(Deadlock))
    else if linked.Err? then (Release(Release(s4, q), p), Err(linked.error))
    else (Release(Release(Touched(Touched(s4, p, lsn), q, lsn), q), p), Ok(Some(SplitResult(promoted, q))))
  }

  /** Marks a cached page dirty. */
  function Touched(s: Pool, p: PageId, lsn: U64): Pool {
    if p in s.cache then Put(s, p, MarkDirty(s.cache[p], lsn)) else s
  }

  /** Points the old right sibling back at page q. The guards of p and q are still held here, so a
      chain that leads back to one of them would make the thread wait for itself. */
  function LinkBack(s3: Pool, next: PageId, p: PageId, q: PageId, lsn: U64): (Pool, Result<()>)
    requires PoolWF(s3)
  {
    var (s4, got) := Fetch(s3, next);
    if got.Err? then (s4, got)
    else if next == p || next == q then (s4, Err(Deadlock))
    else
      FetchKeepsWF(s3, next);
      (Relinked(s4, next, q, lsn), Ok(()))
  }

  /** Points a held page back at page q if it is a leaf, and lets go of it. */
  function Relinked(s: Pool, next: PageId, q: PageId, lsn: U64): Pool
    requires next in s.cache
  {
    match s.cache[next]
    case LeafNode(o) => Release(Put(s, next, MarkDirty(LeafNode(o.(hasPrev := true, prevId := q)), lsn)), next)
    case InnerNode(_) => Release(s, next)
  }

  // ----- well-formedness -----

  /** What a split moves is in order even before it is compacted. */
  lemma UpperWell(l: Leaf, sibling: Leaf)
    requires WellFormed(l) && Blank(sibling)
    ensures var (lower, upper) := MoveUpper(l, sibling);
            && WellFormed(upper) && |lower.slots| <= 0x1_0000 && Ascending(Ordered(lower))
  {
    var rs, mid := Ordered(l), |l.slots| / 2;
    Grown(l, sibling);
    CutAscends(rs, mid);
    hide Ordered;
    assert Ordered(sibling) + rs[mid..] == rs[mid..];
  }

  lemma SplitWell(l: Leaf, sibling: Leaf)
    requires WellFormed(l) && Blank(sibling)
    ensures |sibling.records| + |l.slots| <= 0x1_0000
    ensures WellFormed(L.Split(l, sibling).left) && WellFormed(L.Split(l, sibling).right)
  {
    var (lower, upper) := MoveUpper(l, sibling);
    UpperWell(l, sibling);
    hide MoveUpper;
    CompactWell(lower);
    CompactWell(upper);
  }

  lemma CompactWell(l: Leaf)
    requires Indexed(l) && |l.slots| <= 0x1_0000 && Ascending(Ordered(l))
    ensures WellFormed(Compact(l).leaf)
  {
    CompactOrdered(l);
    LiveOnlyAscends(Ordered(l));
  }

  lemma PutPairWF(s: Pool, p: PageId, q: PageId, left: Leaf, right: Leaf)
    requires PoolWF(s) && p in s.cache && q in s.cache && WellFormed(left) && WellFormed(right)
    ensures PoolWF(PutLeaf(PutLeaf(s, p, left), q, right))
  {
    hide PoolWF;
    ReplacedWF(s, p, LeafNode(left));
    ReplacedWF(PutLeaf(s, p, left), q, LeafNode(right));
  }
}
