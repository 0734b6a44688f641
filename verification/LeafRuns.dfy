/** The page invariant over whole lives of a leaf, and the two writes that can break it. */
module LeafRuns {
  import opened Base
  import opened Leaves
  import opened LeafLaws

  /** The free-byte counter never promises bytes the page does not have. */
  predicate FreeLower(l: Leaf)
    requires Indexed(l)
  {
    l.freeSize + UsedBytes(l) <= PAGE_SIZE
  }

  predicate FreeExact(l: Leaf)
    requires Indexed(l)
  {
    l.freeSize + UsedBytes(l) == PAGE_SIZE
  }

  predicate PageInv(l: Leaf) {
    WellFormed(l) && FreeLower(l) && Bounded(Ordered(l))
  }

  datatype LeafOp =
    | OpInsert(k: U64, payload: seq<Byte>)
    | OpUpdate(k: U64, payload: seq<Byte>)
    | OpDelete(k: U64)
    | OpCompact
    | OpSplitKeepLower(siblingId: PageId)
    | OpSplitKeepUpper(siblingId: PageId)
    | OpReload

  function Halve(l: Leaf, id: PageId): Halves
    requires WellFormed(l)
  {
    Split(l, EmptyLeaf(id))
  }

  function Step(l: Leaf, op: LeafOp): Done<()>
    requires PageInv(l)
  {
    match op
    case OpInsert(k, payload) => Insert(l, k, payload)
    case OpUpdate(k, payload) => Update(l, k, payload)
    case OpDelete(k) => Delete(l, k)
    case OpCompact => Compact(l)
    case OpSplitKeepLower(id) => Done(Halve(l, id).left, Ok(()))
    case OpSplitKeepUpper(id) => Done(Halve(l, id).right, Ok(()))
    case OpReload => Done(Reload(l), Ok(()))
  }

  /** What the code does not check for itself: the room for a payload that takes over a tombstone,
      and the growth of an updated one. */
  predicate Checked(l: Leaf, op: LeafOp)
    requires PageInv(l)
  {
    match op
    case OpInsert(k, payload) =>
      |payload| <= MAX_VALUE_SIZE && Holds(Ordered(l), k) && k !in Live(l) ==> HasRoom(l, k, payload)
    case OpUpdate(k, payload) =>
      |payload| < MAX_VALUE_SIZE && Holds(Ordered(l), k) ==>
        l.freeSize + UsedBytes(l) + |payload| <= PAGE_SIZE + |Ordered(l)[LowerBound(Ordered(l), k)].data|
    case _ => true
  }

  /** An operation keeps the page invariant and returns exactly when the unchecked writes are in
      bounds; every other operation always does. */
  lemma StepKeepsPage(l: Leaf, op: LeafOp)
    requires PageInv(l)
    ensures Checked(l, op) <==> PageInv(Step(l, op).leaf) && Step(l, op).result != Err(Panic)
  {
    match op
    case OpInsert(k, payload) => InsertStep(l, k, payload);
    case OpUpdate(k, payload) => UpdateStep(l, k, payload);
    case OpDelete(k) => DeleteStep(l, k);
    case OpCompact =>
      CompactLaw(l);
      LiveOnlyMembers(Ordered(l));
    case OpSplitKeepLower(id) => SplitStep(l, id);
    case OpSplitKeepUpper(id) => SplitStep(l, id);
    case OpReload => ReloadStep(l);
  }

  lemma InsertStep(l: Leaf, k: U64, payload: seq<Byte>)
    requires PageInv(l)
    ensures Checked(l, OpInsert(k, payload)) <==>
            PageInv(Insert(l, k, payload).leaf) && Insert(l, k, payload).result != Err(Panic)
  {
    InsertRefinesMap(l, k, payload);
    if Insert(l, k, payload).result.Ok? {
      InsertKeepsFree(l, k, payload);
      InsertKeepsBounds(l, k, payload);
    }
  }

  /** A successful insert keeps the counter a lower bound, and exact if it was: the byte check
      always leaves the two bytes it counts twice. */
  lemma InsertKeepsFree(l: Leaf, k: U64, payload: seq<Byte>)
    requires WellFormed(l) && FreeLower(l) && Insert(l, k, payload).result.Ok?
    ensures var l' := Insert(l, k, payload).leaf;
            && Indexed(l') && FreeLower(l')
            && (FreeExact(l) || Holds(Ordered(l), k) ==> FreeExact(l'))
  {
    InsertRefinesMap(l, k, payload);
    if Holds(Ordered(l), k) {
      InsertReuse(l, k, payload);
    } else {
      InsertFresh(l, k, payload);
    }
  }

  lemma BoundedAround(rs: seq<Record>, i: nat, j: nat, r: Record)
    requires i <= |rs| && j <= |rs| && Bounded(rs) && |r.data| <= MAX_VALUE_SIZE
    ensures Bounded(rs[..i] + [r] + rs[j..]) && Bounded(LiveOnly(rs[..i] + [r] + rs[j..]))
  {
    LiveOnlyMembers(rs[..i] + [r] + rs[j..]);
  }

  lemma InsertKeepsBounds(l: Leaf, k: U64, payload: seq<Byte>)
    requires WellFormed(l) && Bounded(Ordered(l)) && Insert(l, k, payload).result.Ok?
    ensures Indexed(Insert(l, k, payload).leaf) && Bounded(Ordered(Insert(l, k, payload).leaf))
  {
    var rs, i, r := Ordered(l), LowerBound(Ordered(l), k), Record(k, payload, false);
    InsertRefinesMap(l, k, payload);
    if Holds(rs, k) {
      BoundedAround(rs, i, i + 1, r);
      ReplacedShape(l, k, r);
      CompactLaw(l.(records := l.records[l.slots[i] := r]));
    } else {
      BoundedAround(rs, i, i, r);
      InsertFresh(l, k, payload);
    }
  }

  lemma UpdateStep(l: Leaf, k: U64, payload: seq<Byte>)
    requires PageInv(l)
    ensures Checked(l, OpUpdate(k, payload)) <==> PageInv(Update(l, k, payload).leaf)
    ensures Update(l, k, payload).result != Err(Panic)
  {
    var rs, i := Ordered(l), LowerBound(Ordered(l), k);
    if |payload| < MAX_VALUE_SIZE && Holds(rs, k) {
      Replaced(l, k, rs[i].(data := payload));
      BoundedAround(rs, i, i + 1, rs[i].(data := payload));
    }
  }

  lemma DeleteStep(l: Leaf, k: U64)
    requires PageInv(l)
    ensures PageInv(Delete(l, k).leaf) && Delete(l, k).result != Err(Panic)
    ensures FreeExact(l) ==> FreeExact(Delete(l, k).leaf)
  {
    var rs, i := Ordered(l), LowerBound(Ordered(l), k);
    if Holds(rs, k) {
      Replaced(l, k, rs[i].(deleted := true));
      BoundedAround(rs, i, i + 1, rs[i].(deleted := true));
    }
  }

  lemma SplitStep(l: Leaf, id: PageId)
    requires PageInv(l)
    ensures PageInv(Halve(l, id).left) && PageInv(Halve(l, id).right)
    ensures FreeExact(Halve(l, id).left) && FreeExact(Halve(l, id).right)
  {
    SplitLaw(l, EmptyLeaf(id));
    LiveOnlyMembers(Ordered(l)[..|l.slots| / 2]);
    LiveOnlyMembers(Ordered(l)[|l.slots| / 2..]);
  }

  lemma ReloadStep(l: Leaf)
    requires PageInv(l)
    ensures PageInv(Reload(l)) && FreeExact(Reload(l)) && Live(Reload(l)) == Live(l)
  {
    assert Ordered(Reload(l)) == Ordered(l);
  }

  predicate AllChecked(l: Leaf, ops: seq<LeafOp>)
    requires PageInv(l)
    decreases ops
  {
    ops == [] ||
    (Checked(l, ops[0]) && (StepKeepsPage(l, ops[0]); AllChecked(Step(l, ops[0]).leaf, ops[1..])))
  }

  function Run(l: Leaf, ops: seq<LeafOp>): Leaf
    requires PageInv(l) && AllChecked(l, ops)
    decreases ops
  {
    if ops == [] then l
    else
      StepKeepsPage(l, ops[0]);
      Run(Step(l, ops[0]).leaf, ops[1..])
  }

  /** In every life of a leaf whose unchecked writes are in bounds the slots stay a permutation in
      key order, the page stays within its bytes, and no slot number is ever truncated. */
  lemma {:induction false} LeafLife(l: Leaf, ops: seq<LeafOp>)
    requires PageInv(l) && AllChecked(l, ops)
    ensures PageInv(Run(l, ops)) && Fits(Run(l, ops))
    ensures |Run(l, ops).slots| == |Run(l, ops).records| <= MAX_LEAF_NODE_CELLS
    decreases ops
  {
    if ops == [] {
      BytesAtLeast(Ordered(l));
    } else {
      StepKeepsPage(l, ops[0]);
      LeafLife(Step(l, ops[0]).leaf, ops[1..]);
    }
  }

  lemma EmptyLeafIsAPage(id: PageId)
    ensures PageInv(EmptyLeaf(id)) && Live(EmptyLeaf(id)) == map[]
  {
  }

  // ----- the writes that break a page, and the split that does not help -----

  function Large(): (p: seq<Byte>)
    ensures |p| == MAX_VALUE_SIZE
  {
    seq(MAX_VALUE_SIZE, _ => 0)
  }

  function Alike(first: nat, n: nat, payload: seq<Byte>, dead: bool): (rs: seq<Record>)
    requires first + n <= 0x1_0000
    ensures |rs| == n && forall i :: 0 <= i < n ==> rs[i] == Record(first + i, payload, dead)
  {
    seq(n, i requires 0 <= i < n => Record(first + i, payload, dead))
  }

  /** small empty records, possibly tombstones, below large ones of 400 bytes. */
  function Skewed(small: nat, dead: bool, large: nat): (rs: seq<Record>)
    requires small + large <= 0x1_0000
    ensures |rs| == small + large && Ascending(rs)
  {
    Alike(0, small, [], dead) + Alike(small, large, Large(), false)
  }

  function Packed(rs: seq<Record>): (l: Leaf)
    requires |rs| <= 0x1_0000
    ensures Indexed(l) && Ordered(l) == rs
    ensures Ascending(rs) ==> WellFormed(l)
  {
    var l := EmptyLeaf(0).(slots := Numbered(0, |rs|), records := rs);
    assert Ordered(l) == rs;
    l
  }

  lemma {:induction false} EqualBytes(rs: seq<Record>, size: nat)
    requires forall i :: 0 <= i < |rs| ==> |rs[i].data| == size
    ensures Bytes(rs) == (RECORD_META_SIZE + size) * |rs|
  {
    if rs != [] {
      EqualBytes(rs[1..], size);
      assert (RECORD_META_SIZE + size) * |rs| == (RECORD_META_SIZE + size) + (RECORD_META_SIZE + size) * (|rs| - 1);
    }
  }

  lemma SkewedBytes(small: nat, dead: bool, large: nat)
    requires small + large <= 0x1_0000
    ensures Bytes(Skewed(small, dead, large)) == 13 * small + 413 * large
  {
    EqualBytes(Alike(0, small, [], dead), 0);
    EqualBytes(Alike(small, large, Large(), false), MAX_VALUE_SIZE);
    BytesConcat(Alike(0, small, [], dead), Alike(small, large, Large(), false));
  }

  /** An update that grows a payload can overflow a page that was fine. */
  lemma UpdateCanOverflow(l: Leaf)
    requires l == Packed(Skewed(1, false, 9))
    ensures WellFormed(l) && Fits(l)
    ensures var d := Update(l, 0, Large()[1..]);
            d.result.Ok? && Indexed(d.leaf) && !Fits(d.leaf)
  {
    SkewedBytes(1, false, 9);
    LowerBoundUnique(Ordered(l), 0, 0);
    UpdateRefinesMap(l, 0, Large()[1..]);
  }

  /** Reviving a tombstone with a larger payload can panic. */
  lemma ReviveCanPanic(l: Leaf)
    requires l == Packed(Skewed(1, true, 9))
    ensures WellFormed(l) && Fits(l)
    ensures Insert(l, 0, Large()).result == Err(Panic)
  {
    var rs := Ordered(l);
    SkewedBytes(1, true, 9);
    LowerBoundUnique(rs, 0, 0);
    var alive := Alike(1, 9, Large(), false);
    assert LiveOnly(rs) == alive by {
      assert rs[0] == Record(0, [], true);
      assert rs[1..] == alive;
      AllKept(alive);
    }
    EqualBytes(alive, MAX_VALUE_SIZE);
    Lookup(rs, 0);
    InsertRefinesMap(l, 0, Large());
  }

  /** When the upper half has no room for a key of its range, splitting the page does not help. */
  lemma SplitStaysFull(l: Leaf, h: Halves, k: U64, payload: seq<Byte>, upper: seq<Record>)
    requires WellFormed(l) && Fits(l) && h == Halve(l, 1)
    requires Ordered(l)[|l.slots| / 2..] == upper != [] && forall i :: 0 <= i < |upper| ==> !upper[i].deleted
    requires Insert(l, k, payload).result == Err(PageFull)
    requires k >= upper[0].rowId && 58 + SlotArea(|upper|) + Bytes(upper) + |payload| > PAGE_SIZE
    ensures h.promoted.Ok? && Half(h, k) == h.right && Indexed(h.right)
    ensures Insert(h.right, k, payload).result == Err(PageFull)
  {
    SplitLaw(l, EmptyLeaf(1));
    AllKept(upper);
    RetryFits(l, EmptyLeaf(1), h, k, payload);
  }

  /** Nine empty records below nine of 400 bytes, and a further 400 bytes to put among the large
      ones: the page is full, and splitting it leaves the half that needs the room full. */
  lemma SkewedSplit(l: Leaf, h: Halves, k: U64, payload: seq<Byte>)
    requires WellFormed(l) && |l.slots| == 18 && (forall i :: 0 <= i < 18 ==> !Ordered(l)[i].deleted)
    requires forall i :: 0 <= i < 18 ==> |Ordered(l)[i].data| == if i < 9 then 0 else MAX_VALUE_SIZE
    requires !Holds(Ordered(l), k) && k >= Ordered(l)[9].rowId && |payload| == MAX_VALUE_SIZE
    requires Fits(l) ==> h == Halve(l, 1)
    ensures Fits(l) && Insert(l, k, payload).result == Err(PageFull)
    ensures h.promoted.Ok? && Half(h, k) == h.right && Indexed(h.right)
    ensures Insert(h.right, k, payload).result == Err(PageFull)
  {
    var lower, upper := Ordered(l)[..9], Ordered(l)[9..];
    EqualBytes(lower, 0);
    EqualBytes(upper, MAX_VALUE_SIZE);
    CutMeaning(Ordered(l), 9);
    InsertFreshResult(l, k, payload);
    SplitStaysFull(l, h, k, payload, upper);
  }
}
