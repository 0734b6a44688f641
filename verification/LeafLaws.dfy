/**
 What the leaf operations guarantee: a leaf is a finite map of its live keys, its page never
 overflows unless an unchecked write makes it, its free-byte counter never promises too much, and
 a split cuts the map in two.
 */
module LeafLaws {
  import opened Base
  import opened Leaves

  // ----- the leaf refines a finite map -----

  /** The bytes in use once the tombstones are gone. */
  function LiveBytes(l: Leaf): nat
    requires Indexed(l)
  {
    LEAF_NODE_HEADER_SIZE + SlotArea(|LiveOnly(Ordered(l))|) + Bytes(LiveOnly(Ordered(l)))
  }

  /** Whether the page can take k: a key already in the slots (a tombstone, or the insert is a
      duplicate) is paid for without the tombstones, a fresh key next to them and with two bytes
      in reserve. */
  predicate HasRoom(l: Leaf, k: U64, payload: seq<Byte>)
    requires Indexed(l)
  {
    if Holds(Ordered(l), k)
    then LiveBytes(l) + SLOT_ELEM_SIZE + RECORD_META_SIZE + |payload| <= PAGE_SIZE
    else UsedBytes(l) + 2 * SLOT_ELEM_SIZE + RECORD_META_SIZE + |payload| <= PAGE_SIZE
  }

  lemma CompactLaw(l: Leaf)
    requires WellFormed(l)
    ensures var c := Compact(l);
            && WellFormed(c.leaf)
            && Ordered(c.leaf) == LiveOnly(Ordered(l))
            && Live(c.leaf) == Live(l)
            && UsedBytes(c.leaf) == LiveBytes(l) <= UsedBytes(l)
            && (c.result.Ok? <==> LiveBytes(l) <= PAGE_SIZE)
            && (c.result.Err? ==> c.result == Err(Panic))
            && (c.result.Ok? ==> c.leaf.freeSize == PAGE_SIZE - UsedBytes(c.leaf))
  {
    CompactOrdered(l);
    LiveOnlyKeeps(Ordered(l));
    LiveOnlyShrinks(Ordered(l));
    LiveOnlyAscends(Ordered(l));
  }

  lemma LiveOnlyAround(a: seq<Record>, r: Record, b: seq<Record>)
    ensures LiveOnly(a + [r] + b) == LiveOnly(a) + Kept(r) + LiveOnly(b)
  {
    LiveOnlyConcat(a + [r], b);
    LiveOnlyConcat(a, [r]);
    assert LiveOnly([r]) == Kept(r) + [] == Kept(r);
  }

  /** Waking a tombstone up costs one record. */
  lemma LiveBytesGrow(a: seq<Record>, r: Record, r': Record, b: seq<Record>)
    requires r.deleted && !r'.deleted
    ensures var with, without := LiveOnly(a + [r'] + b), LiveOnly(a + [r] + b);
            && |with| == |without| + 1
            && Bytes(with) == Bytes(without) + RECORD_META_SIZE + |r'.data|
  {
    var x, y := LiveOnly(a), LiveOnly(b);
    assert LiveOnly(a + [r] + b) == x + y by {
      LiveOnlyAround(a, r, b);
      assert x + [] == x;
    }
    assert LiveOnly(a + [r'] + b) == x + [r'] + y by { LiveOnlyAround(a, r', b); }
    BytesWith(x, r', y);
  }

  lemma BytesWith(a: seq<Record>, r: Record, b: seq<Record>)
    ensures Bytes(a + [r] + b) == Bytes(a + b) + RECORD_META_SIZE + |r.data|
  {
    BytesAround(a, r, b);
    BytesConcat(a, b);
  }

  lemma AscendingAround(a: seq<Record>, r: Record, b: seq<Record>)
    requires Ascending(a + b) && Below(a, r.rowId) && Above(b, r.rowId)
    ensures Ascending(a + [r] + b)
  {
    var rs := a + [r] + b;
    forall i, j | 0 <= i < j < |rs| ensures rs[i].rowId < rs[j].rowId {
      if i < |a| && j > |a| {
        assert rs[i] == (a + b)[i] && rs[j] == (a + b)[j - 1];
      } else if i < |a| && j < |a| {
        assert rs[i] == (a + b)[i] && rs[j] == (a + b)[j];
      } else if i > |a| {
        assert rs[i] == (a + b)[i - 1] && rs[j] == (a + b)[j - 1];
      }
    }
  }

  lemma InsertFreshResult(l: Leaf, k: U64, payload: seq<Byte>)
    requires WellFormed(l) && !Holds(Ordered(l), k) && |payload| <= MAX_VALUE_SIZE
    ensures var d := Insert(l, k, payload);
            && (d.result.Ok? <==> HasRoom(l, k, payload))
            && (d.result.Err? ==> d == Done(l, Err(PageFull)))
            && (d.result.Ok? ==> |l.records| <= MAX_LEAF_NODE_CELLS)
  {
    RejectsExactly(l, |payload|);
  }

  /** The slot count check adds nothing to the byte check. */
  lemma RejectsExactly(l: Leaf, n: nat)
    requires Indexed(l)
    ensures RejectsAsFull(l, n) <==> UsedBytes(l) + 17 + n > PAGE_SIZE
    ensures !RejectsAsFull(l, n) ==> |l.slots| < MAX_LEAF_NODE_CELLS
  {
    BytesAtLeast(Ordered(l));
  }

  /** A fresh key goes in between what is below it and what is above it. */
  lemma InsertFresh(l: Leaf, k: U64, payload: seq<Byte>)
    requires WellFormed(l) && !Holds(Ordered(l), k) && |payload| <= MAX_VALUE_SIZE
    requires HasRoom(l, k, payload)
    ensures var d := Insert(l, k, payload);
            var rs, i := Ordered(l), LowerBound(Ordered(l), k);
            && d.result.Ok? && WellFormed(d.leaf)
            && Ordered(d.leaf) == rs[..i] + [Record(k, payload, false)] + rs[i..]
            && UsedBytes(d.leaf) == UsedBytes(l) + SLOT_ELEM_SIZE + RECORD_META_SIZE + |payload|
  {
    var rs, i, r := Ordered(l), LowerBound(Ordered(l), k), Record(k, payload, false);
    var a, b := rs[..i], rs[i..];
    InsertFreshResult(l, k, payload);
    AroundAbsent(rs, k);
    InsertedOrdered(l, i, r);
    AscendingAround(a, r, b);
    BytesWith(a, r, b);
  }

  /** Putting another record of the same key in the place of the one a leaf holds. */
  lemma ReplacedShape(l: Leaf, k: U64, r: Record)
    requires WellFormed(l) && Holds(Ordered(l), k) && r.rowId == k
    ensures var rs, i := Ordered(l), LowerBound(Ordered(l), k);
            var l' := l.(records := l.records[l.slots[i] := r]);
            && WellFormed(l')
            && Ordered(l') == rs[..i] + [r] + rs[i + 1..]
  {
    var rs, i := Ordered(l), LowerBound(Ordered(l), k);
    ReplacedOrdered(l, i, r);
    assert Ascending(rs[i := r]);
  }

  lemma Replaced(l: Leaf, k: U64, r: Record)
    requires WellFormed(l) && Holds(Ordered(l), k) && r.rowId == k
    ensures var rs, i := Ordered(l), LowerBound(Ordered(l), k);
            var l' := l.(records := l.records[l.slots[i] := r]);
            && WellFormed(l')
            && Ordered(l') == rs[..i] + [r] + rs[i + 1..]
            && UsedBytes(l') + |rs[i].data| == UsedBytes(l) + |r.data|
            && Live(l') == if r.deleted then Live(l) - {k} else Live(l)[k := r.data]
  {
    var rs, i := Ordered(l), LowerBound(Ordered(l), k);
    ReplacedShape(l, k, r);
    AroundHeld(rs, k);
    ReplacedBytes(rs[..i], rs[i], r, rs[i + 1..]);
    ReplacedMap(rs[..i], rs[i], r, rs[i + 1..]);
  }

  lemma ReplacedBytes(a: seq<Record>, r: Record, r': Record, b: seq<Record>)
    ensures Bytes(a + [r'] + b) + |r.data| == Bytes(a + [r] + b) + |r'.data|
  {
    BytesAround(a, r, b);
    BytesAround(a, r', b);
  }

  lemma ReplacedMap(a: seq<Record>, r: Record, r': Record, b: seq<Record>)
    requires Below(a, r.rowId) && Above(b, r.rowId) && r.rowId == r'.rowId
    ensures var before, after := LiveMap(a + [r] + b), LiveMap(a + [r'] + b);
            after == if r'.deleted then before - {r.rowId} else before[r.rowId := r'.data]
  {
    hide LiveMap;
    Around(a, r, b);
    Around(a, r', b);
    KeySwapped(LiveMap(a + b), r.rowId, r.data, r'.data);
  }

  lemma KeySwapped(m: map<U64, seq<Byte>>, k: U64, x: seq<Byte>, y: seq<Byte>)
    requires k !in m
    ensures m[k := x] - {k} == m && m - {k} == m && m[k := x][k := y] == m[k := y]
  {
  }

  lemma BytesAround(a: seq<Record>, r: Record, b: seq<Record>)
    ensures Bytes(a + [r] + b) == Bytes(a) + RECORD_META_SIZE + |r.data| + Bytes(b)
  {
    BytesConcat(a + [r], b);
    BytesConcat(a, [r]);
    assert Bytes([r]) == RECORD_META_SIZE + |r.data|;
  }

  /** Taking over a tombstone compacts the page around the new payload. */
  lemma InsertReuse(l: Leaf, k: U64, payload: seq<Byte>)
    requires WellFormed(l) && |payload| <= MAX_VALUE_SIZE
    requires Holds(Ordered(l), k) && k !in Live(l)
    ensures var d := Insert(l, k, payload);
            && WellFormed(d.leaf)
            && (d.result.Ok? <==> HasRoom(l, k, payload))
            && (d.result.Err? ==> d.result == Err(Panic))
            && Live(d.leaf) == Live(l)[k := payload]
            && (d.result.Ok? ==> Fits(d.leaf) && d.leaf.freeSize == PAGE_SIZE - UsedBytes(d.leaf))
  {
    var rs, i, r := Ordered(l), LowerBound(Ordered(l), k), Record(k, payload, false);
    Lookup(rs, k);
    Replaced(l, k, r);
    AroundHeld(rs, k);
    LiveBytesGrow(rs[..i], rs[i], r, rs[i + 1..]);
    CompactLaw(l.(records := l.records[l.slots[i] := r]));
  }

  /** Insert adds an absent or tombstoned key when there is room, says why when it does not, and
      changes nothing unless it panics. */
  lemma InsertRefinesMap(l: Leaf, k: U64, payload: seq<Byte>)
    requires WellFormed(l)
    ensures var d := Insert(l, k, payload);
            && WellFormed(d.leaf)
            && (d.result.Ok? <==> |payload| <= MAX_VALUE_SIZE && k !in Live(l) && HasRoom(l, k, payload))
            && (d.result.Ok? ==> Live(d.leaf) == Live(l)[k := payload] && Fits(d.leaf))
            && (d.result.Err? && d.result.error != Panic ==> d.leaf == l)
            && (d.result == Err(TupleTooLarge(|payload|)) <==> |payload| > MAX_VALUE_SIZE)
            && (d.result == Err(DuplicateKey(k)) <==> |payload| <= MAX_VALUE_SIZE && k in Live(l))
            && (d.result == Err(PageFull) <==>
                  |payload| <= MAX_VALUE_SIZE && !Holds(Ordered(l), k) && !HasRoom(l, k, payload))
            && (d.result == Err(Panic) <==>
                  && |payload| <= MAX_VALUE_SIZE
                  && Holds(Ordered(l), k) && k !in Live(l) && !HasRoom(l, k, payload))
  {
    Lookup(Ordered(l), k);
    if |payload| <= MAX_VALUE_SIZE && k !in Live(l) {
      if Holds(Ordered(l), k) {
        InsertReuse(l, k, payload);
      } else {
        var rs, i := Ordered(l), LowerBound(Ordered(l), k);
        InsertFreshResult(l, k, payload);
        AroundAbsent(rs, k);
        Around(rs[..i], Record(k, payload, false), rs[i..]);
        if HasRoom(l, k, payload) { InsertFresh(l, k, payload); }
      }
    }
  }

  /** Update overwrites a key, silently also a tombstone; nothing checks that the page still fits. */
  lemma UpdateRefinesMap(l: Leaf, k: U64, payload: seq<Byte>)
    requires WellFormed(l)
    ensures var d := Update(l, k, payload);
            && WellFormed(d.leaf)
            && (d.result.Ok? <==> |payload| < MAX_VALUE_SIZE && Holds(Ordered(l), k))
            && (d.result.Ok? ==> Live(d.leaf) == if k in Live(l) then Live(l)[k := payload] else Live(l))
            && (d.result.Ok? ==>
                  (Fits(d.leaf) <==>
                   UsedBytes(l) + |payload| <= PAGE_SIZE + |Ordered(l)[LowerBound(Ordered(l), k)].data|))
            && (d.result.Err? ==> d.leaf == l)
            && (d.result == Err(KeyNotFound(k)) <==> |payload| < MAX_VALUE_SIZE && !Holds(Ordered(l), k))
            && (d.result == Err(TupleTooLarge(|payload|)) <==> |payload| >= MAX_VALUE_SIZE)
            && d.leaf == l.(records := d.leaf.records) && |d.leaf.records| == |l.records|
  {
    var rs, i := Ordered(l), LowerBound(Ordered(l), k);
    Lookup(rs, k);
    if Holds(rs, k) {
      Replaced(l, k, rs[i].(data := payload));
    }
  }

  lemma DeleteRefinesMap(l: Leaf, k: U64)
    requires WellFormed(l)
    ensures var d := Delete(l, k);
            && WellFormed(d.leaf)
            && (d.result.Ok? <==> Holds(Ordered(l), k))
            && (d.result.Ok? ==> Live(d.leaf) == Live(l) - {k} && UsedBytes(d.leaf) == UsedBytes(l))
            && (d.result.Err? ==> d == Done(l, Err(KeyNotFound(k))) && k !in Live(l))
            && d.leaf == l.(records := d.leaf.records) && |d.leaf.records| == |l.records|
  {
    var rs, i := Ordered(l), LowerBound(Ordered(l), k);
    Lookup(rs, k);
    if Holds(rs, k) {
      Replaced(l, k, rs[i].(deleted := true));
    }
  }

  lemma GetRefinesMap(l: Leaf, k: U64)
    requires WellFormed(l)
    ensures Get(l, k) == if k in Live(l) then Some(Live(l)[k]) else None
  {
    Lookup(Ordered(l), k);
  }

  // ----- splitting -----

  /** Cutting a list of records at any place cuts its map and its bytes in two. */
  lemma CutMeaning(rs: seq<Record>, m: nat)
    requires m <= |rs|
    ensures LiveMap(LiveOnly(rs[..m])) + LiveMap(LiveOnly(rs[m..])) == LiveMap(rs)
    ensures Bytes(rs[..m]) + Bytes(rs[m..]) == Bytes(rs)
  {
    hide LiveMap, LiveOnly, Bytes;
    Cut(rs, m);
    JoinMeaning(rs[..m], rs[m..]);
  }

  lemma JoinMeaning(a: seq<Record>, b: seq<Record>)
    ensures LiveMap(LiveOnly(a)) + LiveMap(LiveOnly(b)) == LiveMap(a + b)
    ensures Bytes(a) + Bytes(b) == Bytes(a + b)
  {
    hide LiveMap, LiveOnly, Bytes;
    LiveOnlyKeeps(a);
    LiveOnlyKeeps(b);
    LiveMapConcat(a, b);
    BytesConcat(a, b);
  }

  lemma CutAscends(rs: seq<Record>, m: nat)
    requires Ascending(rs) && m <= |rs|
    ensures Ascending(rs[..m]) && Ascending(rs[m..])
    ensures forall a, b :: a in rs[..m] && b in rs[m..] ==> a.rowId < b.rowId
  {
  }

  /** The first live record above the cut separates the keys of the two sides. */
  lemma CutKeys(rs: seq<Record>, m: nat, k: U64)
    requires Ascending(rs) && m <= |rs| && LiveOnly(rs[m..]) != []
    ensures var p := LiveOnly(rs[m..])[0].rowId;
            && (k in LiveMap(LiveOnly(rs[..m])) ==> k < p)
            && (k in LiveMap(LiveOnly(rs[m..])) ==> k >= p)
            && p in LiveMap(LiveOnly(rs[m..]))
  {
    var a, b := LiveOnly(rs[..m]), LiveOnly(rs[m..]);
    CutAscends(rs, m);
    LiveOnlyMembers(rs[..m]);
    LiveOnlyMembers(rs[m..]);
    LiveOnlyAscends(rs[m..]);
    if k in LiveMap(a) { LiveMapKeys(a, k); }
    if k in LiveMap(b) { LiveMapKeys(b, k); }
    assert b[0] in b;
    Lookup(b, b[0].rowId);
    LowerBoundUnique(b, b[0].rowId, 0);
  }

  /** A leaf nothing has been put into yet. */
  predicate Blank(l: Leaf) {
    l.slots == [] && l.records == []
  }

  /** A split leaves two compact leaves and reports the first key of the right one. */
  lemma SplitHalves(l: Leaf, sibling: Leaf)
    requires WellFormed(l) && Fits(l) && Blank(sibling)
    ensures var (lower, upper) := MoveUpper(l, sibling);
            && Indexed(upper) && |lower.slots| <= 0x1_0000 && |upper.slots| <= 0x1_0000
            && Ascending(Ordered(lower)) && Ascending(Ordered(upper)) && Fits(lower) && Fits(upper)
            && Ordered(lower) == Ordered(l)[..|l.slots| / 2]
            && Ordered(upper) == Ordered(l)[|l.slots| / 2..]
  {
    var rs, mid := Ordered(l), |l.slots| / 2;
    Grown(l, sibling);
    assert Ordered(sibling) + rs[mid..] == rs[mid..];
    CutMeaning(rs, mid);
    CutAscends(rs, mid);
  }

  /** A split into an empty sibling never panics; it cuts the live records at the middle slot, and
      fails exactly when no record of the upper half is live, by then having dropped that half. */
  lemma SplitLaw(l: Leaf, sibling: Leaf)
    requires WellFormed(l) && Fits(l) && Blank(sibling)
    ensures var h := Split(l, sibling);
            var lower, upper := LiveOnly(Ordered(l)[..|l.slots| / 2]), LiveOnly(Ordered(l)[|l.slots| / 2..]);
            && WellFormed(h.left) && Fits(h.left) && h.left.freeSize == PAGE_SIZE - UsedBytes(h.left)
            && WellFormed(h.right) && Fits(h.right) && h.right.freeSize == PAGE_SIZE - UsedBytes(h.right)
            && Ordered(h.left) == lower && Ordered(h.right) == upper
            && h.promoted == (if upper == [] then Err(CorruptPage(EmptyRightSibling)) else Ok(upper[0].rowId))
            && h.left == l.(slots := h.left.slots, records := h.left.records, freeSize := h.left.freeSize)
            && h.right == sibling.(slots := h.right.slots, records := h.right.records, freeSize := h.right.freeSize)
  {
    var (lower, upper) := MoveUpper(l, sibling);
    SplitHalves(l, sibling);
    CompactHalf(lower);
    CompactHalf(upper);
    CompactOrdered(upper);
  }

  /** Records that take more than a page, whatever else the page holds. */
  predicate Overflows(rs: seq<Record>) {
    LEAF_NODE_HEADER_SIZE + SlotArea(|rs|) + Bytes(rs) > PAGE_SIZE
  }

  /** What a split into an empty sibling reports of any leaf, an overflowing one included: it panics
      exactly when the live records of one half do not fit on a page. */
  lemma SplitOutcome(l: Leaf, sibling: Leaf)
    requires WellFormed(l) && Blank(sibling)
    ensures |sibling.records| + |l.slots| <= 0x1_0000
    ensures var lower, upper := LiveOnly(Ordered(l)[..|l.slots| / 2]), LiveOnly(Ordered(l)[|l.slots| / 2..]);
            Split(l, sibling).promoted ==
            if Overflows(lower) || Overflows(upper) then Err(Panic)
            else if upper == [] then Err(CorruptPage(EmptyRightSibling))
            else Ok(upper[0].rowId)
  {
    Grown(l, sibling);
    assert Ordered(sibling) + Ordered(l)[|l.slots| / 2..] == Ordered(l)[|l.slots| / 2..];
    hide Ordered, LiveOnly, Bytes, MoveUpper;
  }

  /** The two halves mean together what the leaf meant, with the promoted key between them. */
  lemma SplitMeaning(l: Leaf, sibling: Leaf, h: Halves, k: U64)
    requires WellFormed(l) && Fits(l) && Blank(sibling) && h == Split(l, sibling)
    ensures WellFormed(h.left) && WellFormed(h.right)
    ensures Live(h.left) + Live(h.right) == Live(l)
    ensures h.promoted.Ok? ==>
              && (k in Live(h.left) ==> k < h.promoted.value)
              && (k in Live(h.right) ==> k >= h.promoted.value)
              && h.promoted.value in Live(h.right)
  {
    SplitLaw(l, sibling);
    CutMeaning(Ordered(l), |l.slots| / 2);
    if h.promoted.Ok? {
      CutKeys(Ordered(l), |l.slots| / 2, k);
    }
  }

  /** Compaction of a part of a leaf, whose slots need not name every record. */
  lemma CompactHalf(l: Leaf)
    requires Indexed(l) && |l.slots| <= 0x1_0000 && Ascending(Ordered(l)) && Fits(l)
    ensures var c := Compact(l);
            && c.result.Ok? && WellFormed(c.leaf) && Fits(c.leaf)
            && Ordered(c.leaf) == LiveOnly(Ordered(l))
            && c.leaf.freeSize == PAGE_SIZE - UsedBytes(c.leaf)
  {
    CompactOrdered(l);
    LiveOnlyShrinks(Ordered(l));
    LiveOnlyAscends(Ordered(l));
  }

  // ----- the page budget -----

  predicate Bounded(rs: seq<Record>) {
    forall r :: r in rs ==> |r.data| <= MAX_VALUE_SIZE
  }

  lemma {:induction false} BytesAtLeast(rs: seq<Record>)
    ensures Bytes(rs) >= RECORD_META_SIZE * |rs|
  {
    if rs != [] { BytesAtLeast(rs[1..]); }
  }

  /** With every footprint (slot, metadata and payload) between low and high, so is their sum. */
  lemma {:induction false} BytesBetween(rs: seq<Record>, low: nat, high: nat)
    requires forall r :: r in rs ==> low <= SLOT_ELEM_SIZE + RECORD_META_SIZE + |r.data| <= high
    ensures low * |rs| <= Bytes(rs) + SlotArea(|rs|) <= high * |rs|
  {
    if rs != [] {
      BytesBetween(rs[1..], low, high);
      OneMore(low, |rs| - 1);
      OneMore(high, |rs| - 1);
    }
  }

  lemma OneMore(a: nat, n: nat)
    ensures a * (n + 1) == a + a * n
  {
  }

  /** A page that is full holds at least nine slots. */
  lemma PageFullMeansNine(l: Leaf, k: U64, payload: seq<Byte>)
    requires WellFormed(l) && Bounded(Ordered(l))
    requires Insert(l, k, payload).result == Err(PageFull)
    ensures |l.slots| >= 9
  {
    BytesBetween(Ordered(l), 15, 415);
    InsertRefinesMap(l, k, payload);
  }

  /** The half of a split leaf that key k belongs to. */
  function Half(h: Halves, k: U64): Leaf {
    if h.promoted.Ok? && k >= h.promoted.value then h.right else h.left
  }

  /** After a full page was split, inserting again works exactly when the half has the bytes. */
  lemma RetryFits(l: Leaf, sibling: Leaf, h: Halves, k: U64, payload: seq<Byte>)
    requires WellFormed(l) && Fits(l) && Blank(sibling) && h == Split(l, sibling)
    requires Insert(l, k, payload).result == Err(PageFull)
    ensures WellFormed(Half(h, k)) && !Holds(Ordered(Half(h, k)), k)
    ensures var again := Insert(Half(h, k), k, payload);
            && (again.result.Ok? <==> UsedBytes(Half(h, k)) + 17 + |payload| <= PAGE_SIZE)
            && (again.result.Err? ==> again == Done(Half(h, k), Err(PageFull)))
  {
    SplitLaw(l, sibling);
    InsertRefinesMap(l, k, payload);
    HalfMembers(l, sibling, h, k);
    if Holds(Ordered(Half(h, k)), k) {
      KeyIsHeld(Ordered(l), Ordered(Half(h, k))[LowerBound(Ordered(Half(h, k)), k)]);
    }
    InsertFreshResult(Half(h, k), k, payload);
  }

  lemma KeyIsHeld(rs: seq<Record>, r: Record)
    requires Ascending(rs) && r in rs
    ensures Holds(rs, r.rowId)
  {
    var i :| 0 <= i < |rs| && rs[i] == r;
    LowerBoundUnique(rs, r.rowId, i);
  }

  lemma HalfMembers(l: Leaf, sibling: Leaf, h: Halves, k: U64)
    requires WellFormed(l) && Fits(l) && Blank(sibling) && h == Split(l, sibling)
    ensures Indexed(Half(h, k))
    ensures forall r :: r in Ordered(Half(h, k)) ==> r in Ordered(l)
  {
    SplitLaw(l, sibling);
    LiveOnlyMembers(Ordered(l)[..|l.slots| / 2]);
    LiveOnlyMembers(Ordered(l)[|l.slots| / 2..]);
  }

  /** Splitting by count is enough while the largest footprint is at most 5/3 of the smallest. */
  lemma SplitSuffices(l: Leaf, sibling: Leaf, h: Halves, k: U64, payload: seq<Byte>, low: nat, high: nat)
    requires WellFormed(l) && Fits(l) && Blank(sibling) && h == Split(l, sibling)
    requires Insert(l, k, payload).result == Err(PageFull)
    requires forall r :: r in Ordered(l) ==> !r.deleted && low <= 15 + |r.data| <= high
    requires 15 + |payload| <= high <= 415 && 3 * high <= 5 * low
    ensures h.promoted.Ok?
    ensures Indexed(Half(h, k)) && Insert(Half(h, k), k, payload).result.Ok?
  {
    PageFullMeansNine(l, k, payload);
    HalfSize(l, sibling, h, k);
    HalfMembers(l, sibling, h, k);
    var half := Ordered(Half(h, k));
    BytesBetween(Ordered(l), low, high);
    BytesBetween(half, low, high);
    HalfBudget(|l.slots|, |half|, low, high);
    RetryFits(l, sibling, h, k, payload);
  }

  lemma HalfSize(l: Leaf, sibling: Leaf, h: Halves, k: U64)
    requires WellFormed(l) && Fits(l) && Blank(sibling) && h == Split(l, sibling)
    requires forall r :: r in Ordered(l) ==> !r.deleted
    ensures Indexed(Half(h, k)) && |Ordered(Half(h, k))| <= |l.slots| - |l.slots| / 2
    ensures h.promoted.Ok? <==> |l.slots| > 0
  {
    SplitLaw(l, sibling);
    CutKept(Ordered(l), |l.slots| / 2);
  }

  lemma CutKept(rs: seq<Record>, m: nat)
    requires m <= |rs| && forall r :: r in rs ==> !r.deleted
    ensures LiveOnly(rs[..m]) == rs[..m] && LiveOnly(rs[m..]) == rs[m..]
  {
    AllKept(rs[..m]);
    AllKept(rs[m..]);
  }

  lemma HalfBudget(n: nat, m: nat, low: nat, high: nat)
    requires m <= n - n / 2 && low * n <= 4055 && 3 * high <= 5 * low && high <= 415
    ensures high * m + high + 43 <= PAGE_SIZE
  {
    Scaled(3 * high, 5 * low, n);
    Scaled(2 * m, n + 1, high);
    assert 3 * (high * n) <= 5 * (low * n);
    assert 2 * (high * m) <= high * n + high;
  }

  lemma Scaled(a: nat, b: nat, c: nat)
    requires a <= b
    ensures a * c <= b * c
  {
  }

  lemma {:induction false} AllKept(rs: seq<Record>)
    requires forall i :: 0 <= i < |rs| ==> !rs[i].deleted
    ensures LiveOnly(rs) == rs
  {
    if rs != [] { AllKept(rs[1..]); }
  }
}
