/**
 The slotted leaf page as a value. Records sit in arrival order and the slot array lists them in
 key order, so almost everything that matters about a leaf is said by `Ordered`, the records
 read through the slots. The functions below say what each operation of a leaf does to its value;
 module LeafPages proves the in-place code equal to them.
 */
module Leaves {
  import opened Base

  const SLOT_ELEM_SIZE := 2
  const RECORD_META_SIZE := 13
  const MAX_VALUE_SIZE := 400
  const LEAF_NODE_HEADER_SIZE := 41
  const MAX_LEAF_NODE_CELLS := (PAGE_SIZE - LEAF_NODE_HEADER_SIZE) / (SLOT_ELEM_SIZE + RECORD_META_SIZE)

  /** The bytes of n slots. */
  function SlotArea(n: nat): (b: nat)
    ensures b == 2 * n
  {
    n * SLOT_ELEM_SIZE
  }

  datatype Record = Record(rowId: U64, data: seq<Byte>, deleted: bool)

  datatype Leaf = Leaf(
    pageId: PageId, lastLsn: U64,
    hasPrev: bool, hasNext: bool, prevId: PageId, nextId: PageId,
    slots: seq<U16>, records: seq<Record>, freeSize: U16, dirty: bool)

  /** A mutated leaf together with what the operation reported. */
  datatype Done<+T> = Done(leaf: Leaf, result: Result<T>)

  function EmptyLeaf(pageId: PageId): Leaf {
    Leaf(pageId, 0, false, false, 0, 0, [], [], 0, false)
  }

  // ----- the shape of a leaf -----

  predicate Indexed(l: Leaf) {
    forall i :: 0 <= i < |l.slots| ==> l.slots[i] < |l.records|
  }

  /** slots is a permutation of the indices below n. */
  predicate Permutes(slots: seq<U16>, n: nat) {
    && |slots| == n
    && (forall i :: 0 <= i < |slots| ==> slots[i] < n)
    && (forall i, j :: 0 <= i < j < |slots| ==> slots[i] != slots[j])
  }

  function Ordered(l: Leaf): (rs: seq<Record>)
    requires Indexed(l)
    ensures |rs| == |l.slots|
  {
    seq(|l.slots|, i requires 0 <= i < |l.slots| => l.records[l.slots[i]])
  }

  predicate Ascending(rs: seq<Record>) {
    forall i, j :: 0 <= i < j < |rs| ==> rs[i].rowId < rs[j].rowId
  }

  predicate WellFormed(l: Leaf) {
    && |l.records| <= 0x1_0000
    && Permutes(l.slots, |l.records|)
    && Ascending(Ordered(l))
  }

  /** The bytes the records of a list take in the page's footer. */
  function Bytes(rs: seq<Record>): nat {
    if rs == [] then 0 else RECORD_META_SIZE + |rs[0].data| + Bytes(rs[1..])
  }

  function UsedBytes(l: Leaf): nat
    requires Indexed(l)
  {
    LEAF_NODE_HEADER_SIZE + SlotArea(|l.slots|) + Bytes(Ordered(l))
  }

  predicate Fits(l: Leaf)
    requires Indexed(l)
  {
    UsedBytes(l) <= PAGE_SIZE
  }

  predicate Below(rs: seq<Record>, k: U64) {
    forall i :: 0 <= i < |rs| ==> rs[i].rowId < k
  }

  predicate Above(rs: seq<Record>, k: U64) {
    forall i :: 0 <= i < |rs| ==> k < rs[i].rowId
  }

  // ----- what a leaf means -----

  function Entry(r: Record): map<U64, seq<Byte>> {
    if r.deleted then map[] else map[r.rowId := r.data]
  }

  /** The live keys of a record list and their payloads. */
  function LiveMap(rs: seq<Record>): map<U64, seq<Byte>> {
    if rs == [] then map[] else Entry(rs[0]) + LiveMap(rs[1..])
  }

  function Live(l: Leaf): map<U64, seq<Byte>>
    requires Indexed(l)
  {
    LiveMap(Ordered(l))
  }

  function Kept(r: Record): seq<Record> {
    if r.deleted then [] else [r]
  }

  function LiveOnly(rs: seq<Record>): seq<Record> {
    if rs == [] then [] else Kept(rs[0]) + LiveOnly(rs[1..])
  }

  // ----- what the operations do -----

  /** The first position whose key is not below k: where binary search finds k or would insert it. */
  function LowerBound(rs: seq<Record>, k: U64): (i: nat)
    ensures i <= |rs|
    ensures forall j :: 0 <= j < i ==> rs[j].rowId < k
    ensures i < |rs| ==> k <= rs[i].rowId
  {
    if rs == [] || k <= rs[0].rowId then 0 else 1 + LowerBound(rs[1..], k)
  }

  predicate Holds(rs: seq<Record>, k: U64) {
    var i := LowerBound(rs, k);
    i < |rs| && rs[i].rowId == k
  }

  /** Consecutive slot numbers from a, as the code casts them to u16. */
  function Numbered(a: nat, n: nat): (s: seq<U16>)
    ensures |s| == n
  {
    seq(n, i requires 0 <= i < n => (a + i) % 0x1_0000)
  }

  function Compact(l: Leaf): Done<()>
    requires Indexed(l)
  {
    var clean := LiveOnly(Ordered(l));
    var l' := l.(records := clean, slots := Numbered(0, |clean|));
    var netSize := LEAF_NODE_HEADER_SIZE + Bytes(clean) + SlotArea(|clean|);
    if netSize <= PAGE_SIZE
    then Done(l'.(freeSize := PAGE_SIZE - netSize), Ok(()))
    else Done(l', Err(Panic))
  }

  datatype Halves = Halves(left: Leaf, right: Leaf, promoted: Result<U64>)

  /** Moves the upper half of l behind the records of sibling. */
  function MoveUpper(l: Leaf, sibling: Leaf): (r: (Leaf, Leaf))
    requires Indexed(l) && Indexed(sibling)
    ensures Indexed(r.0)
  {
    var mid := |l.slots| / 2;
    var moved := Ordered(l)[mid..];
    (l.(slots := l.slots[..mid]),
     sibling.(records := sibling.records + moved,
              slots := sibling.slots + Numbered(|sibling.records|, |moved|)))
  }

  function Split(l: Leaf, sibling: Leaf): Halves
    requires Indexed(l) && Indexed(sibling)
    requires |sibling.records| + |l.slots| <= 0x1_0000
  {
    var (lower, upper) := MoveUpper(l, sibling);
    var left := Compact(lower);
    if left.result.Err? then Halves(left.leaf, upper, Err(left.result.error))
    else
      assert Indexed(upper) by { Grown(l, sibling); }
      var right := Compact(upper);
      if right.result.Err? then Halves(left.leaf, right.leaf, Err(right.result.error))
      else if right.leaf.slots == [] then Halves(left.leaf, right.leaf, Err(CorruptPage(EmptyRightSibling)))
      else Halves(left.leaf, right.leaf, Ok(right.leaf.records[0].rowId))
  }

  /** The byte and slot count checks a fresh key of n payload bytes has to pass. */
  predicate RejectsAsFull(l: Leaf, n: nat)
    requires Indexed(l)
  {
    var required := SLOT_ELEM_SIZE + RECORD_META_SIZE + n;
    var headerLen := LEAF_NODE_HEADER_SIZE + SlotArea(|l.slots| + 1);
    headerLen + Bytes(Ordered(l)) + required > PAGE_SIZE || |l.slots| > MAX_LEAF_NODE_CELLS
  }

  function Insert(l: Leaf, k: U64, payload: seq<Byte>): Done<()>
    requires Indexed(l)
  {
    var rs := Ordered(l);
    var i := LowerBound(rs, k);
    if |payload| > MAX_VALUE_SIZE then Done(l, Err(TupleTooLarge(|payload|)))
    else if Holds(rs, k) then
      if !rs[i].deleted then Done(l, Err(DuplicateKey(k)))
      else Compact(l.(records := l.records[l.slots[i] := Record(k, payload, false)]))
    else if RejectsAsFull(l, |payload|) then Done(l, Err(PageFull))
    else
      var required := SLOT_ELEM_SIZE + RECORD_META_SIZE + |payload|;
      Done(l.(records := l.records + [Record(k, payload, false)],
              slots := l.slots[..i] + [|l.records| % 0x1_0000] + l.slots[i..],
              freeSize := if l.freeSize >= required then l.freeSize - required else 0),
           Ok(()))
  }

  function Update(l: Leaf, k: U64, payload: seq<Byte>): Done<()>
    requires Indexed(l)
  {
    var rs := Ordered(l);
    var i := LowerBound(rs, k);
    if |payload| >= MAX_VALUE_SIZE then Done(l, Err(TupleTooLarge(|payload|)))
    else if !Holds(rs, k) then Done(l, Err(KeyNotFound(k)))
    else Done(l.(records := l.records[l.slots[i] := rs[i].(data := payload)]), Ok(()))
  }

  function Delete(l: Leaf, k: U64): Done<()>
    requires Indexed(l)
  {
    var rs := Ordered(l);
    var i := LowerBound(rs, k);
    if !Holds(rs, k) then Done(l, Err(KeyNotFound(k)))
    else Done(l.(records := l.records[l.slots[i] := rs[i].(deleted := true)]), Ok(()))
  }

  function Get(l: Leaf, k: U64): Option<seq<Byte>>
    requires Indexed(l)
  {
    var rs := Ordered(l);
    var i := LowerBound(rs, k);
    if Holds(rs, k) && !rs[i].deleted then Some(rs[i].data) else None
  }

  /** What a leaf becomes when it is written to its page and read back. */
  function Reload(l: Leaf): Leaf
    requires Indexed(l) && Fits(l)
  {
    l.(freeSize := PAGE_SIZE - UsedBytes(l), dirty := false)
  }

  // ----- record lists -----

  lemma Grown(l: Leaf, sibling: Leaf)
    requires Indexed(l) && Indexed(sibling)
    requires |sibling.records| + |l.slots| <= 0x1_0000
    ensures Indexed(MoveUpper(l, sibling).1)
    ensures Ordered(MoveUpper(l, sibling).0) == Ordered(l)[..|l.slots| / 2]
    ensures Ordered(MoveUpper(l, sibling).1) == Ordered(sibling) + Ordered(l)[|l.slots| / 2..]
  {
    var (lower, upper) := MoveUpper(l, sibling);
    var n := |sibling.records|;
    forall i | 0 <= i < |upper.slots|
      ensures upper.slots[i] < |upper.records|
      ensures i < |sibling.slots| ==> upper.records[upper.slots[i]] == Ordered(sibling)[i]
      ensures i >= |sibling.slots| ==> upper.slots[i] == n + (i - |sibling.slots|)
    {
    }
    assert Ordered(upper) == Ordered(sibling) + Ordered(l)[|l.slots| / 2..];
  }

  lemma {:induction false} BytesConcat(a: seq<Record>, b: seq<Record>)
    ensures Bytes(a + b) == Bytes(a) + Bytes(b)
  {
    if a == [] {
      assert a + b == b;
    } else {
      BytesConcat(a[1..], b);
      assert (a + b)[1..] == a[1..] + b;
    }
  }

  lemma {:induction false} LiveOnlyConcat(a: seq<Record>, b: seq<Record>)
    ensures LiveOnly(a + b) == LiveOnly(a) + LiveOnly(b)
  {
    if a == [] {
      assert a + b == b;
    } else {
      assert (a + b)[1..] == a[1..] + b;
      calc {
        LiveOnly(a + b);
        Kept(a[0]) + LiveOnly(a[1..] + b);
        { LiveOnlyConcat(a[1..], b); }
        Kept(a[0]) + (LiveOnly(a[1..]) + LiveOnly(b));
        (Kept(a[0]) + LiveOnly(a[1..])) + LiveOnly(b);
      }
    }
  }

  lemma BytesStep(rs: seq<Record>, i: nat)
    requires i < |rs|
    ensures Bytes(rs[..i + 1]) == Bytes(rs[..i]) + RECORD_META_SIZE + |rs[i].data|
  {
    assert rs[..i + 1] == rs[..i] + [rs[i]];
    BytesConcat(rs[..i], [rs[i]]);
    assert Bytes([rs[i]]) == RECORD_META_SIZE + |rs[i].data|;
  }

  lemma LiveOnlyStep(rs: seq<Record>, i: nat)
    requires i < |rs|
    ensures LiveOnly(rs[..i + 1]) == LiveOnly(rs[..i]) + Kept(rs[i])
    ensures Bytes(LiveOnly(rs[..i + 1])) == Bytes(LiveOnly(rs[..i])) + Bytes(Kept(rs[i]))
  {
    assert rs[..i + 1] == rs[..i] + [rs[i]];
    LiveOnlyConcat(rs[..i], [rs[i]]);
    assert LiveOnly([rs[i]]) == Kept(rs[i]) + [] == Kept(rs[i]);
    BytesConcat(LiveOnly(rs[..i]), Kept(rs[i]));
  }

  lemma KeptBytes(r: Record)
    ensures Bytes(Kept(r)) == if r.deleted then 0 else RECORD_META_SIZE + |r.data|
  {
  }

  lemma MapAssoc(a: map<U64, seq<Byte>>, b: map<U64, seq<Byte>>, c: map<U64, seq<Byte>>)
    ensures a + (b + c) == (a + b) + c
  {
  }

  lemma {:induction false} LiveMapConcat(a: seq<Record>, b: seq<Record>)
    ensures LiveMap(a + b) == LiveMap(a) + LiveMap(b)
  {
    if a == [] {
      assert a + b == b;
      assert map[] + LiveMap(b) == LiveMap(b);
    } else {
      assert (a + b)[1..] == a[1..] + b;
      LiveMapConcat(a[1..], b);
      MapAssoc(Entry(a[0]), LiveMap(a[1..]), LiveMap(b));
    }
  }

  /** Live keys are keys of live records. */
  lemma {:induction false} LiveMapKeys(rs: seq<Record>, k: U64)
    requires k in LiveMap(rs)
    ensures exists i :: 0 <= i < |rs| && rs[i].rowId == k && !rs[i].deleted
  {
    if k in LiveMap(rs[1..]) {
      LiveMapKeys(rs[1..], k);
      var i :| 0 <= i < |rs[1..]| && rs[1..][i].rowId == k && !rs[1..][i].deleted;
      assert rs[i + 1] == rs[1..][i];
    } else {
      assert rs[0].rowId == k && !rs[0].deleted;
    }
  }

  lemma NoKey(rs: seq<Record>, k: U64)
    requires Below(rs, k) || Above(rs, k)
    ensures k !in LiveMap(rs)
  {
    if k in LiveMap(rs) { LiveMapKeys(rs, k); }
  }

  lemma EntryBetween(x: map<U64, seq<Byte>>, r: Record, y: map<U64, seq<Byte>>)
    requires r.rowId !in y
    ensures (x + Entry(r)) + y == if r.deleted then x + y else (x + y)[r.rowId := r.data]
  {
  }

  /** The map of a list around the only record that can hold k. */
  lemma Around(a: seq<Record>, r: Record, b: seq<Record>)
    requires Below(a, r.rowId) && Above(b, r.rowId)
    ensures r.rowId !in LiveMap(a + b)
    ensures LiveMap(a + [r] + b) ==
            if r.deleted then LiveMap(a + b) else LiveMap(a + b)[r.rowId := r.data]
  {
    NoKey(a, r.rowId);
    NoKey(b, r.rowId);
    LiveMapConcat(a, b);
    calc {
      LiveMap(a + [r] + b);
      { LiveMapConcat(a + [r], b); }
      LiveMap(a + [r]) + LiveMap(b);
      { LiveMapConcat(a, [r]); }
      (LiveMap(a) + LiveMap([r])) + LiveMap(b);
      { assert LiveMap([r]) == Entry(r) + map[] == Entry(r); }
      (LiveMap(a) + Entry(r)) + LiveMap(b);
    }
    EntryBetween(LiveMap(a), r, LiveMap(b));
  }

  lemma {:induction false} LiveOnlyMembers(rs: seq<Record>)
    ensures forall r :: r in LiveOnly(rs) <==> r in rs && !r.deleted
  {
    if rs != [] {
      LiveOnlyMembers(rs[1..]);
      assert rs == [rs[0]] + rs[1..];
    }
  }

  /** Dropping tombstones keeps the meaning. */
  lemma {:induction false} LiveOnlyKeeps(rs: seq<Record>)
    ensures LiveMap(LiveOnly(rs)) == LiveMap(rs)
  {
    if rs != [] {
      LiveOnlyKeeps(rs[1..]);
      if rs[0].deleted {
        assert LiveOnly(rs) == LiveOnly(rs[1..]);
        assert map[] + LiveMap(rs[1..]) == LiveMap(rs[1..]);
      } else {
        assert LiveOnly(rs)[1..] == LiveOnly(rs[1..]);
      }
    }
  }

  /** Dropping tombstones never takes more room. */
  lemma {:induction false} LiveOnlyShrinks(rs: seq<Record>)
    ensures |LiveOnly(rs)| <= |rs| && Bytes(LiveOnly(rs)) <= Bytes(rs)
  {
    if rs != [] {
      LiveOnlyShrinks(rs[1..]);
      if rs[0].deleted {
        assert LiveOnly(rs) == LiveOnly(rs[1..]);
      } else {
        assert LiveOnly(rs)[1..] == LiveOnly(rs[1..]);
      }
    }
  }

  lemma {:induction false} LiveOnlyAscends(rs: seq<Record>)
    requires Ascending(rs)
    ensures Ascending(LiveOnly(rs))
  {
    if rs != [] {
      LiveOnlyAscends(rs[1..]);
      LiveOnlyMembers(rs[1..]);
      var rest := LiveOnly(rs[1..]);
      forall j | 0 <= j < |rest| ensures rs[0].rowId < rest[j].rowId {
        assert rest[j] in rs[1..];
      }
    }
  }

  /** In a list sorted by key the lower bound is the only place a key can be. */
  lemma LowerBoundUnique(rs: seq<Record>, k: U64, i: nat)
    requires i <= |rs| && (forall j :: 0 <= j < i ==> rs[j].rowId < k) && (i < |rs| ==> k <= rs[i].rowId)
    ensures i == LowerBound(rs, k)
  {
  }

  lemma Cut<T>(s: seq<T>, i: nat)
    requires i <= |s|
    ensures s[..i] + s[i..] == s
  {
  }

  lemma CutAround<T>(s: seq<T>, i: nat)
    requires i < |s|
    ensures s[..i] + [s[i]] + s[i + 1..] == s
  {
  }

  lemma AboveFrom(rs: seq<Record>, k: U64, i: nat)
    requires Ascending(rs) && i <= |rs| && (i < |rs| ==> k < rs[i].rowId)
    ensures Above(rs[i..], k)
  {
    forall j | 0 <= j < |rs[i..]| ensures k < rs[i..][j].rowId {
      if j > 0 { assert rs[i].rowId < rs[i + j].rowId; }
    }
  }

  /** A sorted list around the key it holds. */
  lemma AroundHeld(rs: seq<Record>, k: U64)
    requires Ascending(rs) && Holds(rs, k)
    ensures var i := LowerBound(rs, k);
            Below(rs[..i], k) && Above(rs[i + 1..], k) && rs[..i] + [rs[i]] + rs[i + 1..] == rs
  {
    var i := LowerBound(rs, k);
    CutAround(rs, i);
    AboveFrom(rs, k, i + 1);
  }

  /** A sorted list around the place of a key it does not hold. */
  lemma AroundAbsent(rs: seq<Record>, k: U64)
    requires Ascending(rs) && !Holds(rs, k)
    ensures var i := LowerBound(rs, k);
            Below(rs[..i], k) && Above(rs[i..], k) && rs[..i] + rs[i..] == rs
  {
    var i := LowerBound(rs, k);
    Cut(rs, i);
    AboveFrom(rs, k, i);
  }

  /** Looking a key up at its lower bound is looking it up in the map. */
  lemma Lookup(rs: seq<Record>, k: U64)
    requires Ascending(rs)
    ensures k in LiveMap(rs) <==> Holds(rs, k) && !rs[LowerBound(rs, k)].deleted
    ensures k in LiveMap(rs) ==> LiveMap(rs)[k] == rs[LowerBound(rs, k)].data
  {
    var i := LowerBound(rs, k);
    if Holds(rs, k) {
      AroundHeld(rs, k);
      Around(rs[..i], rs[i], rs[i + 1..]);
    } else {
      AroundAbsent(rs, k);
      NoKey(rs[..i], k);
      NoKey(rs[i..], k);
      LiveMapConcat(rs[..i], rs[i..]);
    }
  }

  // ----- how the operations read through the slots -----

  /** Compaction keeps exactly the live records, in key order and renumbered from zero. */
  lemma CompactOrdered(l: Leaf)
    requires Indexed(l) && |l.slots| <= 0x1_0000
    ensures var c := Compact(l);
            && Indexed(c.leaf)
            && Ordered(c.leaf) == LiveOnly(Ordered(l)) == c.leaf.records
            && Permutes(c.leaf.slots, |c.leaf.records|)
            && |c.leaf.records| <= |l.slots|
            && (c.result.Ok? <==> Fits(c.leaf))
            && (c.result.Err? ==> c.result == Err(Panic))
  {
    LiveOnlyShrinks(Ordered(l));
    var l' := Compact(l).leaf;
    assert forall i :: 0 <= i < |l'.slots| ==> l'.slots[i] == i;
    assert Ordered(l') == l'.records;
  }

  /** A list that is another one with x put in at position i. */
  lemma InsertedAt<T>(s: seq<T>, s': seq<T>, i: nat, x: T)
    requires i <= |s| && |s'| == |s| + 1 && s'[i] == x
    requires forall j :: 0 <= j < i ==> s'[j] == s[j]
    requires forall j :: i < j < |s'| ==> s'[j] == s[j - 1]
    ensures s' == s[..i] + [x] + s[i..]
  {
    assert s'[..i] == s[..i];
    assert s'[i + 1..] == s[i..];
  }

  lemma InsertedIndex(slots: seq<U16>, i: nat, n: U16)
    requires i <= |slots| && forall j :: 0 <= j < |slots| ==> slots[j] < n
    ensures var slots' := slots[..i] + [n] + slots[i..];
            && |slots'| == |slots| + 1 && slots'[i] == n
            && (forall j :: 0 <= j < i ==> slots'[j] == slots[j])
            && (forall j :: i < j < |slots'| ==> slots'[j] == slots[j - 1])
            && (Permutes(slots, n) ==> Permutes(slots', n + 1))
  {
  }

  lemma InsertedOrdered(l: Leaf, i: nat, r: Record)
    requires Indexed(l) && i <= |l.slots| && |l.records| < 0x1_0000
    ensures var l' := l.(records := l.records + [r],
                         slots := l.slots[..i] + [|l.records| % 0x1_0000] + l.slots[i..]);
            && Indexed(l')
            && Ordered(l') == Ordered(l)[..i] + [r] + Ordered(l)[i..]
            && (Permutes(l.slots, |l.records|) ==> Permutes(l'.slots, |l'.records|))
  {
    hide Permutes;
    var l' := l.(records := l.records + [r],
                 slots := l.slots[..i] + [|l.records| % 0x1_0000] + l.slots[i..]);
    InsertedIndex(l.slots, i, |l.records|);
    InsertedAt(Ordered(l), Ordered(l'), i, r);
  }

  lemma ReplacedOrdered(l: Leaf, i: nat, r: Record)
    requires Permutes(l.slots, |l.records|) && i < |l.slots|
    ensures var l' := l.(records := l.records[l.slots[i] := r]);
            && Indexed(l')
            && Ordered(l') == Ordered(l)[i := r] == Ordered(l)[..i] + [r] + Ordered(l)[i + 1..]
  {
    var l' := l.(records := l.records[l.slots[i] := r]);
    forall j | 0 <= j < |l.slots| ensures Ordered(l')[j] == Ordered(l)[i := r][j] {
      if j < i { assert l.slots[j] != l.slots[i]; }
      if i < j { assert l.slots[i] != l.slots[j]; }
    }
  }
}
