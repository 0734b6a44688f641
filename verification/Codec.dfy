/** The 4096-byte image of a node: header and slots from the front, cells in slot order at the back,
    and a gap between them that is skipped on both sides. */
module Codec {
  import opened Base
  import opened Leaves
  import opened Nodes

  // ----- images -----

  function SlotBytes(slots: seq<U16>): (b: seq<Byte>)
    ensures |b| == SlotArea(|slots|)
  {
    if slots == [] then [] else LE(2, slots[0]) + SlotBytes(slots[1..])
  }

  function RecordBytes(r: Record): (b: seq<Byte>)
    ensures |b| == RECORD_META_SIZE + |r.data|
  {
    LE(8, r.rowId) + [Bit(r.deleted)] + LE(4, |r.data|) + r.data
  }

  function BodyBytes(rs: seq<Record>): (b: seq<Byte>)
    ensures |b| == Bytes(rs)
  {
    if rs == [] then [] else RecordBytes(rs[0]) + BodyBytes(rs[1..])
  }

  function RouteEntryBytes(e: IndexEntry): (b: seq<Byte>)
    ensures |b| == INDEX_ENTRY_SIZE
  {
    LE(8, e.key) + LE(8, e.child)
  }

  function RouteBytes(es: seq<IndexEntry>): (b: seq<Byte>)
    ensures |b| == EntryArea(|es|)
  {
    if es == [] then [] else RouteEntryBytes(es[0]) + RouteBytes(es[1..])
  }

  function LeafHeader(l: Leaf): (b: seq<Byte>)
    ensures |b| == 39
  {
    [1] + LE(8, l.pageId) + LE(8, l.lastLsn) + [Bit(l.hasPrev)] + [Bit(l.hasNext)]
    + LE(8, l.prevId) + LE(8, l.nextId) + LE(4, |l.slots|)
  }

  function InnerHeader(p: Inner): (b: seq<Byte>)
    ensures |b| == 29
  {
    [0] + LE(8, p.pageId) + LE(8, p.lastLsn) + LE(8, p.rightmost) + LE(4, |p.slots|)
  }

  function Header(n: Node): seq<Byte> {
    match n
    case InnerNode(p) => InnerHeader(p)
    case LeafNode(l) => LeafHeader(l)
  }

  function Slots(n: Node): seq<U16> {
    match n
    case InnerNode(p) => p.slots
    case LeafNode(l) => l.slots
  }

  function Footer(n: Node): (b: seq<Byte>)
    requires NodeIndexed(n)
    ensures NodeBytes(n) == |Header(n)| + SlotArea(|Slots(n)|) + 2 + |b|
  {
    match n
    case InnerNode(p) => RouteBytes(Routes(p))
    case LeafNode(l) => BodyBytes(Ordered(l))
  }

  function Front(n: Node): (b: seq<Byte>)
    requires NodeIndexed(n) && NodeFits(n)
    ensures |b| + |Footer(n)| == NodeBytes(n)
  {
    Header(n) + SlotBytes(Slots(n)) + LE(2, PAGE_SIZE - NodeBytes(n))
  }

  /** The page after writing n over a buffer that held was. */
  function Image(n: Node, was: seq<Byte>): (b: seq<Byte>)
    requires NodeIndexed(n) && NodeFits(n) && |was| == PAGE_SIZE
    ensures |b| == PAGE_SIZE
  {
    Front(n) + was[|Front(n)|..PAGE_SIZE - |Footer(n)|] + Footer(n)
  }

  function Encode(n: Node, was: seq<Byte>): (r: Result<seq<Byte>>)
    requires NodeIndexed(n) && |was| == PAGE_SIZE
    ensures r.Ok? ==> |r.value| == PAGE_SIZE
  {
    if NodeFits(n) then Ok(Image(n, was)) else Err(PageFull)
  }

  // ----- reading an image -----

  /** Reads n slots behind acc; None when the buffer ends first. */
  function ParseSlots(rest: seq<Byte>, n: nat, acc: seq<U16>): Option<(seq<U16>, seq<Byte>)>
    decreases n
  {
    if n == 0 then Some((acc, rest))
    else if |rest| < 2 then None
    else ParseSlots(rest[2..], n - 1, acc + [Num16(rest[..2])])
  }

  /** Reads one record per slot into the cell the slot names. */
  function ParseRecords(rest: seq<Byte>, slots: seq<U16>, cells: seq<Record>): Option<seq<Record>>
    decreases |slots|
  {
    if slots == [] then Some(cells)
    else if |rest| < RECORD_META_SIZE then None
    else
      var size := Num32(rest[9..13]);
      if |rest| < RECORD_META_SIZE + size || slots[0] >= |cells| then None
      else
        var r := Record(Num64(rest[..8]), rest[13..13 + size], rest[8] != 0);
        ParseRecords(rest[13 + size..], slots[1..], cells[slots[0] := r])
  }

  function ParseEntries(rest: seq<Byte>, slots: seq<U16>, cells: seq<IndexEntry>): Option<seq<IndexEntry>>
    decreases |slots|
  {
    if slots == [] then Some(cells)
    else if |rest| < INDEX_ENTRY_SIZE || slots[0] >= |cells| then None
    else ParseEntries(rest[16..], slots[1..], cells[slots[0] := IndexEntry(Num64(rest[..8]), Num64(rest[8..16]))])
  }

  const NO_RECORD := Record(0, [], false)
  const NO_ENTRY := IndexEntry(0, 0)

  /** What is left after skipping n bytes; nothing can be read past the end. */
  function Skip(rest: seq<Byte>, n: nat): seq<Byte> {
    if n <= |rest| then rest[n..] else []
  }

  function DecodeLeaf(b: seq<Byte>): Result<Node>
    requires |b| == PAGE_SIZE
  {
    var count := Num32(b[35..39]);
    match ParseSlots(b[39..], count, [])
    case None => Err(Panic)
    case Some((slots, rest)) =>
      if |rest| < 2 then Err(Panic)
      else
        var freeSize := Num16(rest[..2]);
        match ParseRecords(Skip(rest[2..], freeSize), slots, seq(|slots|, _ => NO_RECORD))
        case None => Err(Panic)
        case Some(cells) =>
          Ok(LeafNode(Leaf(Num64(b[1..9]), Num64(b[9..17]), b[17] != 0, b[18] != 0,
                           Num64(b[19..27]), Num64(b[27..35]), slots, cells, freeSize, false)))
  }

  function DecodeInner(b: seq<Byte>): Result<Node>
    requires |b| == PAGE_SIZE
  {
    var count := Num32(b[25..29]);
    match ParseSlots(b[29..], count, [])
    case None => Err(Panic)
    case Some((slots, rest)) =>
      if |rest| < 2 then Err(Panic)
      else
        var freeSize := Num16(rest[..2]);
        match ParseEntries(Skip(rest[2..], freeSize), slots, seq(|slots|, _ => NO_ENTRY))
        case None => Err(Panic)
        case Some(cells) =>
          Ok(InnerNode(Inner(Num64(b[1..9]), Num64(b[9..17]), Num64(b[17..25]), slots, cells, freeSize, false)))
  }

  function Decode(b: seq<Byte>): Result<Node>
    requires |b| == PAGE_SIZE
  {
    if b[0] == 1 then DecodeLeaf(b)
    else if b[0] == 0 then DecodeInner(b)
    else Err(CorruptPage(UnknownNodeType))
  }

  /** A page is refused as corrupt exactly when its first byte names no kind of node; reading any other
      that does not hold what its header promises runs off the page and panics. */
  lemma DecodeErrors(b: seq<Byte>)
    requires |b| == PAGE_SIZE
    ensures Decode(b) == Err(CorruptPage(UnknownNodeType)) <==> b[0] > 1
    ensures Decode(b).Err? && b[0] <= 1 ==> Decode(b).error == Panic
    ensures Decode(b).Ok? ==> (Decode(b).value.LeafNode? <==> b[0] == 1) && !IsDirty(Decode(b).value)
  {
    hide ParseSlots, ParseRecords, ParseEntries, FromLE, Skip;
  }

  // ----- round trip -----

  lemma {:induction false} SlotsBack(slots: seq<U16>, tail: seq<Byte>, acc: seq<U16>)
    ensures ParseSlots(SlotBytes(slots) + tail, |slots|, acc) == Some((acc + slots, tail))
  {
    if slots == [] {
      assert SlotBytes(slots) + tail == tail;
      assert acc + slots == acc;
    } else {
      var b := SlotBytes(slots) + tail;
      assert b[..2] == LE(2, slots[0]);
      assert b[2..] == SlotBytes(slots[1..]) + tail;
      Fits16(slots[0]);
      SlotsBack(slots[1..], tail, acc + [slots[0]]);
      assert acc + [slots[0]] + slots[1..] == acc + slots;
    }
  }

  /** The cells after storing each item of a list in the cell its slot names. */
  function Fill<T>(cells: seq<T>, slots: seq<U16>, items: seq<T>): (r: seq<T>)
    requires |slots| == |items| && forall i :: 0 <= i < |slots| ==> slots[i] < |cells|
    ensures |r| == |cells|
    decreases |slots|
  {
    if slots == [] then cells else Fill(cells[slots[0] := items[0]], slots[1..], items[1..])
  }

  lemma {:induction false} RecordsBack(rs: seq<Record>, tail: seq<Byte>, slots: seq<U16>, cells: seq<Record>)
    requires |slots| == |rs| && Bytes(rs) <= PAGE_SIZE
    requires forall i :: 0 <= i < |slots| ==> slots[i] < |cells|
    ensures ParseRecords(BodyBytes(rs) + tail, slots, cells) == Some(Fill(cells, slots, rs))
    decreases |rs|
  {
    if rs != [] {
      var r, rest := rs[0], BodyBytes(rs[1..]) + tail;
      Associates(RecordBytes(r), BodyBytes(rs[1..]), tail);
      RecordBack(r, rest);
      RecordsBack(rs[1..], tail, slots[1..], cells[slots[0] := r]);
    }
  }

  lemma RecordBack(r: Record, rest: seq<Byte>)
    requires |r.data| <= PAGE_SIZE
    ensures var b := RecordBytes(r) + rest;
            && Num64(b[..8]) == r.rowId && (b[8] != 0 <==> r.deleted)
            && Num32(b[9..13]) == |r.data|
            && b[13..13 + |r.data|] == r.data && b[13 + |r.data|..] == rest
  {
    var b := RecordBytes(r) + rest;
    assert b[..8] == LE(8, r.rowId);
    assert b[9..13] == LE(4, |r.data|);
    Fits64(r.rowId);
    Fits32(|r.data|);
  }

  lemma {:induction false} EntriesBack(es: seq<IndexEntry>, tail: seq<Byte>, slots: seq<U16>, cells: seq<IndexEntry>)
    requires |slots| == |es|
    requires forall i :: 0 <= i < |slots| ==> slots[i] < |cells|
    ensures ParseEntries(RouteBytes(es) + tail, slots, cells) == Some(Fill(cells, slots, es))
    decreases |es|
  {
    if es != [] {
      var e, rest := es[0], RouteBytes(es[1..]) + tail;
      Associates(RouteEntryBytes(e), RouteBytes(es[1..]), tail);
      RouteEntryBack(e, rest);
      EntriesBack(es[1..], tail, slots[1..], cells[slots[0] := e]);
    }
  }

  lemma RouteEntryBack(e: IndexEntry, rest: seq<Byte>)
    ensures var b := RouteEntryBytes(e) + rest;
            Num64(b[..8]) == e.key && Num64(b[8..16]) == e.child && b[16..] == rest
  {
    var b := RouteEntryBytes(e) + rest;
    assert b[..8] == LE(8, e.key);
    assert b[8..16] == LE(8, e.child);
    Fits64(e.key);
    Fits64(e.child);
  }

  // ----- permutations -----

  function Cells(n: nat): (s: set<nat>)
    ensures |s| == n && forall c: nat :: c in s <==> c < n
  {
    if n == 0 then {} else Cells(n - 1) + {n - 1}
  }

  /** The cells the first m slots name. */
  function Named(slots: seq<U16>, m: nat): (s: set<nat>)
    requires m <= |slots|
    ensures forall c: nat :: c in s <==> exists i :: 0 <= i < m && slots[i] == c
  {
    if m == 0 then {} else Named(slots, m - 1) + {slots[m - 1]}
  }

  lemma {:induction false} NamedCount(slots: seq<U16>, m: nat)
    requires m <= |slots| && forall i, j :: 0 <= i < j < |slots| ==> slots[i] != slots[j]
    ensures |Named(slots, m)| == m
  {
    if m > 0 { NamedCount(slots, m - 1); }
  }

  /** A permutation names every cell. */
  lemma PermutationCovers(slots: seq<U16>, n: nat, c: nat)
    requires Permutes(slots, n) && c < n
    ensures exists i :: 0 <= i < n && slots[i] == c
  {
    NamedCount(slots, n);
    if c !in Named(slots, n) {
      SubsetCount(Named(slots, n), Cells(n) - {c});
    }
  }

  lemma {:induction false} FillKeeps<T>(cells: seq<T>, slots: seq<U16>, items: seq<T>, c: nat)
    requires |slots| == |items| && (forall i :: 0 <= i < |slots| ==> slots[i] < |cells|)
    requires c < |cells| && forall i :: 0 <= i < |slots| ==> slots[i] != c
    ensures Fill(cells, slots, items)[c] == cells[c]
    decreases |slots|
  {
    if slots != [] {
      FillKeeps(cells[slots[0] := items[0]], slots[1..], items[1..], c);
    }
  }

  lemma {:induction false} FillAt<T>(cells: seq<T>, slots: seq<U16>, items: seq<T>, i: nat)
    requires |slots| == |items| && (forall i :: 0 <= i < |slots| ==> slots[i] < |cells|)
    requires forall i, j :: 0 <= i < j < |slots| ==> slots[i] != slots[j]
    requires i < |slots|
    ensures Fill(cells, slots, items)[slots[i]] == items[i]
    decreases |slots|
  {
    var cells' := cells[slots[0] := items[0]];
    if i == 0 {
      FillKeeps(cells', slots[1..], items[1..], slots[0]);
    } else {
      FillAt(cells', slots[1..], items[1..], i - 1);
    }
  }

  /** Storing the cells of a permutation back in their places restores them all. */
  lemma FillRestores<T>(cells: seq<T>, slots: seq<U16>, items: seq<T>, was: seq<T>)
    requires Permutes(slots, |was|) && |cells| == |was| == |items|
    requires forall i :: 0 <= i < |slots| ==> items[i] == was[slots[i]]
    ensures Fill(cells, slots, items) == was
  {
    forall c | 0 <= c < |was| ensures Fill(cells, slots, items)[c] == was[c] {
      PermutationCovers(slots, |was|, c);
      var i :| 0 <= i < |slots| && slots[i] == c;
      FillAt(cells, slots, items, i);
    }
  }

  // ----- the theorem -----

  lemma LeafHeaderBack(l: Leaf, tail: seq<Byte>)
    requires |l.slots| <= PAGE_SIZE
    ensures var b := LeafHeader(l) + tail;
            && b[0] == 1 && Num64(b[1..9]) == l.pageId && Num64(b[9..17]) == l.lastLsn
            && (b[17] != 0 <==> l.hasPrev) && (b[18] != 0 <==> l.hasNext)
            && Num64(b[19..27]) == l.prevId && Num64(b[27..35]) == l.nextId
            && Num32(b[35..39]) == |l.slots| && b[39..] == tail
  {
    var b := LeafHeader(l) + tail;
    assert b[1..9] == LE(8, l.pageId);
    assert b[9..17] == LE(8, l.lastLsn);
    assert b[19..27] == LE(8, l.prevId);
    assert b[27..35] == LE(8, l.nextId);
    assert b[35..39] == LE(4, |l.slots|);
    Fits64(l.pageId);
    Fits64(l.lastLsn);
    Fits64(l.prevId);
    Fits64(l.nextId);
    Fits32(|l.slots|);
  }

  lemma InnerHeaderBack(p: Inner, tail: seq<Byte>)
    requires |p.slots| <= PAGE_SIZE
    ensures var b := InnerHeader(p) + tail;
            && b[0] == 0 && Num64(b[1..9]) == p.pageId && Num64(b[9..17]) == p.lastLsn
            && Num64(b[17..25]) == p.rightmost && Num32(b[25..29]) == |p.slots| && b[29..] == tail
  {
    var b := InnerHeader(p) + tail;
    assert b[1..9] == LE(8, p.pageId);
    assert b[9..17] == LE(8, p.lastLsn);
    assert b[17..25] == LE(8, p.rightmost);
    assert b[25..29] == LE(4, |p.slots|);
    Fits64(p.pageId);
    Fits64(p.lastLsn);
    Fits64(p.rightmost);
    Fits32(|p.slots|);
  }

  /** The parts of an image behind its header. */
  lemma ImageParts(n: Node, was: seq<Byte>)
    requires NodeIndexed(n) && NodeFits(n) && |was| == PAGE_SIZE
    ensures var free := PAGE_SIZE - NodeBytes(n);
            var gap := was[|Front(n)|..PAGE_SIZE - |Footer(n)|];
            && |gap| == free
            && Image(n, was) == Header(n) + (SlotBytes(Slots(n)) + (LE(2, free) + (gap + Footer(n))))
  {
    hide Header, SlotBytes, Footer, NodeBytes, LE;
    var free := PAGE_SIZE - NodeBytes(n);
    var gap := was[|Front(n)|..PAGE_SIZE - |Footer(n)|];
    Regroup(Header(n), SlotBytes(Slots(n)), LE(2, free), gap, Footer(n));
  }

  lemma Regroup(a: seq<Byte>, b: seq<Byte>, c: seq<Byte>, d: seq<Byte>, e: seq<Byte>)
    ensures a + b + c + d + e == a + (b + (c + (d + e)))
  {
    Associates(a + b + c, d, e);
    Associates(a + b, c, d + e);
    Associates(a, b, c + (d + e));
  }

  lemma GapBack(free: U16, gap: seq<Byte>, footer: seq<Byte>)
    requires |gap| == free
    ensures var rest := LE(2, free) + (gap + footer);
            Num16(rest[..2]) == free && Skip(rest[2..], free) == footer
  {
    var rest := LE(2, free) + (gap + footer);
    assert rest[..2] == LE(2, free);
    assert rest[2..] == gap + footer;
    Fits16(free);
  }

  /** Decoding what was encoded gives back the same node, records and tombstones in their places,
      with only the free-byte counter recomputed and the dirty flag cleared. */
  lemma RoundTrip(n: Node, was: seq<Byte>)
    requires NodeWell(n) && NodeFits(n) && |was| == PAGE_SIZE
    ensures Decode(Image(n, was)) == Ok(Reloaded(n))
  {
    hide Decode, Image, LeafHeader, InnerHeader, SlotBytes, LE, FromLE, Ascending, ParseSlots, Skip;
    var tail, rest := PartsBack(n, was);
    match n {
      case LeafNode(l) => LeafBack(l, tail, rest, PAGE_SIZE - NodeBytes(n));
      case InnerNode(p) => InnerBack(p, tail, rest, PAGE_SIZE - NodeBytes(n));
    }
  }

  /** What is behind the header reads as the slots, the length of the gap, and behind the gap the footer. */
  lemma PartsBack(n: Node, was: seq<Byte>) returns (tail: seq<Byte>, rest: seq<Byte>)
    requires NodeIndexed(n) && NodeFits(n) && |was| == PAGE_SIZE
    ensures Image(n, was) == Header(n) + tail && |tail| == PAGE_SIZE - |Header(n)|
    ensures ParseSlots(tail, |Slots(n)|, []) == Some((Slots(n), rest))
    ensures var free: U16 := PAGE_SIZE - NodeBytes(n);
            |rest| >= 2 && Num16(rest[..2]) == free && Skip(rest[2..], free) == Footer(n)
  {
    hide Decode, Image, Header, Footer, SlotBytes, LE, FromLE, ParseSlots, Skip, Slots, NodeIndexed, NodeBytes;
    ImageParts(n, was);
    var free, gap := PAGE_SIZE - NodeBytes(n), was[|Front(n)|..PAGE_SIZE - |Footer(n)|];
    rest := LE(2, free) + (gap + Footer(n));
    tail := SlotBytes(Slots(n)) + rest;
    GapBack(free, gap, Footer(n));
    SlotsBack(Slots(n), rest, []);
    assert [] + Slots(n) == Slots(n);
  }

  lemma LeafBack(l: Leaf, tail: seq<Byte>, rest: seq<Byte>, free: U16)
    requires WellFormed(l) && Fits(l) && free == PAGE_SIZE - UsedBytes(l)
    requires |tail| == PAGE_SIZE - 39 && ParseSlots(tail, |l.slots|, []) == Some((l.slots, rest))
    requires |rest| >= 2 && Num16(rest[..2]) == free && Skip(rest[2..], free) == BodyBytes(Ordered(l))
    ensures Decode(LeafHeader(l) + tail) == Ok(LeafNode(Reload(l)))
  {
    hide LE, FromLE, LeafHeader, BodyBytes, Ordered, ParseSlots, ParseRecords, Skip;
    LeafHeaderBack(l, tail);
    LeafCellsBack(l, seq(|l.slots|, _ => NO_RECORD));
  }

  lemma LeafCellsBack(l: Leaf, blank: seq<Record>)
    requires WellFormed(l) && Fits(l) && |blank| == |l.slots|
    ensures ParseRecords(BodyBytes(Ordered(l)), l.slots, blank) == Some(l.records)
  {
    RecordsBack(Ordered(l), [], l.slots, blank);
    assert BodyBytes(Ordered(l)) + [] == BodyBytes(Ordered(l));
    FillRestores(blank, l.slots, Ordered(l), l.records);
  }

  lemma InnerBack(p: Inner, tail: seq<Byte>, rest: seq<Byte>, free: U16)
    requires InnerWell(p) && InnerBytes(p) <= PAGE_SIZE && free == PAGE_SIZE - InnerBytes(p)
    requires |tail| == PAGE_SIZE - 29 && ParseSlots(tail, |p.slots|, []) == Some((p.slots, rest))
    requires |rest| >= 2 && Num16(rest[..2]) == free && Skip(rest[2..], free) == RouteBytes(Routes(p))
    ensures Decode(InnerHeader(p) + tail) == Ok(InnerNode(ReloadInner(p)))
  {
    hide LE, FromLE, InnerHeader, RouteBytes, Routes, ParseSlots, ParseEntries, Skip;
    InnerHeaderBack(p, tail);
    InnerCellsBack(p, seq(|p.slots|, _ => NO_ENTRY));
  }

  lemma InnerCellsBack(p: Inner, blank: seq<IndexEntry>)
    requires InnerWell(p) && |blank| == |p.slots|
    ensures ParseEntries(RouteBytes(Routes(p)), p.slots, blank) == Some(p.entries)
  {
    EntriesBack(Routes(p), [], p.slots, blank);
    assert RouteBytes(Routes(p)) + [] == RouteBytes(Routes(p));
    FillRestores(blank, p.slots, Routes(p), p.entries);
  }

  // ----- where the fields are -----

  /** The image of a leaf: kind, page, LSN, both links and the slot count, then the slots and the length
      of the gap, and the last record ends where the page does. */
  lemma LeafLayout(l: Leaf, was: seq<Byte>)
    requires Indexed(l) && Fits(l) && |was| == PAGE_SIZE
    ensures var b := Image(LeafNode(l), was);
            && b[0] == 1 && Num64(b[1..9]) == l.pageId && Num64(b[9..17]) == l.lastLsn
            && (b[17] != 0 <==> l.hasPrev) && (b[18] != 0 <==> l.hasNext)
            && Num64(b[19..27]) == l.prevId && Num64(b[27..35]) == l.nextId && Num32(b[35..39]) == |l.slots|
            && b[39..39 + SlotArea(|l.slots|)] == SlotBytes(l.slots)
            && b[PAGE_SIZE - Bytes(Ordered(l))..] == BodyBytes(Ordered(l))
  {
    hide LE, FromLE, Ordered, Bytes, BodyBytes, SlotBytes, LeafHeader;
    var b := Image(LeafNode(l), was);
    HeaderFirst(LeafHeader(l), SlotBytes(l.slots), LE(2, PAGE_SIZE - UsedBytes(l)), b);
    LeafHeaderBack(l, b[39..]);
  }

  /** The same for an internal page, whose routing entries end where the page does. */
  lemma InnerLayout(p: Inner, was: seq<Byte>)
    requires InnerIndexed(p) && InnerBytes(p) <= PAGE_SIZE && |was| == PAGE_SIZE
    ensures var b := Image(InnerNode(p), was);
            && b[0] == 0 && Num64(b[1..9]) == p.pageId && Num64(b[9..17]) == p.lastLsn
            && Num64(b[17..25]) == p.rightmost && Num32(b[25..29]) == |p.slots|
            && b[29..29 + SlotArea(|p.slots|)] == SlotBytes(p.slots)
            && b[PAGE_SIZE - EntryArea(|p.slots|)..] == RouteBytes(Routes(p))
  {
    hide LE, FromLE, Routes, RouteBytes, SlotBytes, InnerHeader;
    var b := Image(InnerNode(p), was);
    HeaderFirst(InnerHeader(p), SlotBytes(p.slots), LE(2, PAGE_SIZE - InnerBytes(p)), b);
    InnerHeaderBack(p, b[29..]);
  }

  /** A page that begins with a header and the slots. */
  lemma HeaderFirst(h: seq<Byte>, slots: seq<Byte>, size: seq<Byte>, b: seq<Byte>)
    requires h + slots + size <= b
    ensures h + b[|h|..] == b && b[|h|..|h| + |slots|] == slots
  {
    assert b[..|h| + |slots| + |size|] == h + slots + size;
    assert (h + slots + size)[..|h|] == h && (h + slots + size)[|h|..|h| + |slots|] == slots;
  }

  // ----- accepted pages -----

  /** The bytes b begin with spell out the records of a list; any flag byte but zero marks a tombstone. */
  predicate Spells(b: seq<Byte>, rs: seq<Record>)
    decreases |rs|
  {
    rs == [] ||
    var (r, n) := (rs[0], 13 + |rs[0].data|);
    && n <= |b| && b[..8] == LE(8, r.rowId) && (b[8] != 0 <==> r.deleted)
    && b[9..13] == LE(4, |r.data|) && b[13..n] == r.data && Spells(b[n..], rs[1..])
  }

  /** Whatever page is accepted as a leaf says in its bytes what the leaf has: the header, the slots,
      and behind the gap the records in slot order. */
  lemma LeafAccepted(b: seq<Byte>)
    requires |b| == PAGE_SIZE && b[0] == 1 && Decode(b).Ok?
    ensures Decode(b).value.LeafNode?
    ensures var l := Decode(b).value.leaf;
            var n, gap := SlotArea(|l.slots|), 41 + SlotArea(|l.slots|) + l.freeSize;
            && b[1..9] == LE(8, l.pageId) && b[9..17] == LE(8, l.lastLsn)
            && (b[17] != 0 <==> l.hasPrev) && (b[18] != 0 <==> l.hasNext)
            && b[19..27] == LE(8, l.prevId) && b[27..35] == LE(8, l.nextId) && b[35..39] == LE(4, |l.slots|)
            && 41 + n <= PAGE_SIZE && b[39..39 + n] == SlotBytes(l.slots) && b[39 + n..41 + n] == LE(2, l.freeSize)
            && Indexed(l) && |l.records| == |l.slots| && !l.dirty
            && (l.slots != [] ==> gap <= PAGE_SIZE)
            && (Permutes(l.slots, |l.slots|) && gap <= PAGE_SIZE ==> Spells(b[gap..], Ordered(l)))
  {
    hide LE, FromLE, Spells, SlotBytes, ParseSlots, ParseRecords, Skip, Ordered;
    LEInverse(b[1..9]);
    LEInverse(b[9..17]);
    LEInverse(b[19..27]);
    LEInverse(b[27..35]);
    LEInverse(b[35..39]);
    var l, count := Decode(b).value.leaf, Num32(b[35..39]);
    var rest := SlotsBehind(b, 39, count, l.slots);
    BehindGap(b, 41 + SlotArea(count), l.freeSize);
    LeafCells(l, Skip(rest[2..], l.freeSize));
  }

  /** The records of a leaf as they were read from the body of its page. */
  lemma LeafCells(l: Leaf, body: seq<Byte>)
    requires ParseRecords(body, l.slots, seq(|l.slots|, _ => NO_RECORD)) == Some(l.records)
    ensures Indexed(l) && |l.records| == |l.slots| && (l.slots != [] ==> body != [])
    ensures Permutes(l.slots, |l.slots|) ==> Spells(body, Ordered(l))
  {
    hide LE, FromLE, Spells, ParseRecords, Ordered;
    var cells := seq(|l.slots|, _ => NO_RECORD);
    var rs := RecordsAccepted(body, l.slots, cells);
    if Permutes(l.slots, |l.slots|) { FilledInOrder(l, cells, rs); }
    if body == [] { NothingSpelled(rs); }
  }

  lemma BehindGap(b: seq<Byte>, at: nat, n: nat)
    requires at <= |b|
    ensures Skip(b[at..], n) == if at + n <= |b| then b[at + n..] else []
  {
  }

  lemma NothingSpelled(rs: seq<Record>)
    requires Spells([], rs)
    ensures rs == []
  {
  }

  /** Slots read behind a header of h bytes, and the two bytes after them. */
  lemma SlotsBehind(b: seq<Byte>, h: nat, count: nat, slots: seq<U16>) returns (rest: seq<Byte>)
    requires h <= |b| && ParseSlots(b[h..], count, []).Some? && ParseSlots(b[h..], count, []).value.0 == slots
    requires |ParseSlots(b[h..], count, []).value.1| >= 2
    ensures rest == ParseSlots(b[h..], count, []).value.1
    ensures var n := SlotArea(count);
            && |slots| == count && h + n + 2 <= |b| && b[h..h + n] == SlotBytes(slots)
            && b[h + n..h + n + 2] == LE(2, Num16(rest[..2])) && rest[2..] == b[h + n + 2..]
  {
    hide LE, FromLE, SlotBytes, ParseSlots;
    rest := ParseSlots(b[h..], count, []).value.1;
    SlotsAccepted(b[h..], count, []);
    SlotsThenRest(b, h, SlotBytes(slots), rest);
    LEInverse(rest[..2]);
  }

  lemma SlotsThenRest(b: seq<Byte>, h: nat, slots: seq<Byte>, rest: seq<Byte>)
    requires h <= |b| && b[h..] == slots + rest
    ensures h + |slots| <= |b| && b[h..h + |slots|] == slots && b[h + |slots|..] == rest
    ensures |rest| >= 2 ==> b[h + |slots|..h + |slots| + 2] == rest[..2] && b[h + |slots| + 2..] == rest[2..]
  {
    assert b[h..][..|slots|] == slots && b[h..][|slots|..] == rest;
    assert b[h..][|slots|..] == b[h + |slots|..];
  }

  lemma {:induction false} SlotsAccepted(rest: seq<Byte>, n: nat, acc: seq<U16>)
    requires ParseSlots(rest, n, acc).Some?
    ensures var (slots, tail) := ParseSlots(rest, n, acc).value;
            |slots| == |acc| + n && acc <= slots && rest == SlotBytes(slots[|acc|..]) + tail
    decreases n
  {
    if n > 0 {
      var acc' := acc + [Num16(rest[..2])];
      SlotsAccepted(rest[2..], n - 1, acc');
      var (slots, tail) := ParseSlots(rest, n, acc).value;
      LEInverse(rest[..2]);
      hide LE, FromLE;
      assert slots[|acc|] == acc'[|acc|] && slots[|acc|..][1..] == slots[|acc'|..];
      assert rest == rest[..2] + rest[2..];
      Associates(rest[..2], SlotBytes(slots[|acc'|..]), tail);
    }
  }

  lemma {:induction false} RecordsAccepted(rest: seq<Byte>, slots: seq<U16>, cells: seq<Record>)
    returns (rs: seq<Record>)
    requires ParseRecords(rest, slots, cells).Some?
    ensures |rs| == |slots| && (forall i :: 0 <= i < |slots| ==> slots[i] < |cells|)
    ensures ParseRecords(rest, slots, cells).value == Fill(cells, slots, rs) && Spells(rest, rs)
    decreases |slots|
  {
    if slots == [] {
      rs := [];
    } else {
      var size := Num32(rest[9..13]);
      var r := Record(Num64(rest[..8]), rest[13..13 + size], rest[8] != 0);
      LEInverse(rest[..8]);
      LEInverse(rest[9..13]);
      hide LE, FromLE;
      var more := RecordsAccepted(rest[13 + size..], slots[1..], cells[slots[0] := r]);
      rs := [r] + more;
      assert rs[1..] == more;
      assert forall i :: 1 <= i < |slots| ==> slots[i] == slots[1..][i - 1];
    }
  }

  lemma FilledInOrder(l: Leaf, cells: seq<Record>, rs: seq<Record>)
    requires Permutes(l.slots, |cells|) && |rs| == |l.slots| && l.records == Fill(cells, l.slots, rs)
    ensures Indexed(l) && Ordered(l) == rs
  {
    forall i | 0 <= i < |l.slots| ensures l.records[l.slots[i]] == rs[i] { FillAt(cells, l.slots, rs, i); }
  }

  /** The same for an internal page, down to the last byte of its routing entries. */
  lemma InnerAccepted(b: seq<Byte>)
    requires |b| == PAGE_SIZE && b[0] == 0 && Decode(b).Ok?
    ensures Decode(b).value.InnerNode?
    ensures var p := Decode(b).value.inner;
            var n, gap := SlotArea(|p.slots|), 31 + SlotArea(|p.slots|) + p.freeSize;
            && b[1..9] == LE(8, p.pageId) && b[9..17] == LE(8, p.lastLsn) && b[17..25] == LE(8, p.rightmost)
            && b[25..29] == LE(4, |p.slots|) && 31 + n <= PAGE_SIZE
            && b[29..29 + n] == SlotBytes(p.slots) && b[29 + n..31 + n] == LE(2, p.freeSize)
            && InnerIndexed(p) && |p.entries| == |p.slots| && !p.dirty
            && (p.slots != [] ==> gap <= PAGE_SIZE)
            && (Permutes(p.slots, |p.slots|) && gap <= PAGE_SIZE ==> RouteBytes(Routes(p)) <= b[gap..])
  {
    hide LE, FromLE, SlotBytes, ParseSlots, ParseEntries, RouteBytes, Skip, Routes;
    LEInverse(b[1..9]);
    LEInverse(b[9..17]);
    LEInverse(b[17..25]);
    LEInverse(b[25..29]);
    var p, count := Decode(b).value.inner, Num32(b[25..29]);
    var rest := SlotsBehind(b, 29, count, p.slots);
    BehindGap(b, 31 + SlotArea(count), p.freeSize);
    InnerCells(p, Skip(rest[2..], p.freeSize));
  }

  /** The entries of an internal page as they were read from the body of its page. */
  lemma InnerCells(p: Inner, body: seq<Byte>)
    requires ParseEntries(body, p.slots, seq(|p.slots|, _ => NO_ENTRY)) == Some(p.entries)
    ensures InnerIndexed(p) && |p.entries| == |p.slots| && (p.slots != [] ==> body != [])
    ensures Permutes(p.slots, |p.slots|) ==> RouteBytes(Routes(p)) <= body
  {
    hide LE, FromLE, ParseEntries, RouteBytes, Routes;
    var cells := seq(|p.slots|, _ => NO_ENTRY);
    var es := EntriesAccepted(body, p.slots, cells);
    if Permutes(p.slots, |p.slots|) { RoutesInOrder(p, cells, es); }
    assert |RouteBytes(es)| == EntryArea(|p.slots|);
  }

  lemma {:induction false} EntriesAccepted(rest: seq<Byte>, slots: seq<U16>, cells: seq<IndexEntry>)
    returns (es: seq<IndexEntry>)
    requires ParseEntries(rest, slots, cells).Some?
    ensures |es| == |slots| && (forall i :: 0 <= i < |slots| ==> slots[i] < |cells|)
    ensures ParseEntries(rest, slots, cells).value == Fill(cells, slots, es) && RouteBytes(es) <= rest
    decreases |slots|
  {
    if slots == [] {
      es := [];
    } else {
      var e := IndexEntry(Num64(rest[..8]), Num64(rest[8..16]));
      LEInverse(rest[..8]);
      LEInverse(rest[8..16]);
      hide LE, FromLE;
      var more := EntriesAccepted(rest[16..], slots[1..], cells[slots[0] := e]);
      es := [e] + more;
      assert es[1..] == more;
      assert RouteEntryBytes(e) == rest[..16];
      assert forall i :: 1 <= i < |slots| ==> slots[i] == slots[1..][i - 1];
    }
  }

  lemma RoutesInOrder(p: Inner, cells: seq<IndexEntry>, es: seq<IndexEntry>)
    requires Permutes(p.slots, |cells|) && |es| == |p.slots| && p.entries == Fill(cells, p.slots, es)
    ensures InnerIndexed(p) && Routes(p) == es
  {
    forall i | 0 <= i < |p.slots| ensures p.entries[p.slots[i]] == es[i] { FillAt(cells, p.slots, es, i); }
  }
}
