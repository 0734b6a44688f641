/** Reading and writing a page buffer through a cursor. */
module PageIO {
  import opened Base
  import opened L = Leaves
  import opened LeafPages
  import opened Nodes
  import opened Codec

  /** A position in a byte buffer. Each method moves it past the bytes it reads or writes; moving
      past the end of the buffer is what the code's slice indexing would panic on. */
  class ByteCursor {
    const buffer: array<Byte>
    var pos: nat
    ghost const was: seq<Byte>  // what the buffer held at first

    ghost predicate Valid()
      reads this, buffer
    {
      |was| == buffer.Length && forall i :: pos <= i < buffer.Length ==> buffer[i] == was[i]
    }

    constructor (buffer: array<Byte>)
      ensures this.buffer == buffer && pos == 0 && was == buffer[..] && Valid()
    {
      this.buffer := buffer;
      pos := 0;
      was := buffer[..];
    }

    predicate Has(n: nat)
      reads this
    {
      pos + n <= buffer.Length
    }

    ghost function Behind(): seq<Byte>
      requires Has(0)
      reads this, buffer
    {
      buffer[..pos]
    }

    method WriteBytes(val: seq<Byte>)
      requires Valid() && Has(|val|)
      modifies this`pos, buffer
      ensures Has(0) && Behind() == old(Behind()) + val
      ensures pos == old(pos) + |val| && Valid()
    {
      forall i | 0 <= i < |val| { buffer[pos + i] := val[i]; }
      pos := pos + |val|;
      assert buffer[..pos] == old(buffer[..pos]) + val;
    }

    method WriteU8(val: Byte)
      requires Valid() && Has(1)
      modifies this`pos, buffer
      ensures Has(0) && Behind() == old(Behind()) + [val]
      ensures pos == old(pos) + 1 && Valid()
    {
      WriteBytes([val]);
    }

    method WriteU16(val: U16)
      requires Valid() && Has(2)
      modifies this`pos, buffer
      ensures Has(0) && Behind() == old(Behind()) + LE(2, val)
      ensures pos == old(pos) + 2 && Valid()
    {
      WriteBytes(LE(2, val));
    }

    method WriteU32(val: U32)
      requires Valid() && Has(4)
      modifies this`pos, buffer
      ensures Has(0) && Behind() == old(Behind()) + LE(4, val)
      ensures pos == old(pos) + 4 && Valid()
    {
      WriteBytes(LE(4, val));
    }

    method WriteU64(val: U64)
      requires Valid() && Has(8)
      modifies this`pos, buffer
      ensures Has(0) && Behind() == old(Behind()) + LE(8, val)
      ensures pos == old(pos) + 8 && Valid()
    {
      WriteBytes(LE(8, val));
    }

    method Advance(n: nat)
      modifies this`pos
      ensures pos == old(pos) + n
    {
      pos := pos + n;
    }

    method ReadBytes(len: nat) returns (val: seq<Byte>)
      requires Has(len)
      modifies this`pos
      ensures pos == old(pos) + len && val == buffer[old(pos)..pos]
    {
      val := buffer[pos..pos + len];
      pos := pos + len;
    }

    method ReadU8() returns (val: Byte)
      requires Has(1)
      modifies this`pos
      ensures pos == old(pos) + 1 && val == buffer[old(pos)]
    {
      val := buffer[pos];
      pos := pos + 1;
    }

    method ReadU16() returns (val: U16)
      requires Has(2)
      modifies this`pos
      ensures pos == old(pos) + 2 && val == Num16(buffer[old(pos)..pos])
    {
      var b := ReadBytes(2);
      val := Num16(b);
    }

    method ReadU32() returns (val: U32)
      requires Has(4)
      modifies this`pos
      ensures pos == old(pos) + 4 && val == Num32(buffer[old(pos)..pos])
    {
      var b := ReadBytes(4);
      val := Num32(b);
    }

    method ReadU64() returns (val: U64)
      requires Has(8)
      modifies this`pos
      ensures pos == old(pos) + 8 && val == Num64(buffer[old(pos)..pos])
    {
      var b := ReadBytes(8);
      val := Num64(b);
    }
  }

  // ----- encoding -----

  lemma SlotBytesStep(slots: seq<U16>, i: nat)
    requires i < |slots|
    ensures SlotBytes(slots[..i + 1]) == SlotBytes(slots[..i]) + LE(2, slots[i])
    decreases i
  {
    if i == 0 {
      assert slots[..1][1..] == [];
      assert slots[..0] == [];
    } else {
      SlotBytesStep(slots[1..], i - 1);
      assert slots[..i + 1][1..] == slots[1..][..i];
      assert slots[..i][1..] == slots[1..][..i - 1];
    }
  }

  lemma BodyBytesStep(rs: seq<Record>, i: nat)
    requires i < |rs|
    ensures BodyBytes(rs[..i + 1]) == BodyBytes(rs[..i]) + RecordBytes(rs[i])
    decreases i
  {
    if i == 0 {
      assert rs[..1][1..] == [];
      assert rs[..0] == [];
    } else {
      BodyBytesStep(rs[1..], i - 1);
      assert rs[..i + 1][1..] == rs[1..][..i];
      assert rs[..i][1..] == rs[1..][..i - 1];
    }
  }

  lemma RouteBytesStep(es: seq<IndexEntry>, i: nat)
    requires i < |es|
    ensures RouteBytes(es[..i + 1]) == RouteBytes(es[..i]) + RouteEntryBytes(es[i])
    decreases i
  {
    if i == 0 {
      assert es[..1][1..] == [];
      assert es[..0] == [];
    } else {
      RouteBytesStep(es[1..], i - 1);
      assert es[..i + 1][1..] == es[1..][..i];
      assert es[..i][1..] == es[1..][..i - 1];
    }
  }

  method WriteSlots(cursor: ByteCursor, slots: seq<U16>)
    requires cursor.Valid() && cursor.Has(SlotArea(|slots|))
    modifies cursor`pos, cursor.buffer
    ensures cursor.Has(0) && cursor.Behind() == old(cursor.Behind()) + SlotBytes(slots)
    ensures cursor.pos == old(cursor.pos) + SlotArea(|slots|) && cursor.Valid()
  {
    ghost var behind, start := cursor.Behind(), cursor.pos;
    for i := 0 to |slots|
      invariant cursor.Has(SlotArea(|slots| - i))
      invariant cursor.Behind() == behind + SlotBytes(slots[..i])
      invariant cursor.pos == start + SlotArea(i) && cursor.Valid()
    {
      cursor.WriteU16(slots[i]);
      SlotBytesStep(slots, i);
      Associates(behind, SlotBytes(slots[..i]), LE(2, slots[i]));
    }
    assert slots[..|slots|] == slots;
  }

  method WriteRecords(cursor: ByteCursor, page: LeafPage)
    requires Indexed(page.Value()) && Bytes(Ordered(page.Value())) <= PAGE_SIZE
    requires cursor.Valid() && cursor.Has(Bytes(Ordered(page.Value())))
    modifies cursor`pos, cursor.buffer
    ensures cursor.Has(0) && cursor.Behind() == old(cursor.Behind()) + BodyBytes(Ordered(page.Value()))
    ensures cursor.pos == old(cursor.pos) + Bytes(Ordered(page.Value())) && cursor.Valid()
  {
    ghost var behind, start := cursor.Behind(), cursor.pos;
    ghost var rs := Ordered(page.Value());
    for i := 0 to |page.slotArray|
      invariant Bytes(rs[..i]) + Bytes(rs[i..]) == Bytes(rs)
      invariant cursor.Has(Bytes(rs[i..]))
      invariant cursor.Behind() == behind + BodyBytes(rs[..i])
      invariant cursor.pos == start + Bytes(rs[..i]) && cursor.Valid()
    {
      var cell := page.records[page.slotArray[i]];
      assert cell == rs[i] && rs[i..][0] == rs[i] && rs[i..][1..] == rs[i + 1..];
      WriteRecord(cursor, cell);
      BytesStep(rs, i);
      BodyBytesStep(rs, i);
      Associates(behind, BodyBytes(rs[..i]), RecordBytes(rs[i]));
    }
    assert rs[..|rs|] == rs;
  }

  method WriteRecord(cursor: ByteCursor, cell: Record)
    requires |cell.data| < 0x1_0000_0000
    requires cursor.Valid() && cursor.Has(RECORD_META_SIZE + |cell.data|)
    modifies cursor`pos, cursor.buffer
    ensures cursor.Has(0) && cursor.Behind() == old(cursor.Behind()) + RecordBytes(cell)
    ensures cursor.pos == old(cursor.pos) + RECORD_META_SIZE + |cell.data| && cursor.Valid()
  {
    hide LE;
    ghost var behind := cursor.Behind();
    cursor.WriteU64(cell.rowId);
    cursor.WriteU8(Bit(cell.deleted));
    cursor.WriteU32(|cell.data|);
    cursor.WriteBytes(cell.data);
    FourParts(behind, LE(8, cell.rowId), [Bit(cell.deleted)], LE(4, |cell.data|), cell.data);
  }

  lemma FourParts(a: seq<Byte>, b: seq<Byte>, c: seq<Byte>, d: seq<Byte>, e: seq<Byte>)
    ensures a + b + c + d + e == a + (b + c + d + e)
  {
  }

  method WriteRoutes(cursor: ByteCursor, page: InnerPage)
    requires InnerIndexed(page.Value())
    requires cursor.Valid() && cursor.Has(EntryArea(|page.slotArray|))
    modifies cursor`pos, cursor.buffer
    ensures cursor.Has(0) && cursor.Behind() == old(cursor.Behind()) + RouteBytes(Routes(page.Value()))
    ensures cursor.pos == old(cursor.pos) + EntryArea(|page.slotArray|) && cursor.Valid()
  {
    ghost var behind, start := cursor.Behind(), cursor.pos;
    ghost var es := Routes(page.Value());
    for i := 0 to |page.slotArray|
      invariant cursor.Has(EntryArea(|es| - i))
      invariant cursor.Behind() == behind + RouteBytes(es[..i])
      invariant cursor.pos == start + EntryArea(i) && cursor.Valid()
    {
      var cell := page.entries[page.slotArray[i]];
      assert cell == es[i];
      cursor.WriteU64(cell.key);
      cursor.WriteU64(cell.child);
      RouteBytesStep(es, i);
      assert cursor.Behind() == behind + RouteBytes(es[..i]) + LE(8, cell.key) + LE(8, cell.child);
      assert RouteEntryBytes(es[i]) == LE(8, cell.key) + LE(8, cell.child);
      Associates(behind + RouteBytes(es[..i]), LE(8, cell.key), LE(8, cell.child));
      Associates(behind, RouteBytes(es[..i]), RouteEntryBytes(es[i]));
    }
    assert es[..|es|] == es;
  }

  method WriteLeafHeader(cursor: ByteCursor, page: LeafPage)
    requires cursor.Valid() && cursor.Has(39) && cursor.pos == 0 && |page.slotArray| <= PAGE_SIZE
    modifies cursor`pos, cursor.buffer
    ensures cursor.Has(0) && cursor.Behind() == LeafHeader(page.Value())
    ensures cursor.pos == old(cursor.pos) + 39 && cursor.Valid()
  {
    cursor.WriteU8(1);
    assert cursor.Behind() == [1];
    cursor.WriteU64(page.pageId);
    cursor.WriteU64(page.lastLsn);
    cursor.WriteU8(Bit(page.hasPrev));
    cursor.WriteU8(Bit(page.hasNext));
    cursor.WriteU64(page.prevPageId);
    cursor.WriteU64(page.nextPageId);
    cursor.WriteU32(|page.slotArray|);
  }

  method WriteInnerHeader(cursor: ByteCursor, page: InnerPage)
    requires cursor.Valid() && cursor.Has(29) && cursor.pos == 0 && |page.slotArray| <= PAGE_SIZE
    modifies cursor`pos, cursor.buffer
    ensures cursor.Has(0) && cursor.Behind() == InnerHeader(page.Value())
    ensures cursor.pos == old(cursor.pos) + 29 && cursor.Valid()
  {
    cursor.WriteU8(0);
    assert cursor.Behind() == [0];
    cursor.WriteU64(page.pageId);
    cursor.WriteU64(page.lastLsn);
    cursor.WriteU64(page.rightmostChildId);
    cursor.WriteU32(|page.slotArray|);
  }

  method EncodeLeaf(leaf: LeafPage, page: array<Byte>) returns (r: Result<()>)
    requires Indexed(leaf.Value()) && page.Length == PAGE_SIZE
    modifies page
    ensures Encoded(LeafNode(leaf.Value()), old(page[..]), page[..], r)
  {
    hide Bytes, BodyBytes, SlotBytes, LeafHeader, LE, Ordered;
    var cursor := new ByteCursor(page);
    var headerLen := LEAF_NODE_HEADER_SIZE + SlotArea(|leaf.slotArray|);
    var footerLen := leaf.FooterLen();
    if headerLen + footerLen > PAGE_SIZE { return Err(PageFull); }
    var freeSize := PAGE_SIZE - headerLen - footerLen;
    WriteLeafHeader(cursor, leaf);
    WriteSlots(cursor, leaf.slotArray);
    cursor.WriteU16(freeSize);
    assert cursor.Behind() == Front(LeafNode(leaf.Value()));
    SkipGap(cursor, freeSize);
    WriteRecords(cursor, leaf);
    assert page[..] == cursor.Behind();
    r := Ok(());
  }

  method EncodeInner(inner: InnerPage, page: array<Byte>) returns (r: Result<()>)
    requires InnerIndexed(inner.Value()) && page.Length == PAGE_SIZE
    modifies page
    ensures Encoded(InnerNode(inner.Value()), old(page[..]), page[..], r)
  {
    hide RouteBytes, SlotBytes, InnerHeader, LE, Routes;
    var cursor := new ByteCursor(page);
    var headerLen := INTERNAL_NODE_HEADER_SIZE + SlotArea(|inner.slotArray|);
    var footerLen := EntryArea(|inner.slotArray|);
    if headerLen + footerLen > PAGE_SIZE { return Err(PageFull); }
    var freeSize := PAGE_SIZE - headerLen - footerLen;
    WriteInnerHeader(cursor, inner);
    WriteSlots(cursor, inner.slotArray);
    cursor.WriteU16(freeSize);
    assert cursor.Behind() == Front(InnerNode(inner.Value()));
    SkipGap(cursor, freeSize);
    WriteRoutes(cursor, inner);
    assert page[..] == cursor.Behind();
    r := Ok(());
  }

  /** A buffer that held was holds now after writing n over it with result r. */
  ghost predicate Encoded(n: Node, was: seq<Byte>, now: seq<Byte>, r: Result<()>)
    requires NodeIndexed(n) && |was| == PAGE_SIZE
  {
    match Encode(n, was)
    case Ok(image) => r.Ok? && now == image
    case Err(e) => r == Err(e) && now == was
  }

  /** Writes the image of a node over the page buffer, ending exactly at its last byte, or reports
      that the node does not fit and leaves the buffer alone. */
  method EncodeNode(node: PageRef, page: array<Byte>) returns (r: Result<()>)
    requires NodeIndexed(node.Value()) && page.Length == PAGE_SIZE
    modifies page
    ensures Encoded(node.Value(), old(page[..]), page[..], r)
  {
    match node {
      case LeafRef(leaf) => r := EncodeLeaf(leaf, page);
      case InnerRef(inner) => r := EncodeInner(inner, page);
    }
  }

  /** Leaves the bytes of the gap as they were. */
  method SkipGap(cursor: ByteCursor, free: nat)
    requires cursor.Valid() && cursor.Has(free)
    modifies cursor`pos
    ensures cursor.pos == old(cursor.pos) + free
    ensures cursor.Has(0) && cursor.Valid()
    ensures cursor.Behind() == old(cursor.Behind()) + cursor.was[old(cursor.pos)..cursor.pos]
  {
    cursor.Advance(free);
  }

  // ----- decoding -----

  /** Reads count slots, or None where the code would index past the end of the page. */
  method ReadSlots(cursor: ByteCursor, count: nat) returns (r: Option<seq<U16>>)
    requires cursor.Has(0)
    modifies cursor`pos
    ensures cursor.Has(0)
    ensures var rest := cursor.buffer[old(cursor.pos)..];
            match r
            case Some(slots) => ParseSlots(rest, count, []) == Some((slots, cursor.buffer[cursor.pos..]))
            case None => ParseSlots(rest, count, []) == None
  {
    var indices: seq<U16> := [];
    for i := 0 to count
      invariant cursor.Has(0)
      invariant ParseSlots(cursor.buffer[cursor.pos..], count - i, indices)
             == ParseSlots(cursor.buffer[old(cursor.pos)..], count, [])
    {
      if !cursor.Has(2) { return None; }
      ghost var rest := cursor.buffer[cursor.pos..];
      var x := cursor.ReadU16();
      assert rest[..2] == cursor.buffer[cursor.pos - 2..cursor.pos];
      assert rest[2..] == cursor.buffer[cursor.pos..];
      indices := indices + [x];
    }
    r := Some(indices);
  }

  ghost function RestOf(cursor: ByteCursor): seq<Byte>
    reads cursor, cursor.buffer
  {
    if cursor.Has(0) then cursor.buffer[cursor.pos..] else []
  }

  /** Reads one record, or None where the code would index past the end of the page. */
  method ReadRecord(cursor: ByteCursor) returns (r: Option<Record>)
    modifies cursor`pos
    ensures var rest := old(RestOf(cursor));
            match r
            case Some(rec) =>
              && |rest| >= RECORD_META_SIZE && |rest| >= RECORD_META_SIZE + Num32(rest[9..13])
              && rec == Record(Num64(rest[..8]), rest[13..13 + Num32(rest[9..13])], rest[8] != 0)
              && RestOf(cursor) == rest[13 + Num32(rest[9..13])..]
            case None => |rest| < RECORD_META_SIZE || |rest| < RECORD_META_SIZE + Num32(rest[9..13])
  {
    if !cursor.Has(RECORD_META_SIZE) { return None; }
    ghost var rest, start := RestOf(cursor), cursor.pos;
    var key := cursor.ReadU64();
    var deleted := cursor.ReadU8();
    var size := cursor.ReadU32();
    assert rest[..8] == cursor.buffer[start..start + 8];
    assert rest[9..13] == cursor.buffer[start + 9..start + 13];
    if !cursor.Has(size) { return None; }
    var value := cursor.ReadBytes(size);
    assert value == rest[13..13 + size];
    r := Some(Record(key, value, deleted != 0));
  }

  method ReadRecords(cursor: ByteCursor, slots: seq<U16>) returns (r: Option<seq<Record>>)
    modifies cursor`pos
    ensures r == ParseRecords(old(RestOf(cursor)), slots, seq(|slots|, _ => NO_RECORD))
  {
    var cells := seq(|slots|, _ => NO_RECORD);
    ghost var start := RestOf(cursor);
    for i := 0 to |slots|
      invariant ParseRecords(RestOf(cursor), slots[i..], cells)
             == ParseRecords(start, slots, seq(|slots|, _ => NO_RECORD))
    {
      assert slots[i..][0] == slots[i] && slots[i..][1..] == slots[i + 1..];
      var rec := ReadRecord(cursor);
      if rec.None? || slots[i] >= |cells| { return None; }
      cells := cells[slots[i] := rec.value];
    }
    r := Some(cells);
  }

  method ReadEntries(cursor: ByteCursor, slots: seq<U16>) returns (r: Option<seq<IndexEntry>>)
    modifies cursor`pos
    ensures r == ParseEntries(old(RestOf(cursor)), slots, seq(|slots|, _ => NO_ENTRY))
  {
    var cells := seq(|slots|, _ => NO_ENTRY);
    ghost var start := RestOf(cursor);
    for i := 0 to |slots|
      invariant ParseEntries(RestOf(cursor), slots[i..], cells)
             == ParseEntries(start, slots, seq(|slots|, _ => NO_ENTRY))
    {
      assert slots[i..][0] == slots[i] && slots[i..][1..] == slots[i + 1..];
      if !cursor.Has(INDEX_ENTRY_SIZE) || slots[i] >= |cells| { return None; }
      ghost var rest, at := RestOf(cursor), cursor.pos;
      var key := cursor.ReadU64();
      var child := cursor.ReadU64();
      assert rest[..8] == cursor.buffer[at..at + 8] && rest[8..16] == cursor.buffer[at + 8..at + 16];
      assert rest[16..] == RestOf(cursor);
      cells := cells[slots[i] := IndexEntry(key, child)];
    }
    r := Some(cells);
  }

  /** The slots, the free-byte counter and the jump over the gap. */
  method ReadSlotsAndSkip(cursor: ByteCursor, count: nat) returns (r: Option<(seq<U16>, U16)>)
    requires cursor.Has(0)
    modifies cursor`pos
    ensures var b := cursor.buffer[old(cursor.pos)..];
            match ParseSlots(b, count, [])
            case None => r == None
            case Some((slots, rest)) =>
              if |rest| < 2 then r == None
              else r == Some((slots, Num16(rest[..2]))) && RestOf(cursor) == Skip(rest[2..], Num16(rest[..2]))
  {
    var slots := ReadSlots(cursor, count);
    if slots.None? || !cursor.Has(2) { return None; }
    ghost var rest := cursor.buffer[cursor.pos..];
    var freeSize := cursor.ReadU16();
    assert rest[..2] == cursor.buffer[cursor.pos - 2..cursor.pos];
    cursor.Advance(freeSize);
    r := Some((slots.value, freeSize));
  }

  method DecodeLeafPage(cursor: ByteCursor) returns (r: Result<PageRef>)
    requires cursor.buffer.Length == PAGE_SIZE && cursor.pos == 1
    modifies cursor`pos
    ensures Decoded(DecodeLeaf(cursor.buffer[..]), r) && (r.Ok? ==> fresh(r.value.Obj()))
  {
    ghost var b := cursor.buffer[..];
    var pageId := cursor.ReadU64();
    var lastLsn := cursor.ReadU64();
    var hasPrev := cursor.ReadU8();
    var hasNext := cursor.ReadU8();
    var prevId := cursor.ReadU64();
    var nextId := cursor.ReadU64();
    var count := cursor.ReadU32();
    assert cursor.buffer[cursor.pos..] == b[39..];
    var body := ReadSlotsAndSkip(cursor, count);
    if body.None? { return Err(Panic); }
    var (slots, freeSize) := body.value;
    var cells := ReadRecords(cursor, slots);
    if cells.None? { return Err(Panic); }
    var page := NewPageRef(LeafNode(L.Leaf(
      pageId, lastLsn, hasPrev != 0, hasNext != 0, prevId, nextId, slots, cells.value, freeSize, false)));
    r := Ok(page);
  }

  method DecodeInnerPage(cursor: ByteCursor) returns (r: Result<PageRef>)
    requires cursor.buffer.Length == PAGE_SIZE && cursor.pos == 1
    modifies cursor`pos
    ensures Decoded(DecodeInner(cursor.buffer[..]), r) && (r.Ok? ==> fresh(r.value.Obj()))
  {
    ghost var b := cursor.buffer[..];
    var pageId := cursor.ReadU64();
    var lastLsn := cursor.ReadU64();
    var rightmost := cursor.ReadU64();
    var count := cursor.ReadU32();
    assert cursor.buffer[cursor.pos..] == b[29..];
    var body := ReadSlotsAndSkip(cursor, count);
    if body.None? { return Err(Panic); }
    var (slots, freeSize) := body.value;
    var cells := ReadEntries(cursor, slots);
    if cells.None? { return Err(Panic); }
    var page := NewPageRef(InnerNode(Inner(pageId, lastLsn, rightmost, slots, cells.value, freeSize, false)));
    r := Ok(page);
  }

  ghost predicate Decoded(expected: Result<Node>, r: Result<PageRef>)
    reads if r.Ok? then {r.value.Obj()} else {}
  {
    match expected
    case Ok(n) => r.Ok? && r.value.Value() == n
    case Err(e) => r == Err(e)
  }

  /** Reads a node from a page image. */
  method DecodeNode(page: seq<Byte>) returns (r: Result<PageRef>)
    requires |page| == PAGE_SIZE
    ensures Decoded(Decode(page), r) && (r.Ok? ==> fresh(r.value.Obj()))
  {
    var buffer := new Byte[PAGE_SIZE](i requires 0 <= i < PAGE_SIZE => page[i]);
    assert buffer[..] == page;
    var cursor := new ByteCursor(buffer);
    var kind := cursor.ReadU8();
    if kind == 1 {
      r := DecodeLeafPage(cursor);
    } else if kind == 0 {
      r := DecodeInnerPage(cursor);
    } else {
      r := Err(CorruptPage(UnknownNodeType));
    }
  }
}
