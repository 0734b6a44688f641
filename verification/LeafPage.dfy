/** The leaf page as the object the code mutates, every method proved equal to its function. */
module LeafPages {
  import opened Base
  import opened L = Leaves
  import LeafLaws

  class LeafPage {
    var pageId: PageId
    var lastLsn: U64
    var hasPrev: bool
    var hasNext: bool
    var prevPageId: PageId
    var nextPageId: PageId
    var slotArray: seq<U16>
    var records: seq<Record>
    var freeSize: U16
    var isDirty: bool

    function Value(): Leaf
      reads this
    {
      L.Leaf(pageId, lastLsn, hasPrev, hasNext, prevPageId, nextPageId, slotArray, records, freeSize, isDirty)
    }

    constructor (l: Leaf)
      ensures Value() == l
    {
      pageId, lastLsn := l.pageId, l.lastLsn;
      hasPrev, hasNext, prevPageId, nextPageId := l.hasPrev, l.hasNext, l.prevId, l.nextId;
      slotArray, records, freeSize, isDirty := l.slots, l.records, l.freeSize, l.dirty;
    }

    /** Rewrites the live records in slot order, dropping tombstones. */
    method Compact() returns (r: Result<()>)
      requires Indexed(Value()) && |slotArray| <= 0x1_0000
      modifies this`slotArray, this`records, this`freeSize
      ensures Done(Value(), r) == L.Compact(old(Value()))
    {
      assert LiveOnly([]) == [] && Bytes([]) == 0;
      hide Bytes, LiveOnly;
      ghost var before := Value();
      ghost var rs := Ordered(before);
      var cleanRecords, newSlots, bytesUsed := [], [], 0;
      for i := 0 to |slotArray|
        invariant Value() == before
        invariant cleanRecords == LiveOnly(rs[..i])
        invariant newSlots == Numbered(0, |cleanRecords|)
        invariant bytesUsed == Bytes(cleanRecords) + SlotArea(|cleanRecords|)
      {
        var rec := records[slotArray[i]];
        LiveOnlyStep(rs, i);
        KeptBytes(rec);
        if !rec.deleted {
          bytesUsed := bytesUsed + RECORD_META_SIZE + |rec.data|;
          bytesUsed := bytesUsed + SLOT_ELEM_SIZE;
          cleanRecords := cleanRecords + [rec];
          newSlots := newSlots + [(|cleanRecords| - 1) % 0x1_0000];
        }
      }
      assert rs[..|slotArray|] == rs;
      records := cleanRecords;
      slotArray := newSlots;
      var netSize := LEAF_NODE_HEADER_SIZE + bytesUsed;
      if netSize < PAGE_SIZE {
        freeSize := PAGE_SIZE - netSize;
        r := Ok(());
      } else if netSize == PAGE_SIZE {
        freeSize := 0;
        r := Ok(());
      } else {
        r := Err(Panic);
      }
    }

    /** The loop and the truncation at the start of a split. */
    method MoveUpper(newSibling: LeafPage)
      requires this != newSibling
      requires Indexed(Value()) && Indexed(newSibling.Value())
      modifies this`slotArray, newSibling`slotArray, newSibling`records
      ensures (Value(), newSibling.Value()) == L.MoveUpper(old(Value()), old(newSibling.Value()))
    {
      ghost var before, sibling := Value(), newSibling.Value();
      ghost var rs, n := Ordered(before), |sibling.records|;
      var mid := |slotArray| / 2;
      for i := mid to |slotArray|
        invariant Value() == before
        invariant newSibling.records == sibling.records + rs[mid..i]
        invariant newSibling.slotArray == sibling.slots + Numbered(n, i - mid)
      {
        var rec := records[slotArray[i]];
        newSibling.records := newSibling.records + [rec];
        newSibling.slotArray := newSibling.slotArray + [(|newSibling.records| - 1) % 0x1_0000];
        assert rs[mid..i + 1] == rs[mid..i] + [rs[i]];
        assert Numbered(n, i + 1 - mid) == Numbered(n, i - mid) + [(n + (i - mid)) % 0x1_0000];
      }
      assert rs[mid..|slotArray|] == rs[mid..];
      slotArray := slotArray[..mid];
    }

    /** Moves the upper half of the slots into newSibling and compacts both pages. */
    method Split(newSibling: LeafPage) returns (r: Result<U64>)
      requires this != newSibling
      requires Indexed(Value()) && Indexed(newSibling.Value())
      requires |newSibling.records| + |slotArray| <= 0x1_0000 && |newSibling.slotArray| + |slotArray| <= 0x1_0000
      modifies this`slotArray, this`records, this`freeSize
      modifies newSibling`slotArray, newSibling`records, newSibling`freeSize
      ensures Halves(Value(), newSibling.Value(), r) == L.Split(old(Value()), old(newSibling.Value()))
    {
      Grown(Value(), newSibling.Value());
      MoveUpper(newSibling);
      var done := Compact();
      if done.Err? { return Err(done.error); }
      ghost var upper := newSibling.Value();
      done := newSibling.Compact();
      if done.Err? { return Err(done.error); }
      CompactOrdered(upper);
      if newSibling.slotArray == [] { return Err(CorruptPage(EmptyRightSibling)); }
      assert newSibling.slotArray[0] == 0;
      r := Ok(newSibling.records[newSibling.slotArray[0]].rowId);
    }

    /** Binary search over the slots: the place of rowId, or where it would go. */
    method BinarySearch(rowId: U64) returns (found: bool, idx: nat)
      requires Indexed(Value()) && Ascending(Ordered(Value()))
      ensures idx == LowerBound(Ordered(Value()), rowId)
      ensures found == Holds(Ordered(Value()), rowId)
    {
      ghost var rs := Ordered(Value());
      var lo, hi := 0, |slotArray|;
      while lo < hi
        invariant 0 <= lo <= hi <= |slotArray|
        invariant forall j :: 0 <= j < lo ==> rs[j].rowId < rowId
        invariant forall j :: hi <= j < |slotArray| ==> rowId < rs[j].rowId
      {
        var mid := (lo + hi) / 2;
        var key := records[slotArray[mid]].rowId;
        assert key == rs[mid].rowId;
        if key < rowId {
          lo := mid + 1;
        } else if rowId < key {
          hi := mid;
        } else {
          LowerBoundUnique(rs, rowId, mid);
          return true, mid;
        }
      }
      LowerBoundUnique(rs, rowId, lo);
      return false, lo;
    }

    /** The summed footprint of the records the slots name. */
    method FooterLen() returns (n: nat)
      requires Indexed(Value())
      ensures n == Bytes(Ordered(Value()))
    {
      ghost var rs := Ordered(Value());
      n := 0;
      for i := 0 to |slotArray|
        invariant n == Bytes(rs[..i])
      {
        var rec := records[slotArray[i]];
        BytesStep(rs, i);
        n := n + RECORD_META_SIZE + |rec.data|;
      }
      assert rs[..|slotArray|] == rs;
    }

    /** Overwrites the tombstone in slot idx and compacts the page. */
    method Revive(idx: nat, rowId: U64, payload: seq<Byte>) returns (r: Result<()>)
      requires Indexed(Value()) && idx < |slotArray| <= 0x1_0000 && Ordered(Value())[idx].rowId == rowId
      modifies this`slotArray, this`records, this`freeSize
      ensures var l := old(Value());
              Done(Value(), r) == L.Compact(l.(records := l.records[l.slots[idx] := Record(rowId, payload, false)]))
    {
      var recIdx := slotArray[idx];
      records := records[recIdx := records[recIdx].(deleted := false, data := payload)];
      r := Compact();
    }

    method InsertRecord(rowId: U64, payload: seq<Byte>) returns (r: Result<()>)
      requires WellFormed(Value())
      modifies this`slotArray, this`records, this`freeSize
      ensures Done(Value(), r) == L.Insert(old(Value()), rowId, payload)
    {
      if |payload| > MAX_VALUE_SIZE { return Err(TupleTooLarge(|payload|)); }
      var found, idx := BinarySearch(rowId);
      if found {
        if !records[slotArray[idx]].deleted { return Err(DuplicateKey(rowId)); }
        r := Revive(idx, rowId, payload);
      } else {
        var requiredBytes := SLOT_ELEM_SIZE + RECORD_META_SIZE + |payload|;
        var headerLen := LEAF_NODE_HEADER_SIZE + SlotArea(|slotArray| + 1);
        var footerLen := FooterLen();
        if headerLen + footerLen + requiredBytes > PAGE_SIZE || |slotArray| > MAX_LEAF_NODE_CELLS {
          return Err(PageFull);
        }
        var newRecIdx := |records| % 0x1_0000;
        records := records + [Record(rowId, payload, false)];
        slotArray := slotArray[..idx] + [newRecIdx] + slotArray[idx..];
        freeSize := if freeSize >= requiredBytes then freeSize - requiredBytes else 0;
        r := Ok(());
      }
    }

    method UpdateRecord(rowId: U64, payload: seq<Byte>) returns (r: Result<()>)
      requires WellFormed(Value())
      modifies this`records
      ensures Done(Value(), r) == L.Update(old(Value()), rowId, payload)
    {
      if |payload| >= MAX_VALUE_SIZE { return Err(TupleTooLarge(|payload|)); }
      var found, idx := BinarySearch(rowId);
      if !found { return Err(KeyNotFound(rowId)); }
      var recIdx := slotArray[idx];
      records := records[recIdx := records[recIdx].(data := payload)];
      r := Ok(());
    }

    method DeleteRecord(rowId: U64) returns (r: Result<()>)
      requires WellFormed(Value())
      modifies this`records
      ensures Done(Value(), r) == L.Delete(old(Value()), rowId)
    {
      var found, idx := BinarySearch(rowId);
      if !found { return Err(KeyNotFound(rowId)); }
      var recIdx := slotArray[idx];
      records := records[recIdx := records[recIdx].(deleted := true)];
      r := Ok(());
    }

    /** Looks rowId up among the live records. */
    method GetRecord(rowId: U64) returns (r: Option<seq<Byte>>)
      requires WellFormed(Value())
      ensures r == if rowId in Live(Value()) then Some(Live(Value())[rowId]) else None
    {
      LeafLaws.GetRefinesMap(Value(), rowId);
      var found, idx := BinarySearch(rowId);
      if !found { return None; }
      var rec := records[slotArray[idx]];
      r := if !rec.deleted then Some(rec.data) else None;
    }
  }
}
