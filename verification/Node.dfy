/** Tree nodes: a leaf, or an internal page that routes keys to its children. */
module Nodes {
  import opened Base
  import opened Leaves
  import opened LeafPages

  const INTERNAL_NODE_HEADER_SIZE := 31
  const INDEX_ENTRY_SIZE := 16

  /** The bytes of n routing entries. */
  function EntryArea(n: nat): (b: nat)
    ensures b == 16 * n
  {
    n * INDEX_ENTRY_SIZE
  }

  datatype IndexEntry = IndexEntry(key: U64, child: PageId)

  datatype Inner = Inner(
    pageId: PageId, lastLsn: U64, rightmost: PageId,
    slots: seq<U16>, entries: seq<IndexEntry>, freeSize: U16, dirty: bool)

  datatype Node = InnerNode(inner: Inner) | LeafNode(leaf: Leaf)

  // ----- routing -----

  predicate InnerIndexed(n: Inner) {
    forall i :: 0 <= i < |n.slots| ==> n.slots[i] < |n.entries|
  }

  /** The routing entries in slot order. */
  function Routes(n: Inner): (es: seq<IndexEntry>)
    requires InnerIndexed(n)
    ensures |es| == |n.slots|
  {
    seq(|n.slots|, i requires 0 <= i < |n.slots| => n.entries[n.slots[i]])
  }

  predicate RoutesAscend(es: seq<IndexEntry>) {
    forall i, j :: 0 <= i < j < |es| ==> es[i].key < es[j].key
  }

  /** The first entry whose key is above k. */
  function PartitionPoint(es: seq<IndexEntry>, k: U64): (i: nat)
    ensures i <= |es|
    ensures forall j :: 0 <= j < i ==> es[j].key <= k
    ensures i < |es| ==> k < es[i].key
  {
    if es == [] || k < es[0].key then 0 else 1 + PartitionPoint(es[1..], k)
  }

  /** The child number of k, and the page it is stored in. */
  function RouteKey(n: Inner, k: U64): PageId
    requires InnerIndexed(n)
  {
    var i := PartitionPoint(Routes(n), k);
    if i == |n.slots| then n.rightmost else Routes(n)[i].child
  }

  lemma PartitionUnique(es: seq<IndexEntry>, k: U64, i: nat)
    requires i <= |es|
    requires forall j :: 0 <= j < i ==> es[j].key <= k
    requires i < |es| ==> k < es[i].key
    ensures i == PartitionPoint(es, k)
  {
  }

  predicate InnerWell(p: Inner) {
    |p.entries| <= 0x1_0000 && Permutes(p.slots, |p.entries|)
  }

  function InnerBytes(p: Inner): nat {
    INTERNAL_NODE_HEADER_SIZE + SlotArea(|p.slots|) + EntryArea(|p.slots|)
  }

  function ReloadInner(p: Inner): Inner
    requires InnerBytes(p) <= PAGE_SIZE
  {
    p.(freeSize := PAGE_SIZE - InnerBytes(p), dirty := false)
  }

  // ----- what every node has -----

  predicate NodeIndexed(n: Node) {
    match n
    case InnerNode(p) => InnerIndexed(p)
    case LeafNode(l) => Indexed(l)
  }

  /** The slots of the node are a permutation of its cells; those of a leaf are in key order. */
  predicate NodeWell(n: Node) {
    match n
    case InnerNode(p) => InnerWell(p)
    case LeafNode(l) => WellFormed(l)
  }

  function NodeBytes(n: Node): nat
    requires NodeIndexed(n)
  {
    match n
    case InnerNode(p) => InnerBytes(p)
    case LeafNode(l) => UsedBytes(l)
  }

  predicate NodeFits(n: Node)
    requires NodeIndexed(n)
  {
    NodeBytes(n) <= PAGE_SIZE
  }

  function EmptyNode(pageId: PageId, isLeaf: bool): Node {
    if isLeaf then LeafNode(EmptyLeaf(pageId)) else InnerNode(Inner(pageId, 0, 0, [], [], 0, false))
  }

  function LastLsn(n: Node): U64 {
    match n
    case InnerNode(p) => p.lastLsn
    case LeafNode(l) => l.lastLsn
  }

  predicate IsDirty(n: Node) {
    match n
    case InnerNode(p) => p.dirty
    case LeafNode(l) => l.dirty
  }

  function MarkDirty(n: Node, lsn: U64): Node {
    match n
    case InnerNode(p) => InnerNode(p.(lastLsn := lsn, dirty := true))
    case LeafNode(l) => LeafNode(l.(lastLsn := lsn, dirty := true))
  }

  function ClearDirty(n: Node): Node {
    match n
    case InnerNode(p) => InnerNode(p.(dirty := false))
    case LeafNode(l) => LeafNode(l.(dirty := false))
  }

  /** What of a node is content: everything but the free-byte counter and the dirty flag. */
  function Norm(n: Node): Node {
    match n
    case InnerNode(p) => InnerNode(p.(freeSize := 0, dirty := false))
    case LeafNode(l) => LeafNode(l.(freeSize := 0, dirty := false))
  }

  /** Marking records the LSN and the flag, clearing takes the flag back, and neither changes anything
      else: a clean node marked at its own LSN and cleared is the node it was. */
  lemma MarksOnly(n: Node, lsn: U64)
    ensures IsDirty(MarkDirty(n, lsn)) && LastLsn(MarkDirty(n, lsn)) == lsn
    ensures !IsDirty(ClearDirty(n)) && LastLsn(ClearDirty(n)) == LastLsn(n)
    ensures MarkDirty(n, LastLsn(n)) == if IsDirty(n) then n else MarkDirty(ClearDirty(n), LastLsn(n))
    ensures MarkDirty(MarkDirty(n, lsn), LastLsn(n)) == MarkDirty(n, LastLsn(n))
    ensures !IsDirty(n) ==> ClearDirty(MarkDirty(n, LastLsn(n))) == n
  {
  }

  /** What a node becomes when it is written to its page and read back. */
  function Reloaded(n: Node): Node
    requires NodeIndexed(n) && NodeFits(n)
  {
    match n
    case InnerNode(p) => InnerNode(ReloadInner(p))
    case LeafNode(l) => LeafNode(Reload(l))
  }

  // ----- pages in memory -----

  class InnerPage {
    var pageId: PageId
    var lastLsn: U64
    var rightmostChildId: PageId
    var slotArray: seq<U16>
    var entries: seq<IndexEntry>
    var freeSize: U16
    var isDirty: bool

    function Value(): Inner
      reads this
    {
      Inner(pageId, lastLsn, rightmostChildId, slotArray, entries, freeSize, isDirty)
    }

    constructor (p: Inner)
      ensures Value() == p
    {
      pageId, lastLsn, rightmostChildId := p.pageId, p.lastLsn, p.rightmost;
      slotArray, entries, freeSize, isDirty := p.slots, p.entries, p.freeSize, p.dirty;
    }

    /** Binary search for the first entry above the key; its child, or the rightmost one. */
    method RouteTo(targetKey: U64) returns (child: PageId)
      requires InnerIndexed(Value()) && RoutesAscend(Routes(Value()))
      ensures child == RouteKey(Value(), targetKey)
    {
      ghost var es := Routes(Value());
      var lo, hi := 0, |slotArray|;
      while lo < hi
        invariant 0 <= lo <= hi <= |slotArray|
        invariant forall j :: 0 <= j < lo ==> es[j].key <= targetKey
        invariant forall j :: hi <= j < |slotArray| ==> targetKey < es[j].key
      {
        var mid := (lo + hi) / 2;
        var entryKey := entries[slotArray[mid]].key;
        assert entryKey == es[mid].key;
        if entryKey <= targetKey {
          lo := mid + 1;
        } else {
          hi := mid;
        }
      }
      PartitionUnique(es, targetKey, lo);
      child := if lo == |slotArray| then rightmostChildId else entries[slotArray[lo]].child;
    }
  }

  datatype PageRef = InnerRef(inner: InnerPage) | LeafRef(leaf: LeafPage) {

    function Obj(): object {
      match this
      case InnerRef(p) => p
      case LeafRef(l) => l
    }

    function Value(): Node
      reads Obj()
    {
      match this
      case InnerRef(p) => InnerNode(p.Value())
      case LeafRef(l) => LeafNode(l.Value())
    }

    /** Records the LSN of the change and that the page differs from its image. */
    method SetDirty(lsn: U64)
      modifies Obj()
      ensures Value() == MarkDirty(old(Value()), lsn)
    {
      match this {
        case InnerRef(p) => p.lastLsn, p.isDirty := lsn, true;
        case LeafRef(l) => l.lastLsn, l.isDirty := lsn, true;
      }
    }

    method UnsetDirty()
      modifies Obj()
      ensures Value() == ClearDirty(old(Value()))
    {
      match this {
        case InnerRef(p) => p.isDirty := false;
        case LeafRef(l) => l.isDirty := false;
      }
    }
  }

  method NewPageRef(n: Node) returns (p: PageRef)
    ensures fresh(p.Obj()) && p.Value() == n
  {
    match n {
      case InnerNode(i) =>
        var page := new InnerPage(i);
        p := InnerRef(page);
      case LeafNode(l) =>
        var page := new LeafPage(l);
        p := LeafRef(page);
    }
  }
}
