/** The arena-backed LRU list refines a duplicate-free sequence, most recently used first. */
module Lru {
  import opened Base

  // ----- recency sequences -----

  predicate Distinct<T(==)>(s: seq<T>) {
    forall i, j :: 0 <= i < j < |s| ==> s[i] != s[j]
  }

  function Without<T(==)>(s: seq<T>, x: T): (r: seq<T>)
    ensures forall y :: y in r ==> y in s
    ensures |r| <= |s|
  {
    if s == [] then []
    else if s[0] == x then s[1..]
    else [s[0]] + Without(s[1..], x)
  }

  /** The sequence after x was used. */
  function Touch<T(==)>(s: seq<T>, x: T): seq<T> {
    [x] + Without(s, x)
  }

  /** The least recently used position whose element is evictable. */
  function LastWhere<T>(s: seq<T>, ok: T -> bool): (r: Option<nat>)
    ensures match r
            case Some(i) => i < |s| && ok(s[i]) && forall j :: i < j < |s| ==> !ok(s[j])
            case None => forall j :: 0 <= j < |s| ==> !ok(s[j])
  {
    if s == [] then None
    else if ok(s[|s| - 1]) then Some(|s| - 1)
    else LastWhere(s[..|s| - 1], ok)
  }

  function Drop<T>(s: seq<T>, i: nat): (r: seq<T>)
    requires i < |s|
    ensures |r| == |s| - 1
  {
    s[..i] + s[i + 1..]
  }

  lemma {:induction false} WithoutAt<T>(s: seq<T>, k: nat)
    requires Distinct(s) && k < |s|
    ensures Without(s, s[k]) == Drop(s, k)
  {
    if k == 0 {
      assert Drop(s, 0) == s[1..];
    } else {
      WithoutAt(s[1..], k - 1);
      assert s[1..][k - 1] == s[k];
      assert [s[0]] + Drop(s[1..], k - 1) == Drop(s, k);
    }
  }

  lemma {:induction false} WithoutAbsent<T>(s: seq<T>, x: T)
    requires x !in s
    ensures Without(s, x) == s
  {
    if s != [] { WithoutAbsent(s[1..], x); }
  }

  lemma LastWhereIs<T>(s: seq<T>, ok: T -> bool, i: nat)
    requires i < |s| && ok(s[i]) && forall j :: i < j < |s| ==> !ok(s[j])
    ensures LastWhere(s, ok) == Some(i)
  {
  }

  /** Using a page keeps the sequence free of duplicates and orders the rest as before. */
  lemma TouchLaw<T>(s: seq<T>, x: T)
    requires Distinct(s)
    ensures Distinct(Touch(s, x)) && Touch(s, x)[0] == x
    ensures forall y :: y in Touch(s, x) <==> y == x || y in s
    ensures |Touch(s, x)| == if x in s then |s| else |s| + 1
    ensures forall k :: 0 <= k < |s| && s[k] == x ==> Touch(s, x)[1..] == s[..k] + s[k + 1..]
    ensures x !in s ==> Touch(s, x)[1..] == s
  {
    if x in s {
      var k :| 0 <= k < |s| && s[k] == x;
      WithoutAt(s, k);
      DropLaw(s, k);
    } else {
      WithoutAbsent(s, x);
    }
  }

  lemma DropLaw<T>(s: seq<T>, k: nat)
    requires Distinct(s) && k < |s|
    ensures Distinct(Drop(s, k)) && s[k] !in Drop(s, k)
    ensures forall y :: y in Drop(s, k) <==> y in s && y != s[k]
  {
    var d := Drop(s, k);
    forall y | y in s && y != s[k] ensures y in d {
      var i :| 0 <= i < |s| && s[i] == y;
      assert if i < k then d[i] == y else d[i - 1] == y;
    }
  }

  // ----- the arena -----

  datatype LruNode = LruNode(prev: Option<nat>, pageId: PageId, next: Option<nat>)

  /** order lists slots of the arena and the links run along it in both directions. */
  ghost predicate Links(arena: seq<LruNode>, order: seq<nat>) {
    && Distinct(order)
    && (forall i :: 0 <= i < |order| ==> order[i] < |arena|)
    && (forall i, j :: 0 <= i < j < |order| && j == i + 1 ==>
          arena[order[i]].next == Some(order[j]) && arena[order[j]].prev == Some(order[i]))
    && (order != [] ==> arena[order[0]].prev == None && arena[order[|order| - 1]].next == None)
  }

  /** pages leads from each tracked page to the linked slot that holds it, and back. */
  ghost predicate Indexes(pages: map<PageId, nat>, arena: seq<LruNode>, order: seq<nat>) {
    && (forall i :: 0 <= i < |order| ==> order[i] < |arena|)
    && (forall i :: 0 <= i < |order| ==>
          arena[order[i]].pageId in pages && pages[arena[order[i]].pageId] == order[i])
    && (forall p :: p in pages ==> pages[p] in order && pages[p] < |arena| && arena[pages[p]].pageId == p)
  }

  /** Linked slots and free slots share out an arena of n slots. */
  ghost predicate Shares(order: seq<nat>, freeList: seq<nat>, n: nat) {
    && Distinct(freeList)
    && (forall i :: 0 <= i < |freeList| ==> freeList[i] < n && freeList[i] !in order)
    && |order| + |freeList| == n
  }

  ghost predicate SamePages(a: seq<LruNode>, b: seq<LruNode>) {
    |a| == |b| && forall i :: 0 <= i < |a| ==> a[i].pageId == b[i].pageId
  }

  /** The pages in the slots of a list. */
  ghost function PagesOf(arena: seq<LruNode>, order: seq<nat>): (s: seq<PageId>)
    requires forall i :: 0 <= i < |order| ==> order[i] < |arena|
    ensures |s| == |order| && forall i :: 0 <= i < |s| ==> s[i] == arena[order[i]].pageId
  {
    seq(|order|, i requires 0 <= i < |order| => arena[order[i]].pageId)
  }

  lemma DropAt<T>(s: seq<T>, k: nat)
    requires k < |s|
    ensures forall i :: 0 <= i < k ==> Drop(s, k)[i] == s[i]
    ensures forall i :: k <= i < |s| - 1 ==> Drop(s, k)[i] == s[i + 1]
  {
  }

  lemma LinksAt(arena: seq<LruNode>, order: seq<nat>, k: nat)
    requires Links(arena, order) && k < |order|
    ensures arena[order[k]].prev == if k == 0 then None else Some(order[k - 1])
    ensures arena[order[k]].next == if k == |order| - 1 then None else Some(order[k + 1])
  {
    if k > 0 {
      var i := k - 1;
      assert arena[order[i]].next == Some(order[k]);
    }
    if k < |order| - 1 {
      var j := k + 1;
      assert arena[order[k]].next == Some(order[j]);
    }
  }

  lemma LinksDistinct(arena: seq<LruNode>, order: seq<nat>)
    requires Links(arena, order)
    ensures Distinct(order) && forall i :: 0 <= i < |order| ==> order[i] < |arena|
  {
  }

  /** Joining the neighbours of position k links the list without it. */
  lemma UnlinkLinks(a: seq<LruNode>, o: seq<nat>, k: nat, a1: seq<LruNode>, a2: seq<LruNode>)
    requires Links(a, o) && k < |o|
    requires a1 == if k > 0 then a[o[k - 1] := a[o[k - 1]].(next := a[o[k]].next)] else a
    requires a2 == if k < |o| - 1 then a1[o[k + 1] := a1[o[k + 1]].(prev := a[o[k]].prev)] else a1
    ensures Links(a2, Drop(o, k)) && SamePages(a, a2)
  {
    var d := Drop(o, k);
    DropAt(o, k);
    DropLaw(o, k);
    LinksAt(a, o, k);
    LinksAt(a, o, 0);
    LinksAt(a, o, |o| - 1);
    if d != [] {
      var first, last := if k == 0 then 1 else 0, if k == |o| - 1 then |o| - 2 else |o| - 1;
      assert d[0] == o[first] && d[|d| - 1] == o[last];
    }
    forall i, j | 0 <= i < j < |d| && j == i + 1
      ensures a2[d[i]].next == Some(d[j]) && a2[d[j]].prev == Some(d[i])
    {
      UnlinkPair(a, o, k, a1, a2, i);
    }
  }

  lemma UnlinkPair(a: seq<LruNode>, o: seq<nat>, k: nat, a1: seq<LruNode>, a2: seq<LruNode>, i: nat)
    requires Links(a, o) && k < |o| && i + 1 < |o| - 1
    requires a1 == if k > 0 then a[o[k - 1] := a[o[k - 1]].(next := a[o[k]].next)] else a
    requires a2 == if k < |o| - 1 then a1[o[k + 1] := a1[o[k + 1]].(prev := a[o[k]].prev)] else a1
    ensures var d := Drop(o, k);
            d[i] < |a2| && d[i + 1] < |a2| && a2[d[i]].next == Some(d[i + 1]) && a2[d[i + 1]].prev == Some(d[i])
  {
    var d := Drop(o, k);
    var x, y := if i < k then i else i + 1, if i + 1 < k then i + 1 else i + 2;
    DropAt(o, k);
    assert d[i] == o[x] && d[i + 1] == o[y];
    LinksAt(a, o, k);
    LinksAt(a, o, x);
    LinksAt(a, o, y);
  }

  lemma InsertLinks(a: seq<LruNode>, o: seq<nat>, x: nat, a1: seq<LruNode>, a2: seq<LruNode>)
    requires Links(a, o) && x < |a| && x !in o
    requires a1 == a[x := a[x].(prev := None, next := if o == [] then None else Some(o[0]))]
    requires a2 == if o == [] then a1 else a1[o[0] := a1[o[0]].(prev := Some(x))]
    ensures Links(a2, [x] + o) && SamePages(a, a2)
  {
    var e := [x] + o;
    forall i, j | 0 <= i < j < |e| && j == i + 1
      ensures a2[e[i]].next == Some(e[j]) && a2[e[j]].prev == Some(e[i])
    {
      assert e[j] == o[j - 1] && (i > 0 ==> e[i] == o[i - 1]);
    }
  }

  lemma Tracked(pages: map<PageId, nat>, arena: seq<LruNode>, order: seq<nat>)
    requires Links(arena, order) && Indexes(pages, arena, order)
    ensures Distinct(PagesOf(arena, order))
    ensures forall p :: p in pages <==> p in PagesOf(arena, order)
  {
    forall p | p in pages ensures p in PagesOf(arena, order) {
      var i :| 0 <= i < |order| && order[i] == pages[p];
      assert PagesOf(arena, order)[i] == p;
    }
    forall i, j | 0 <= i < j < |order| ensures PagesOf(arena, order)[i] != PagesOf(arena, order)[j] {
      assert order[i] != order[j];
    }
  }

  /** Forgetting the page at position k. */
  lemma ForgetIndexes(pages: map<PageId, nat>, arena: seq<LruNode>, order: seq<nat>, k: nat, arena': seq<LruNode>)
    requires Distinct(order) && Indexes(pages, arena, order) && k < |order| && SamePages(arena, arena')
    ensures Indexes(pages - {arena[order[k]].pageId}, arena', Drop(order, k))
  {
    DropLaw(order, k);
    var d, gone := Drop(order, k), arena[order[k]].pageId;
    forall i | 0 <= i < |d|
      ensures d[i] < |arena| && arena[d[i]].pageId in pages && arena[d[i]].pageId != gone
      ensures pages[arena[d[i]].pageId] == d[i]
    {
      assert d[i] in d;
      var j :| 0 <= j < |order| && order[j] == d[i];
    }
  }

  lemma ForgetPages(arena: seq<LruNode>, order: seq<nat>, k: nat, arena': seq<LruNode>)
    requires (forall i :: 0 <= i < |order| ==> order[i] < |arena|) && k < |order| && SamePages(arena, arena')
    ensures forall i :: 0 <= i < |order| - 1 ==> Drop(order, k)[i] < |arena'|
    ensures PagesOf(arena', Drop(order, k)) == Drop(PagesOf(arena, order), k)
  {
    DropAt(order, k);
    DropAt(PagesOf(arena, order), k);
  }

  lemma PagesCons(arena: seq<LruNode>, x: nat, order: seq<nat>)
    requires x < |arena| && forall i :: 0 <= i < |order| ==> order[i] < |arena|
    ensures PagesOf(arena, [x] + order) == [arena[x].pageId] + PagesOf(arena, order)
  {
  }

  /** Moving the slot at position k to the head. */
  lemma MovePages(arena: seq<LruNode>, order: seq<nat>, k: nat, arena': seq<LruNode>)
    requires (forall i :: 0 <= i < |order| ==> order[i] < |arena|) && k < |order| && SamePages(arena, arena')
    ensures forall i :: 0 <= i < |order| ==> ([order[k]] + Drop(order, k))[i] < |arena'|
    ensures PagesOf(arena', [order[k]] + Drop(order, k))
         == [PagesOf(arena, order)[k]] + Drop(PagesOf(arena, order), k)
  {
    ForgetPages(arena, order, k, arena');
    PagesCons(arena', order[k], Drop(order, k));
  }

  /** Tracking a page in slot x. */
  lemma TrackIndexes(pages: map<PageId, nat>, arena: seq<LruNode>, order: seq<nat>, x: nat, p: PageId,
                     arena': seq<LruNode>)
    requires Indexes(pages, arena, order) && p !in pages && x !in order
    requires x < |arena| && arena[x].pageId == p && SamePages(arena, arena')
    ensures Indexes(pages[p := x], arena', [x] + order)
    ensures PagesOf(arena', [x] + order) == [p] + PagesOf(arena, order)
  {
    var o := [x] + order;
    forall q | q in pages ensures pages[q] in o {
      var i :| 0 <= i < |order| && order[i] == pages[q];
      assert o[i + 1] == pages[q];
    }
    assert o[0] == x;
  }

  /** Writing a slot that is not linked. */
  lemma WriteIndexes(pages: map<PageId, nat>, arena: seq<LruNode>, order: seq<nat>, arena': seq<LruNode>)
    requires Links(arena, order) && Indexes(pages, arena, order)
    requires |arena| <= |arena'|
    requires forall i :: 0 <= i < |order| ==> arena'[order[i]] == arena[order[i]]
    ensures Links(arena', order) && Indexes(pages, arena', order)
    ensures PagesOf(arena', order) == PagesOf(arena, order)
  {
    forall p | p in pages ensures pages[p] < |arena'| && arena'[pages[p]].pageId == p {
      var i :| 0 <= i < |order| && order[i] == pages[p];
    }
  }

  lemma PopShares(order: seq<nat>, freeList: seq<nat>, n: nat)
    requires Shares(order, freeList, n) && freeList != []
    ensures Shares([freeList[|freeList| - 1]] + order, freeList[..|freeList| - 1], n)
  {
  }

  lemma FreeShares(order: seq<nat>, freeList: seq<nat>, n: nat, k: nat)
    requires Distinct(order) && Shares(order, freeList, n) && k < |order| && order[k] < n
    ensures Shares(Drop(order, k), freeList + [order[k]], n)
  {
    DropLaw(order, k);
    assert order[k] in order;
  }

  /** Using a tracked page. */
  lemma MoveIndexes(pages: map<PageId, nat>, arena: seq<LruNode>, order: seq<nat>, k: nat, arena': seq<LruNode>)
    requires Distinct(order) && Indexes(pages, arena, order) && k < |order| && SamePages(arena, arena')
    ensures Indexes(pages, arena', [order[k]] + Drop(order, k))
  {
    DropLaw(order, k);
    var d, o := Drop(order, k), [order[k]] + Drop(order, k);
    forall x ensures x in order <==> x in o {
      assert x in o <==> x == order[k] || x in d;
    }
    forall i | 0 <= i < |o|
      ensures o[i] < |arena| && arena[o[i]].pageId in pages && pages[arena[o[i]].pageId] == o[i]
    {
      assert o[i] in o;
      var j :| 0 <= j < |order| && order[j] == o[i];
    }
  }

  lemma MoveShares(order: seq<nat>, freeList: seq<nat>, n: nat, k: nat)
    requires Distinct(order) && Shares(order, freeList, n) && k < |order|
    ensures Shares([order[k]] + Drop(order, k), freeList, n)
  {
    DropLaw(order, k);
    assert order[k] in order;
  }

  class LruReplacer {
    var pages: map<PageId, nat>
    var arena: seq<LruNode>
    var headIdx: Option<nat>
    var tailIdx: Option<nat>
    const capacity: nat
    var freeList: seq<nat>

    ghost var order: seq<nat>  // the linked slots from head to tail

    ghost predicate Linked()
      reads this
    {
      && Links(arena, order)
      && headIdx == (if order == [] then None else Some(order[0]))
      && tailIdx == (if order == [] then None else Some(order[|order| - 1]))
    }

    ghost predicate Valid()
      reads this
      ensures Valid() ==> Linked()
    {
      Linked() && Indexes(pages, arena, order) && Shares(order, freeList, |arena|) && |arena| <= capacity
    }

    ghost function Recency(): (s: seq<PageId>)
      requires Linked()
      reads this
    {
      PagesOf(arena, order)
    }

    constructor (capacity: nat)
      ensures Valid() && Recency() == [] && this.capacity == capacity
    {
      this.capacity := capacity;
      pages, arena, freeList := map[], [], [];
      headIdx, tailIdx := None, None;
      order := [];
    }

    /** The number of tracked pages. */
    method Size() returns (n: nat)
      requires Valid()
      ensures n == |Recency()| <= capacity
    {
      Tracked(pages, arena, order);
      SeqCount(Recency(), pages.Keys);
      n := |pages|;
    }

    /** Takes the slot at position k of the list out of its links. */
    method Unlink(idx: nat, ghost k: nat)
      requires Linked() && k < |order| && order[k] == idx
      modifies this`arena, this`headIdx, this`tailIdx, this`order
      ensures Linked() && order == Drop(old(order), k)
      ensures SamePages(old(arena), arena)
    {
      hide Links;
      ghost var before := arena;
      LinksAt(arena, order, k);
      LinksDistinct(arena, order);
      var prevIdx, nextIdx := arena[idx].prev, arena[idx].next;
      if prevIdx.Some? {
        var p := prevIdx.value;
        arena := arena[p := arena[p].(next := nextIdx)];
      } else {
        headIdx := nextIdx;
      }
      ghost var middle := arena;
      if nextIdx.Some? {
        var n := nextIdx.value;
        arena := arena[n := arena[n].(prev := prevIdx)];
      } else {
        tailIdx := prevIdx;
      }
      UnlinkLinks(before, order, k, middle, arena);
      DropAt(order, k);
      order := Drop(order, k);
    }

    /** Links a slot in at the head. */
    method InsertHead(idx: nat)
      requires Linked() && idx < |arena| && idx !in order
      modifies this`arena, this`headIdx, this`tailIdx, this`order
      ensures Linked() && order == [idx] + old(order)
      ensures SamePages(old(arena), arena)
    {
      ghost var before := arena;
      arena := arena[idx := arena[idx].(prev := None, next := headIdx)];
      ghost var middle := arena;
      if headIdx.Some? {
        var h := headIdx.value;
        arena := arena[h := arena[h].(prev := Some(idx))];
      } else {
        tailIdx := Some(idx);
      }
      headIdx := Some(idx);
      InsertLinks(before, order, idx, middle, arena);
      order := [idx] + order;
    }

    /** Makes a page the most recently used one, tracking it if it is new. */
    method RecordAccess(pageId: PageId)
      requires Valid() && (pageId in Recency() || |Recency()| < capacity)
      modifies this
      ensures Valid() && Recency() == Touch(old(Recency()), pageId)
    {
      Tracked(pages, arena, order);
      if pageId in pages {
        var idx := pages[pageId];
        ghost var k :| 0 <= k < |order| && order[k] == idx;
        WithoutAt(Recency(), k);
        MoveToHead(idx, k);
      } else {
        WithoutAbsent(Recency(), pageId);
        Track(pageId);
      }
    }

    method MoveToHead(idx: nat, ghost k: nat)
      requires Valid() && k < |order| && order[k] == idx
      modifies this`arena, this`headIdx, this`tailIdx, this`order
      ensures Valid() && Recency() == [old(Recency())[k]] + Drop(old(Recency()), k)
    {
      hide Links, Indexes, Shares, Drop, PagesOf;
      ghost var before, o := arena, order;
      LinksDistinct(arena, order);
      DropLaw(order, k);
      Unlink(idx, k);
      InsertHead(idx);
      MoveIndexes(pages, before, o, k, arena);
      MovePages(before, o, k, arena);
      MoveShares(o, freeList, |arena|, k);
    }

    /** Tracks a new page in the last free slot, or in one more at the end of the arena. */
    method Track(pageId: PageId)
      requires Valid() && pageId !in pages && |Recency()| < capacity
      modifies this
      ensures Valid() && Recency() == [pageId] + old(Recency())
    {
      hide Links, Indexes, Shares, PagesOf;
      LinksDistinct(arena, order);
      var newIdx := TakeSlot(pageId);
      ghost var before, o := arena, order;
      InsertHead(newIdx);
      TrackIndexes(pages, before, o, newIdx, pageId, arena);
      pages := pages[pageId := newIdx];
    }

    method TakeSlot(pageId: PageId) returns (idx: nat)
      requires Valid() && |order| < capacity
      modifies this`arena, this`freeList
      ensures Linked() && Indexes(pages, arena, order) && Recency() == old(Recency())
      ensures idx < |arena| <= capacity && idx !in order && arena[idx].pageId == pageId
      ensures Shares([idx] + order, freeList, |arena|)
    {
      hide Links, Indexes, PagesOf;
      ghost var before := arena;
      LinksDistinct(arena, order);
      if freeList != [] {
        PopShares(order, freeList, |arena|);
        idx := freeList[|freeList| - 1];
        freeList := freeList[..|freeList| - 1];
        arena := arena[idx := LruNode(None, pageId, None)];
      } else {
        idx := |arena|;
        arena := arena + [LruNode(None, pageId, None)];
      }
      WriteIndexes(pages, before, order, arena);
    }

    /** Unlinks the slot at position k and forgets its page. */
    method Discard(idx: nat, ghost k: nat)
      requires Valid() && k < |order| && order[k] == idx
      modifies this
      ensures Valid() && Recency() == Drop(old(Recency()), k)
    {
      hide Links, Indexes, Shares, Drop, PagesOf;
      ghost var before, o := arena, order;
      LinksDistinct(arena, order);
      var pageId := arena[idx].pageId;
      Unlink(idx, k);
      ForgetIndexes(pages, before, o, k, arena);
      ForgetPages(before, o, k, arena);
      FreeShares(o, freeList, |arena|, k);
      pages := pages - {pageId};
      freeList := freeList + [idx];
    }

    /** Stops tracking a page; a page that is not tracked is no concern. */
    method Remove(pageId: PageId)
      requires Valid()
      modifies this
      ensures Valid() && Recency() == Without(old(Recency()), pageId)
    {
      Tracked(pages, arena, order);
      if pageId in pages {
        var idx := pages[pageId];
        ghost var k :| 0 <= k < |order| && order[k] == idx;
        WithoutAt(Recency(), k);
        Discard(idx, k);
      } else {
        WithoutAbsent(Recency(), pageId);
      }
    }

    /** Drops and returns the least recently used page. */
    method Evict() returns (r: Option<PageId>)
      requires Valid()
      modifies this
      ensures Valid()
      ensures var s := old(Recency());
              if s == [] then r == None && Recency() == []
              else r == Some(s[|s| - 1]) && Recency() == s[..|s| - 1]
    {
      if tailIdx.None? { return None; }
      ghost var s := Recency();
      var t := tailIdx.value;
      r := Some(arena[t].pageId);
      Discard(t, |order| - 1);
      assert Drop(s, |s| - 1) == s[..|s| - 1];
    }

    /** Drops and returns the least recently used page that satisfies the predicate, leaving all
        others in their places. The walk ends because each prev link leads one step to the head. */
    method EvictIf(ok: PageId -> bool) returns (r: Option<PageId>)
      requires Valid()
      modifies this
      ensures Valid()
      ensures match LastWhere(old(Recency()), ok)
              case Some(i) => r == Some(old(Recency())[i]) && Recency() == Drop(old(Recency()), i)
              case None => r == None && Recency() == old(Recency())
    {
      hide Links, Indexes, Shares, Drop, PagesOf, LastWhere;
      LinksDistinct(arena, order);
      ghost var s := Recency();
      ghost var k := |order|;
      var currIdx := tailIdx;
      while currIdx.Some?
        invariant Valid() && Recency() == s
        invariant 0 <= k <= |order|
        invariant currIdx == if k == 0 then None else Some(order[k - 1])
        invariant forall j :: k <= j < |s| ==> !ok(s[j])
        decreases k
      {
        var nodeIdx := currIdx.value;
        LinksAt(arena, order, k - 1);
        LinksDistinct(arena, order);
        var pageId := arena[nodeIdx].pageId;
        assert pageId == s[k - 1];
        if ok(pageId) {
          LastWhereIs(s, ok, k - 1);
          Discard(nodeIdx, k - 1);
          return Some(pageId);
        }
        currIdx := arena[nodeIdx].prev;
        k := k - 1;
      }
      r := None;
    }

    /** The pages nearest to the tail, last first. The loop only stops once the list is longer
        than the limit, so it yields one page more than asked for when there is one. */
    method PeekRev(limit: nat) returns (candidates: seq<PageId>)
      requires Valid()
      ensures var s := Recency();
              && |candidates| == (if |s| <= limit then |s| else limit + 1)
              && forall i :: 0 <= i < |candidates| ==> candidates[i] == s[|s| - 1 - i]
    {
      hide Links, Indexes, Shares, PagesOf;
      LinksDistinct(arena, order);
      candidates := [];
      var currIdx := tailIdx;
      while currIdx.Some?
        invariant |candidates| <= |order| && |candidates| <= limit + 1
        invariant forall i :: 0 <= i < |candidates| ==> candidates[i] == Recency()[|order| - 1 - i]
        invariant currIdx == if |candidates| == |order| then None else Some(order[|order| - 1 - |candidates|])
        decreases |order| - |candidates|
      {
        var nodeIdx := currIdx.value;
        if |candidates| > limit { break; }
        LinksAt(arena, order, |order| - 1 - |candidates|);
        candidates := candidates + [arena[nodeIdx].pageId];
        currIdx := arena[nodeIdx].prev;
      }
    }
  }

  lemma {:induction false} SeqCount<T>(s: seq<T>, m: set<T>)
    requires Distinct(s) && forall x :: x in m <==> x in s
    ensures |m| == |s|
  {
    if s == [] {
      assert m == {};
    } else {
      assert forall x :: x in m - {s[0]} <==> x in s[1..];
      SeqCount(s[1..], m - {s[0]});
    }
  }
}
