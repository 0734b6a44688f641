/** Well-formed trees and the map they hold: what descending by routing keys finds. */
module Search {
  import opened Base
  import opened L = Leaves
  import opened LeafLaws
  import opened Nodes
  import Lru
  import opened Chains
  import opened LeafInserts

  const KEYS := 0x1_0000_0000_0000_0000

  /** The i-th child of an internal node, the rightmost one last. */
  function Child(n: Inner, i: nat): PageId
    requires InnerIndexed(n) && i <= |n.slots|
  {
    if i == |n.slots| then n.rightmost else Routes(n)[i].child
  }

  /** The keys of child i lie from Low to High of its neighbouring entries. */
  function Low(n: Inner, i: nat, lo: nat): nat
    requires InnerIndexed(n) && i <= |n.slots|
  {
    if i == 0 then lo else Routes(n)[i - 1].key
  }

  function High(n: Inner, i: nat, hi: nat): nat
    requires InnerIndexed(n) && i <= |n.slots|
  {
    if i == |n.slots| then hi else Routes(n)[i].key
  }

  ghost predicate Within(rs: seq<Record>, lo: nat, hi: nat) {
    forall i :: 0 <= i < |rs| ==> lo <= rs[i].rowId < hi
  }

  ghost predicate Sorted(n: Inner, lo: nat, hi: nat) {
    InnerIndexed(n) && RoutesAscend(Routes(n)) && forall i :: 0 <= i < |n.slots| ==> lo <= Routes(n)[i].key <= hi
  }

  /** The subtree at page p, of height at most h, with all its keys from lo to below hi. */
  ghost predicate TreeAt(m: map<PageId, Node>, p: PageId, lo: nat, hi: nat, h: nat)
    decreases h
  {
    p in m &&
    match m[p]
    case LeafNode(l) => WellFormed(l) && Within(Ordered(l), lo, hi)
    case InnerNode(n) =>
      h > 0 && Sorted(n, lo, hi) &&
      forall i :: 0 <= i <= |n.slots| ==> TreeAt(m, Child(n, i), Low(n, i, lo), High(n, i, hi), h - 1)
  }

  /** The live records of all leaves under page p. */
  ghost function TreeMap(m: map<PageId, Node>, p: PageId, h: nat): map<U64, seq<Byte>>
    decreases h, 0
  {
    if p !in m then map[]
    else
      match m[p]
      case LeafNode(l) => if Indexed(l) then Live(l) else map[]
      case InnerNode(n) => if h > 0 && InnerIndexed(n) then ChildMaps(m, n, |n.slots| + 1, h - 1) else map[]
  }

  /** The union over the first c children. */
  ghost function ChildMaps(m: map<PageId, Node>, n: Inner, c: nat, h: nat): map<U64, seq<Byte>>
    requires InnerIndexed(n) && c <= |n.slots| + 1
    decreases h, c + 1
  {
    if c == 0 then map[] else ChildMaps(m, n, c - 1, h) + TreeMap(m, Child(n, c - 1), h)
  }

  function ValueAt(m: map<U64, seq<Byte>>, k: U64): Option<seq<Byte>> {
    if k in m then Some(m[k]) else None
  }

  lemma ChildTree(m: map<PageId, Node>, p: PageId, lo: nat, hi: nat, h: nat, i: nat)
    requires TreeAt(m, p, lo, hi, h) && m[p].InnerNode? && i <= |m[p].inner.slots|
    ensures h > 0 && TreeAt(m, Child(m[p].inner, i), Low(m[p].inner, i, lo), High(m[p].inner, i, hi), h - 1)
  {
  }

  /** A tree holds keys of its interval only. */
  lemma {:induction false} TreeKeys(m: map<PageId, Node>, p: PageId, lo: nat, hi: nat, h: nat, k: U64)
    requires TreeAt(m, p, lo, hi, h) && k in TreeMap(m, p, h)
    ensures lo <= k < hi
    decreases h, 1, 0
  {
    match m[p]
    case LeafNode(l) => LiveMapKeys(Ordered(l), k);
    case InnerNode(n) =>
      var i := ChildHolding(m, p, lo, hi, h, k, |n.slots| + 1);
  }

  lemma TreeSorted(m: map<PageId, Node>, p: PageId, lo: nat, hi: nat, h: nat)
    requires TreeAt(m, p, lo, hi, h) && m[p].InnerNode?
    ensures h > 0 && Sorted(m[p].inner, lo, hi)
  {
  }

  lemma InnerEnds(n: Inner, lo: nat, hi: nat, i: nat)
    requires Sorted(n, lo, hi) && i <= |n.slots|
    ensures lo <= Low(n, i, lo) && High(n, i, hi) <= hi
  {
  }

  lemma {:induction false} ChildHolding(m: map<PageId, Node>, p: PageId, lo: nat, hi: nat, h: nat, k: U64, c: nat)
    returns (i: nat)
    requires TreeAt(m, p, lo, hi, h) && m[p].InnerNode? && c <= |m[p].inner.slots| + 1
    requires k in ChildMaps(m, m[p].inner, c, h - 1)
    ensures i < c && Low(m[p].inner, i, lo) <= k < High(m[p].inner, i, hi) && lo <= k < hi
    decreases h, 0, c
  {
    hide TreeMap, Routes, Low, High, Child;
    TreeSorted(m, p, lo, hi, h);
    var n := m[p].inner;
    if k in TreeMap(m, Child(n, c - 1), h - 1) {
      i := c - 1;
      ChildTree(m, p, lo, hi, h, i);
      InnerEnds(n, lo, hi, i);
      hide TreeAt;
      TreeKeys(m, Child(n, i), Low(n, i, lo), High(n, i, hi), h - 1, k);
    } else {
      i := ChildHolding(m, p, lo, hi, h, k, c - 1);
    }
  }

  /** A key inside the interval of child i is in no other child. */
  lemma IntervalOf(n: Inner, lo: nat, hi: nat, k: U64, j: nat)
    requires Sorted(n, lo, hi) && j <= |n.slots| && Low(n, j, lo) <= k < High(n, j, hi)
    ensures j == PartitionPoint(Routes(n), k)
  {
    var es := Routes(n);
    forall x | 0 <= x < j ensures es[x].key <= k {
      if x < j - 1 { assert es[x].key < es[j - 1].key; }
    }
    PartitionUnique(es, k, j);
  }

  lemma OnlyChild(m: map<PageId, Node>, p: PageId, lo: nat, hi: nat, h: nat, k: U64, j: nat)
    requires TreeAt(m, p, lo, hi, h) && m[p].InnerNode? && j <= |m[p].inner.slots|
    ensures h > 0 && (k in TreeMap(m, Child(m[p].inner, j), h - 1) ==> j == PartitionPoint(Routes(m[p].inner), k))
  {
    hide TreeMap, Routes;
    var n := m[p].inner;
    ChildTree(m, p, lo, hi, h, j);
    if k in TreeMap(m, Child(n, j), h - 1) {
      TreeKeys(m, Child(n, j), Low(n, j, lo), High(n, j, hi), h - 1, k);
      IntervalOf(n, lo, hi, k, j);
    }
  }

  lemma {:induction false} ChildMapsLookup(m: map<PageId, Node>, n: Inner, h: nat, k: U64, i: nat, c: nat)
    requires InnerIndexed(n) && c <= |n.slots| + 1 && i <= |n.slots|
    requires forall j :: 0 <= j <= |n.slots| && j != i ==> k !in TreeMap(m, Child(n, j), h)
    ensures ValueAt(ChildMaps(m, n, c, h), k) == if i < c then ValueAt(TreeMap(m, Child(n, i), h), k) else None
    decreases c
  {
    hide TreeMap, Routes;
    if c > 0 { ChildMapsLookup(m, n, h, k, i, c - 1); }
  }

  /** One step down: the child a key is routed to is a smaller tree that answers for the whole one,
      and the key is still in its interval. */
  lemma RouteStep(m: map<PageId, Node>, p: PageId, lo: nat, hi: nat, h: nat, k: U64)
    requires TreeAt(m, p, lo, hi, h) && m[p].InnerNode? && lo <= k < hi
    ensures var n := m[p].inner;
            var i := PartitionPoint(Routes(n), k);
            && RouteKey(n, k) == Child(n, i)
            && Low(n, i, lo) <= k < High(n, i, hi)
            && TreeAt(m, Child(n, i), Low(n, i, lo), High(n, i, hi), h - 1)
            && ValueAt(TreeMap(m, p, h), k) == ValueAt(TreeMap(m, Child(n, i), h - 1), k)
  {
    hide TreeMap, Routes;
    var n := m[p].inner;
    MapUnfolds(m, p, n, h);
    var i := PartitionPoint(Routes(n), k);
    ChildTree(m, p, lo, hi, h, i);
    forall j | 0 <= j <= |n.slots| && j != i ensures k !in TreeMap(m, Child(n, j), h - 1) {
      OnlyChild(m, p, lo, hi, h, k, j);
    }
    ChildMapsLookup(m, n, h - 1, k, i, |n.slots| + 1);
  }

  lemma MapUnfolds(m: map<PageId, Node>, p: PageId, n: Inner, h: nat)
    requires p in m && m[p] == InnerNode(n) && InnerIndexed(n) && h > 0
    ensures TreeMap(m, p, h) == ChildMaps(m, n, |n.slots| + 1, h - 1)
  {
  }

  /** The leaf a descent by routing keys ends at. */
  ghost function LeafOf(m: map<PageId, Node>, p: PageId, lo: nat, hi: nat, h: nat, k: U64): PageId
    requires TreeAt(m, p, lo, hi, h) && lo <= k < hi
    decreases h
  {
    match m[p]
    case LeafNode(_) => p
    case InnerNode(n) =>
      RouteStep(m, p, lo, hi, h, k);
      var i := PartitionPoint(Routes(n), k);
      LeafOf(m, RouteKey(n, k), Low(n, i, lo), High(n, i, hi), h - 1, k)
  }

  /** Descending to a leaf and searching it is looking the key up among all live records of the tree. */
  lemma {:induction false} DescentIsLookup(m: map<PageId, Node>, p: PageId, lo: nat, hi: nat, h: nat, k: U64)
    requires TreeAt(m, p, lo, hi, h) && lo <= k < hi
    ensures LeafAt(m, LeafOf(m, p, lo, hi, h, k))
    ensures L.Get(m[LeafOf(m, p, lo, hi, h, k)].leaf, k) == ValueAt(TreeMap(m, p, h), k)
    decreases h
  {
    match m[p]
    case LeafNode(l) => GetRefinesMap(l, k);
    case InnerNode(n) =>
      RouteStep(m, p, lo, hi, h, k);
      var i := PartitionPoint(Routes(n), k);
      DescentIsLookup(m, RouteKey(n, k), Low(n, i, lo), High(n, i, hi), h - 1, k);
  }

  // ----- inserting into a tree -----

  /** The leaf pages of a tree from left to right. */
  ghost function LeafIds(m: map<PageId, Node>, p: PageId, h: nat): seq<PageId>
    decreases h, 0
  {
    if p !in m then []
    else
      match m[p]
      case LeafNode(_) => [p]
      case InnerNode(n) => if h > 0 && InnerIndexed(n) then ChildIds(m, n, |n.slots| + 1, h - 1) else []
  }

  ghost function ChildIds(m: map<PageId, Node>, n: Inner, c: nat, h: nat): seq<PageId>
    requires InnerIndexed(n) && c <= |n.slots| + 1
    decreases h, c + 1
  {
    if c == 0 then [] else ChildIds(m, n, c - 1, h) + LeafIds(m, Child(n, c - 1), h)
  }

  /** Leaf page x holds l' instead, and a tree in which it does not occur is the same. */
  lemma {:induction false} TreeWithout(m: map<PageId, Node>, p: PageId, lo: nat, hi: nat, h: nat, x: PageId, l': Leaf)
    requires TreeAt(m, p, lo, hi, h) && x in m && m[x].LeafNode? && x !in LeafIds(m, p, h)
    ensures TreeAt(m[x := LeafNode(l')], p, lo, hi, h)
    ensures TreeMap(m[x := LeafNode(l')], p, h) == TreeMap(m, p, h)
    ensures LeafIds(m[x := LeafNode(l')], p, h) == LeafIds(m, p, h)
    decreases h
  {
    var m' := m[x := LeafNode(l')];
    match m[p]
    case LeafNode(_) =>
    case InnerNode(n) =>
      hide TreeMap, LeafIds, Routes;
      forall i | 0 <= i <= |n.slots|
        ensures TreeAt(m', Child(n, i), Low(n, i, lo), High(n, i, hi), h - 1)
        ensures TreeMap(m', Child(n, i), h - 1) == TreeMap(m, Child(n, i), h - 1)
        ensures LeafIds(m', Child(n, i), h - 1) == LeafIds(m, Child(n, i), h - 1)
      {
        ChildTree(m, p, lo, hi, h, i);
        ChildIdsOf(m, p, n, h, i);
        TreeWithout(m, Child(n, i), Low(n, i, lo), High(n, i, hi), h - 1, x, l');
      }
      ChildrenSame(m, m', n, |n.slots| + 1, h - 1);
      InnerUnfolds(m, p, n, h);
      InnerUnfolds(m', p, n, h);
  }

  lemma InnerUnfolds(m: map<PageId, Node>, p: PageId, n: Inner, h: nat)
    requires p in m && m[p] == InnerNode(n) && InnerIndexed(n) && h > 0
    ensures TreeMap(m, p, h) == ChildMaps(m, n, |n.slots| + 1, h - 1)
    ensures LeafIds(m, p, h) == ChildIds(m, n, |n.slots| + 1, h - 1)
  {
  }

  lemma ChildIdsOf(m: map<PageId, Node>, p: PageId, n: Inner, h: nat, i: nat)
    requires p in m && m[p] == InnerNode(n) && InnerIndexed(n) && h > 0 && i <= |n.slots|
    ensures forall x :: x in LeafIds(m, Child(n, i), h - 1) ==> x in LeafIds(m, p, h)
  {
    hide TreeMap, Routes;
    InnerUnfolds(m, p, n, h);
    hide LeafIds;
    ChildIdsIn(m, n, |n.slots| + 1, h - 1, i);
  }

  lemma {:induction false} ChildIdsIn(m: map<PageId, Node>, n: Inner, c: nat, h: nat, i: nat)
    requires InnerIndexed(n) && i < c <= |n.slots| + 1
    ensures forall x :: x in LeafIds(m, Child(n, i), h) ==> x in ChildIds(m, n, c, h)
    decreases c
  {
    hide LeafIds, Routes;
    if i < c - 1 { ChildIdsIn(m, n, c - 1, h, i); }
  }

  lemma {:induction false} ChildrenSame(m: map<PageId, Node>, m': map<PageId, Node>, n: Inner, c: nat, h: nat)
    requires InnerIndexed(n) && c <= |n.slots| + 1
    requires forall i :: 0 <= i < c ==> TreeMap(m', Child(n, i), h) == TreeMap(m, Child(n, i), h)
                                        && LeafIds(m', Child(n, i), h) == LeafIds(m, Child(n, i), h)
    ensures ChildMaps(m', n, c, h) == ChildMaps(m, n, c, h) && ChildIds(m', n, c, h) == ChildIds(m, n, c, h)
    decreases c
  {
    hide TreeMap, LeafIds, Routes;
    if c > 0 { ChildrenSame(m, m', n, c - 1, h); }
  }

  /** The leaf a key is routed to is one of the leaves. */
  lemma {:induction false} LeafOfIn(m: map<PageId, Node>, p: PageId, lo: nat, hi: nat, h: nat, k: U64)
    requires TreeAt(m, p, lo, hi, h) && lo <= k < hi
    ensures LeafOf(m, p, lo, hi, h, k) in LeafIds(m, p, h)
    decreases h
  {
    match m[p]
    case LeafNode(_) =>
    case InnerNode(n) =>
      RouteStep(m, p, lo, hi, h, k);
      var i := PartitionPoint(Routes(n), k);
      LeafOfIn(m, Child(n, i), Low(n, i, lo), High(n, i, hi), h - 1, k);
      ChildIdsOf(m, p, n, h, i);
  }

  /** In a list of lists without duplicates no element is in two of them. */
  lemma {:induction false} ChildrenApart(m: map<PageId, Node>, n: Inner, c: nat, h: nat, i: nat, j: nat, x: PageId)
    requires InnerIndexed(n) && i < j < c <= |n.slots| + 1 && Lru.Distinct(ChildIds(m, n, c, h))
    ensures !(x in LeafIds(m, Child(n, i), h) && x in LeafIds(m, Child(n, j), h))
    decreases c
  {
    hide LeafIds, Routes;
    var before, last := ChildIds(m, n, c - 1, h), LeafIds(m, Child(n, c - 1), h);
    DistinctParts(before, last);
    if j < c - 1 {
      ChildrenApart(m, n, c - 1, h, i, j, x);
    } else {
      ChildIdsIn(m, n, c - 1, h, i);
    }
  }

  lemma DistinctParts(a: seq<PageId>, b: seq<PageId>)
    requires Lru.Distinct(a + b)
    ensures Lru.Distinct(a) && Lru.Distinct(b) && forall x :: x in a ==> x !in b
  {
    forall i | 0 <= i < |a| ensures (a + b)[i] == a[i] {}
    forall i | 0 <= i < |b| ensures (a + b)[|a| + i] == b[i] {}
  }

  lemma {:induction false} ChildDistinct(m: map<PageId, Node>, n: Inner, c: nat, h: nat, i: nat)
    requires InnerIndexed(n) && i < c <= |n.slots| + 1 && Lru.Distinct(ChildIds(m, n, c, h))
    ensures Lru.Distinct(LeafIds(m, Child(n, i), h))
    decreases c
  {
    hide LeafIds, Routes;
    DistinctParts(ChildIds(m, n, c - 1, h), LeafIds(m, Child(n, c - 1), h));
    if i < c - 1 { ChildDistinct(m, n, c - 1, h, i); }
  }

  /** What a leaf that got key k may become: its keys are the old ones and k, and it means one more. */
  ghost predicate Gains(l: Leaf, l': Leaf, k: U64, payload: seq<Byte>) {
    && WellFormed(l) && WellFormed(l')
    && (forall r :: r in Ordered(l') ==> r.rowId == k || r in Ordered(l))
    && Live(l') == Live(l)[k := payload]
  }

  /** Inserting where a descent for the key ends keeps the tree, its leaves in order, and adds the key
      to what the tree holds. */
  lemma {:induction false} TreeGains(m: map<PageId, Node>, p: PageId, lo: nat, hi: nat, h: nat, k: U64,
                                     payload: seq<Byte>,
                                     x: PageId, l': Leaf)
    requires TreeAt(m, p, lo, hi, h) && lo <= k < hi && Lru.Distinct(LeafIds(m, p, h))
    requires x == LeafOf(m, p, lo, hi, h, k) && x in m && m[x].LeafNode? && Gains(m[x].leaf, l', k, payload)
    ensures var m' := m[x := LeafNode(l')];
            && TreeAt(m', p, lo, hi, h) && LeafIds(m', p, h) == LeafIds(m, p, h)
            && TreeMap(m', p, h) == TreeMap(m, p, h)[k := payload]
    decreases h
  {
    var m' := m[x := LeafNode(l')];
    match m[p]
    case LeafNode(l) => WithinGains(l, l', k, payload, lo, hi);
    case InnerNode(n) =>
      hide TreeMap, LeafIds, Routes, Gains, Lru.Distinct;
      RoutedSame(m, p, lo, hi, h, k, n);
      var i := PartitionPoint(Routes(n), k);
      InnerUnfolds(m, p, n, h);
      ChildDistinct(m, n, |n.slots| + 1, h - 1, i);
      TreeGains(m, Child(n, i), Low(n, i, lo), High(n, i, hi), h - 1, k, payload, x, l');
      InnerGains(m, p, lo, hi, h, k, payload, x, l', n);
  }

  /** What an insert under child i makes of child j. */
  ghost predicate ChildGained(m: map<PageId, Node>, m': map<PageId, Node>, n: Inner, lo: nat, hi: nat, h: nat, i: nat,
                              j: nat, k: U64, payload: seq<Byte>)
    requires InnerIndexed(n) && j <= |n.slots|
  {
    && TreeAt(m', Child(n, j), Low(n, j, lo), High(n, j, hi), h)
    && LeafIds(m', Child(n, j), h) == LeafIds(m, Child(n, j), h)
    && TreeMap(m', Child(n, j), h) ==
         (if j == i then TreeMap(m, Child(n, j), h)[k := payload] else TreeMap(m, Child(n, j), h))
    && (j != i ==> k !in TreeMap(m, Child(n, j), h))
  }

  lemma InnerGains(m: map<PageId, Node>, p: PageId, lo: nat, hi: nat, h: nat, k: U64, payload: seq<Byte>, x: PageId,
                   l': Leaf, n: Inner)
    requires TreeAt(m, p, lo, hi, h) && lo <= k < hi && m[p] == InnerNode(n) && InnerIndexed(n) && h > 0
    requires Lru.Distinct(LeafIds(m, p, h)) && x == LeafOf(m, p, lo, hi, h, k) && x in m && m[x].LeafNode?
    requires var m', i := m[x := LeafNode(l')], PartitionPoint(Routes(n), k);
             ChildGained(m, m', n, lo, hi, h - 1, i, i, k, payload)
    ensures var m' := m[x := LeafNode(l')];
            && TreeAt(m', p, lo, hi, h) && LeafIds(m', p, h) == LeafIds(m, p, h)
            && TreeMap(m', p, h) == TreeMap(m, p, h)[k := payload]
  {
    NotInner(m, p, x, n);
    var m', i := m[x := LeafNode(l')], PartitionPoint(Routes(n), k);
    hide TreeMap, LeafIds, Routes, Lru.Distinct, LeafOf, TreeAt, Child, ChildGained, Low, High;
    InnerUnfolds(m, p, n, h);
    InnerUnfolds(m', p, n, h);
    var g: nat := h - 1;
    forall j | 0 <= j <= |n.slots| ensures ChildGained(m, m', n, lo, hi, g, i, j, k, payload) {
      if j != i {
        OtherChild(m, p, lo, hi, h, k, n, j, x, l');
        OtherGained(m, m', n, lo, hi, g, i, j, k, payload);
      }
    }
    TreeOf(m, m', p, lo, hi, g, n, i, k, payload);
    ChildrenGain(m, m', n, |n.slots| + 1, lo, hi, g, i, k, payload);
  }

  lemma NotInner(m: map<PageId, Node>, p: PageId, x: PageId, n: Inner)
    requires p in m && m[p] == InnerNode(n) && x in m && m[x].LeafNode?
    ensures p != x
  {
  }

  lemma OtherGained(m: map<PageId, Node>, m': map<PageId, Node>, n: Inner, lo: nat, hi: nat, h: nat, i: nat, j: nat,
                    k: U64, payload: seq<Byte>)
    requires InnerIndexed(n) && j <= |n.slots| && j != i
    requires TreeAt(m', Child(n, j), Low(n, j, lo), High(n, j, hi), h)
    requires LeafIds(m', Child(n, j), h) == LeafIds(m, Child(n, j), h)
    requires TreeMap(m', Child(n, j), h) == TreeMap(m, Child(n, j), h) && k !in TreeMap(m, Child(n, j), h)
    ensures ChildGained(m, m', n, lo, hi, h, i, j, k, payload)
  {
  }

  lemma TreeOf(m: map<PageId, Node>, m': map<PageId, Node>, p: PageId, lo: nat, hi: nat, g: nat, n: Inner, i: nat,
               k: U64, payload: seq<Byte>)
    requires TreeAt(m, p, lo, hi, g + 1) && m[p] == InnerNode(n) && p in m' && m'[p] == m[p]
    requires InnerIndexed(n)
    requires forall j :: 0 <= j <= |n.slots| ==> ChildGained(m, m', n, lo, hi, g, i, j, k, payload)
    ensures TreeAt(m', p, lo, hi, g + 1)
  {
    hide TreeMap, LeafIds, Routes;
    forall j | 0 <= j <= |n.slots| ensures TreeAt(m', Child(n, j), Low(n, j, lo), High(n, j, hi), g) {
      assert ChildGained(m, m', n, lo, hi, g, i, j, k, payload);
    }
  }

  /** A child the key is not routed to keeps its tree. */
  lemma OtherChild(m: map<PageId, Node>, p: PageId, lo: nat, hi: nat, h: nat, k: U64, n: Inner, j: nat, x: PageId,
                   l': Leaf)
    requires TreeAt(m, p, lo, hi, h) && lo <= k < hi && m[p] == InnerNode(n) && InnerIndexed(n) && h > 0
    requires Lru.Distinct(LeafIds(m, p, h)) && j <= |n.slots| && j != PartitionPoint(Routes(n), k)
    requires x == LeafOf(m, p, lo, hi, h, k) && x in m && m[x].LeafNode?
    ensures var m' := m[x := LeafNode(l')];
            && TreeAt(m', Child(n, j), Low(n, j, lo), High(n, j, hi), h - 1)
            && LeafIds(m', Child(n, j), h - 1) == LeafIds(m, Child(n, j), h - 1)
            && TreeMap(m', Child(n, j), h - 1) == TreeMap(m, Child(n, j), h - 1)
            && k !in TreeMap(m, Child(n, j), h - 1)
  {
    hide TreeMap, LeafIds, Routes, Lru.Distinct;
    RoutedSame(m, p, lo, hi, h, k, n);
    var i := PartitionPoint(Routes(n), k);
    InnerUnfolds(m, p, n, h);
    hide LeafOf;
    LeafOfIn(m, Child(n, i), Low(n, i, lo), High(n, i, hi), h - 1, k);
    ChildTree(m, p, lo, hi, h, j);
    OnlyChild(m, p, lo, hi, h, k, j);
    hide TreeAt;
    ChildrenApart(m, n, |n.slots| + 1, h - 1, if i < j then i else j, if i < j then j else i, x);
    TreeWithout(m, Child(n, j), Low(n, j, lo), High(n, j, hi), h - 1, x, l');
  }

  lemma WithinGains(l: Leaf, l': Leaf, k: U64, payload: seq<Byte>, lo: nat, hi: nat)
    requires Gains(l, l', k, payload) && Within(Ordered(l), lo, hi) && lo <= k < hi
    ensures Within(Ordered(l'), lo, hi)
  {
    forall i | 0 <= i < |Ordered(l')| ensures lo <= Ordered(l')[i].rowId < hi {
      assert Ordered(l')[i] in Ordered(l');
    }
  }

  lemma {:induction false} ChildrenGain(m: map<PageId, Node>, m': map<PageId, Node>, n: Inner, c: nat, lo: nat, hi: nat,
                                        h: nat, i: nat, k: U64, payload: seq<Byte>)
    requires InnerIndexed(n) && c <= |n.slots| + 1
    requires forall j :: 0 <= j < c ==> ChildGained(m, m', n, lo, hi, h, i, j, k, payload)
    ensures ChildIds(m', n, c, h) == ChildIds(m, n, c, h)
    ensures ChildMaps(m', n, c, h) == if i < c then ChildMaps(m, n, c, h)[k := payload] else ChildMaps(m, n, c, h)
    decreases c
  {
    hide TreeMap, LeafIds, Routes, TreeAt;
    if c > 0 {
      ChildrenGain(m, m', n, c - 1, lo, hi, h, i, k, payload);
      assert ChildGained(m, m', n, lo, hi, h, i, c - 1, k, payload);
      AddedRight(ChildMaps(m, n, c - 1, h), TreeMap(m, Child(n, c - 1), h), k, payload);
    }
  }

  lemma AddedRight(a: map<U64, seq<Byte>>, b: map<U64, seq<Byte>>, k: U64, x: seq<Byte>)
    ensures a + b[k := x] == (a + b)[k := x]
    ensures k !in b ==> a[k := x] + b == (a + b)[k := x]
  {
  }

  // ----- trees over chains -----

  /** Along the leaves of a tree there are keys of its interval only. */
  lemma {:induction false} AlongTree(m: map<PageId, Node>, p: PageId, lo: nat, hi: nat, h: nat)
    requires TreeAt(m, p, lo, hi, h) && lo <= hi
    ensures AllLeaves(m, LeafIds(m, p, h)) && Within(Along(m, LeafIds(m, p, h)), lo, hi)
    decreases h, 1, 0
  {
    match m[p]
    case LeafNode(_) => AlongOne(m, p);
    case InnerNode(n) =>
      hide LeafIds, Along, AllLeaves, Within;
      AlongChildren(m, p, lo, hi, h, 0, |n.slots| + 1);
      EdgesRise(n, lo, hi, |n.slots| + 1, |n.slots| + 1);
      InnerUnfolds(m, p, n, h);
      assert ChildIds(m, n, 0, h - 1) == [];
      assert LeafIds(m, p, h) == ChildrenFrom(m, n, 0, |n.slots| + 1, h - 1);
  }

  /** The lower end of child i, and the upper end of the whole for one child more. */
  function Edge(n: Inner, i: nat, lo: nat, hi: nat): nat
    requires InnerIndexed(n) && i <= |n.slots| + 1
  {
    if i == 0 then lo else High(n, i - 1, hi)
  }

  lemma EdgesRise(n: Inner, lo: nat, hi: nat, i: nat, j: nat)
    requires Sorted(n, lo, hi) && lo <= hi && i <= j <= |n.slots| + 1
    ensures lo <= Edge(n, i, lo, hi) <= Edge(n, j, lo, hi) <= hi
    ensures i <= |n.slots| ==> Low(n, i, lo) == Edge(n, i, lo, hi)
  {
  }

  /** The leaves of the children from the a-th to the c-th. */
  ghost function ChildrenFrom(m: map<PageId, Node>, n: Inner, a: nat, c: nat, h: nat): (ids: seq<PageId>)
    requires InnerIndexed(n) && a <= c <= |n.slots| + 1
    ensures ChildIds(m, n, c, h) == ChildIds(m, n, a, h) + ids
    decreases c
  {
    hide LeafIds, Routes;
    if a == c then [] else
      Associates(ChildIds(m, n, a, h), ChildrenFrom(m, n, a, c - 1, h), LeafIds(m, Child(n, c - 1), h));
      ChildrenFrom(m, n, a, c - 1, h) + LeafIds(m, Child(n, c - 1), h)
  }

  lemma {:induction false} AlongChildren(m: map<PageId, Node>, p: PageId, lo: nat, hi: nat, h: nat, a: nat, c: nat)
    requires TreeAt(m, p, lo, hi, h) && lo <= hi && m[p].InnerNode? && a <= c <= |m[p].inner.slots| + 1
    ensures h > 0
    ensures var n := m[p].inner;
            var ids := ChildrenFrom(m, n, a, c, h - 1);
            AllLeaves(m, ids) && Within(Along(m, ids), Edge(n, a, lo, hi), Edge(n, c, lo, hi))
    decreases h, 0, c
  {
    hide LeafIds, Routes, TreeMap, Within;
    var n := m[p].inner;
    if a == c {
      WithinNothing(Edge(n, a, lo, hi));
    } else {
      AlongChildren(m, p, lo, hi, h, a, c - 1);
      ChildTree(m, p, lo, hi, h, c - 1);
      EdgesRise(n, lo, hi, a, c - 1);
      EdgesRise(n, lo, hi, c - 1, c);
      EdgesRise(n, lo, hi, a, c);
      hide TreeAt, Along, AllLeaves;
      var before, child := ChildrenFrom(m, n, a, c - 1, h - 1), LeafIds(m, Child(n, c - 1), h - 1);
      AlongTree(m, Child(n, c - 1), Low(n, c - 1, lo), High(n, c - 1, hi), h - 1);
      AlongConcat(m, before, child);
      WithinConcat(Along(m, before), Along(m, child), Edge(n, a, lo, hi), Edge(n, c - 1, lo, hi), Edge(n, c, lo, hi));
    }
  }

  lemma WithinNothing(edge: nat)
    ensures Within([], edge, edge)
  {
  }

  lemma WithinConcat(a: seq<Record>, b: seq<Record>, lo: nat, mid: nat, hi: nat)
    requires Within(a, lo, mid) && Within(b, mid, hi) && lo <= mid <= hi
    ensures Within(a + b, lo, hi)
  {
  }

  /** The leaf a key is routed to has only smaller keys before it along the leaves, only larger behind. */
  lemma {:induction false} RoutedBetween(m: map<PageId, Node>, p: PageId, lo: nat, hi: nat, h: nat, k: U64)
    returns (before: seq<PageId>, behind: seq<PageId>)
    requires TreeAt(m, p, lo, hi, h) && lo <= k < hi
    ensures LeafIds(m, p, h) == before + [LeafOf(m, p, lo, hi, h, k)] + behind
    ensures AllLeaves(m, before) && Below(Along(m, before), k)
    ensures AllLeaves(m, behind) && Above(Along(m, behind), k)
    decreases h
  {
    match m[p]
    case LeafNode(_) => before, behind := [], [];
    case InnerNode(n) =>
      hide LeafIds, Routes, TreeMap, Along, AllLeaves;
      RoutedSame(m, p, lo, hi, h, k, n);
      var i := PartitionPoint(Routes(n), k);
      var leaf := LeafOf(m, p, lo, hi, h, k);
      hide LeafOf;
      before, behind := RoutedBetween(m, Child(n, i), Low(n, i, lo), High(n, i, hi), h - 1, k);
      before, behind := AroundChild(m, p, lo, hi, h, k, n, i, before, leaf, behind);
  }

  lemma AroundChild(m: map<PageId, Node>, p: PageId, lo: nat, hi: nat, h: nat, k: U64, n: Inner, i: nat,
                    b: seq<PageId>, leaf: PageId, c: seq<PageId>) returns (before: seq<PageId>, behind: seq<PageId>)
    requires TreeAt(m, p, lo, hi, h) && lo <= k < hi && m[p] == InnerNode(n) && InnerIndexed(n) && h > 0
    requires i <= |n.slots| && Low(n, i, lo) <= k < High(n, i, hi)
    requires LeafIds(m, Child(n, i), h - 1) == b + [leaf] + c
    requires AllLeaves(m, b) && Below(Along(m, b), k) && AllLeaves(m, c) && Above(Along(m, c), k)
    ensures LeafIds(m, p, h) == before + [leaf] + behind
    ensures AllLeaves(m, before) && Below(Along(m, before), k)
    ensures AllLeaves(m, behind) && Above(Along(m, behind), k)
  {
    hide LeafIds, Routes, TreeMap, Along, AllLeaves, Child, Edge, Within, Below, Above, Sorted, ChildIds;
    LowIsEdge(n, lo, hi, i);
    var last := |n.slots| + 1;
    InnerUnfolds(m, p, n, h);
    AlongChildren(m, p, lo, hi, h, 0, i);
    AlongChildren(m, p, lo, hi, h, i + 1, last);
    EdgesRise(n, lo, hi, i, i + 1);
    hide TreeAt;
    var left, right := ChildrenFrom(m, n, 0, i, h - 1), ChildrenFrom(m, n, i + 1, last, h - 1);
    AlongConcat(m, left, b);
    AlongConcat(m, c, right);
    BelowBoth(Along(m, left), Along(m, b), Edge(n, i, lo, hi), k);
    AboveBoth(Along(m, c), Along(m, right), Edge(n, i + 1, lo, hi), k);
    AllChildren(m, n, i, h - 1);
    IdsAround(left, b, leaf, c, right);
    before, behind := left + b, c + right;
  }

  lemma LowIsEdge(n: Inner, lo: nat, hi: nat, i: nat)
    requires InnerIndexed(n) && i <= |n.slots|
    ensures Low(n, i, lo) == Edge(n, i, lo, hi) && High(n, i, hi) == Edge(n, i + 1, lo, hi)
  {
  }

  lemma AllChildren(m: map<PageId, Node>, n: Inner, i: nat, h: nat)
    requires InnerIndexed(n) && i <= |n.slots|
    ensures ChildIds(m, n, |n.slots| + 1, h) ==
            ChildrenFrom(m, n, 0, i, h) + LeafIds(m, Child(n, i), h) + ChildrenFrom(m, n, i + 1, |n.slots| + 1, h)
  {
    hide LeafIds, Routes, Child, ChildrenFrom;
    OneChildMore(m, n, i, h);
    var before := ChildrenFrom(m, n, 0, i, h);
    hide ChildIds;
    assert [] + before == before;
  }

  lemma OneChildMore(m: map<PageId, Node>, n: Inner, i: nat, h: nat)
    requires InnerIndexed(n) && i <= |n.slots|
    ensures ChildIds(m, n, 0, h) == []
    ensures ChildIds(m, n, i + 1, h) == ChildIds(m, n, i, h) + LeafIds(m, Child(n, i), h)
  {
    hide LeafIds, Routes, Child;
  }

  lemma RoutedSame(m: map<PageId, Node>, p: PageId, lo: nat, hi: nat, h: nat, k: U64, n: Inner)
    requires TreeAt(m, p, lo, hi, h) && lo <= k < hi && m[p] == InnerNode(n)
    ensures var i := PartitionPoint(Routes(n), k);
            && h > 0 && Low(n, i, lo) <= k < High(n, i, hi)
            && TreeAt(m, Child(n, i), Low(n, i, lo), High(n, i, hi), h - 1)
            && LeafOf(m, p, lo, hi, h, k) == LeafOf(m, Child(n, i), Low(n, i, lo), High(n, i, hi), h - 1, k)
  {
    RouteStep(m, p, lo, hi, h, k);
  }

  lemma IdsAround(a: seq<PageId>, b: seq<PageId>, x: PageId, c: seq<PageId>, d: seq<PageId>)
    ensures a + (b + [x] + c) + d == (a + b) + [x] + (c + d)
  {
  }

  lemma BelowBoth(a: seq<Record>, b: seq<Record>, edge: nat, k: U64)
    requires (exists lo: nat :: Within(a, lo, edge)) && edge <= k && Below(b, k)
    ensures Below(a + b, k)
  {
  }

  lemma AboveBoth(a: seq<Record>, b: seq<Record>, edge: nat, k: U64)
    requires (exists hi: nat :: Within(b, edge, hi)) && k < edge && Above(a, k)
    ensures Above(a + b, k)
  {
  }

  /** So when the leaves of a tree, from left to right, are the chain, a key is routed to the leaf of
      the chain in whose range it lies. */
  lemma RoutedInRange(m: map<PageId, Node>, p: PageId, h: nat, ids: seq<PageId>, k: U64) returns (i: nat)
    requires TreeAt(m, p, 0, KEYS, h) && ids == LeafIds(m, p, h)
    ensures i < |ids| && ids[i] == LeafOf(m, p, 0, KEYS, h, k)
    ensures AllLeaves(m, ids) && InRange(m, ids, i, k)
  {
    hide LeafIds, Routes, TreeMap, Along;
    AlongTree(m, p, 0, KEYS, h);
    var before, behind := RoutedBetween(m, p, 0, KEYS, h, k);
    i := |before|;
    assert ids[..i] == before && ids[i + 1..] == behind;
  }

  // ----- splitting and routing agree -----

  /** A node with the separator of two divided leaves as its only entry is a well-formed tree over
      them: it routes every key to the one leaf that can hold it, and finds what the leaves hold. */
  lemma SplitRoutes(m: map<PageId, Node>, root: PageId, separator: U64, p: PageId, q: PageId, k: U64)
    requires Divides(m, separator, p, q) && root in m && m[root].InnerNode?
    requires InnerIndexed(m[root].inner) && Routes(m[root].inner) == [IndexEntry(separator, p)]
    requires m[root].inner.rightmost == q
    ensures TreeAt(m, root, 0, KEYS, 1)
    ensures RouteKey(m[root].inner, k) == if k < separator then p else q
    ensures ValueAt(TreeMap(m, root, 1), k) == ValueAt(Live(m[p].leaf) + Live(m[q].leaf), k)
            == L.Get(m[RouteKey(m[root].inner, k)].leaf, k)
  {
    var n := m[root].inner;
    PartitionUnique(Routes(n), k, if k < separator then 0 else 1);
    assert Routes(n)[0] == IndexEntry(separator, p);
    assert TreeAt(m, Child(n, 0), Low(n, 0, 0), High(n, 0, KEYS), 0);
    assert TreeAt(m, Child(n, 1), Low(n, 1, 0), High(n, 1, KEYS), 0);
    assert TreeMap(m, root, 1) == map[] + TreeMap(m, p, 0) + TreeMap(m, q, 0);
    RouteStep(m, root, 0, KEYS, 1, k);
    GetRefinesMap(m[RouteKey(n, k)].leaf, k);
  }
}
