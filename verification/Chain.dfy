/** The doubly linked chain of leaves is one sorted map, and a splitting insert splices a page into it. */
module Chains {
  import opened Base
  import opened L = Leaves
  import opened LeafLaws
  import opened Nodes
  import Lru
  import opened Pools
  import opened Trees

  // ----- one leaf -----

  /** A split divides the live records in slot order, whatever their bytes. */
  lemma SplitLists(l: Leaf, q: PageId)
    requires WellFormed(l)
    ensures |l.slots| <= 0x1_0000
    ensures var h := L.Split(l, EmptyLeaf(q));
            var lower, upper := LiveOnly(Ordered(l)[..|l.slots| / 2]), LiveOnly(Ordered(l)[|l.slots| / 2..]);
            && WellFormed(h.left) && WellFormed(h.right)
            && (h.promoted.Ok? ==> Ordered(h.left) == lower && Ordered(h.right) == upper != []
                                   && h.promoted.value == upper[0].rowId)
  {
    var (lower, upper) := MoveUpper(l, EmptyLeaf(q));
    Grown(l, EmptyLeaf(q));
    assert Ordered(EmptyLeaf(q)) + Ordered(l)[|l.slots| / 2..] == Ordered(l)[|l.slots| / 2..];
    SplitWell(l, EmptyLeaf(q));
    hide MoveUpper, WellFormed;
    CompactOrdered(lower);
    CompactOrdered(upper);
  }

  lemma MembersOfLive(rs: seq<Record>, m: nat)
    requires m <= |rs|
    ensures forall r :: r in LiveOnly(rs[..m]) || r in LiveOnly(rs[m..]) ==> r in rs
    ensures LiveOnly(rs[..m]) + LiveOnly(rs[m..]) == LiveOnly(rs)
  {
    LiveOnlyMembers(rs[..m]);
    LiveOnlyMembers(rs[m..]);
    LiveOnlyConcat(rs[..m], rs[m..]);
    Cut(rs, m);
  }

  lemma NotHeldInPart(rs: seq<Record>, part: seq<Record>, k: U64)
    requires Ascending(rs) && !Holds(rs, k) && forall r :: r in part ==> r in rs
    ensures !Holds(part, k)
  {
    if Holds(part, k) { KeyIsHeld(rs, part[LowerBound(part, k)]); }
  }

  /** Splitting a full leaf and inserting again puts the record in its place among the live ones. */
  lemma RetryLists(l: Leaf, q: PageId, k: U64, payload: seq<Byte>) returns (u: seq<Record>, v: seq<Record>)
    requires WellFormed(l) && !Holds(Ordered(l), k) && |payload| <= MAX_VALUE_SIZE
    requires SplitAndRetry(l, q, k, payload).result.Ok?
    ensures var t := SplitAndRetry(l, q, k, payload);
            && u + v == LiveOnly(Ordered(l)) && Below(u, k) && Above(v, k)
            && Ordered(t.left) + Ordered(t.right) == u + [Record(k, payload, false)] + v
  {
    var rs, mid, r := Ordered(l), |l.slots| / 2, Record(k, payload, false);
    var h := L.Split(l, EmptyLeaf(q));
    SplitLists(l, q);
    var a, b := LiveOnly(rs[..mid]), LiveOnly(rs[mid..]);
    MembersOfLive(rs, mid);
    NotHeldInPart(rs, a, k);
    NotHeldInPart(rs, b, k);
    SeparatedBy(rs, mid);
    hide L.Split, LiveOnly, WellFormed;
    if k < h.promoted.value {
      InsertedList(h.left, k, payload);
      IntoLeft(a, b, r);
      u, v := a[..LowerBound(a, k)], a[LowerBound(a, k)..] + b;
    } else {
      InsertedList(h.right, k, payload);
      IntoRight(a, b, r);
      u, v := a + b[..LowerBound(b, k)], b[LowerBound(b, k)..];
    }
  }

  lemma IntoLeft(a: seq<Record>, b: seq<Record>, r: Record)
    requires Ascending(a) && !Holds(a, r.rowId) && Above(b, r.rowId)
    ensures var i := LowerBound(a, r.rowId);
            var u, v := a[..i], a[i..] + b;
            && u + v == a + b && Below(u, r.rowId) && Above(v, r.rowId)
            && a[..i] + [r] + a[i..] + b == u + [r] + v
  {
    AroundAbsent(a, r.rowId);
    LeftGroup(a[..LowerBound(a, r.rowId)], a[LowerBound(a, r.rowId)..], b, r);
  }

  lemma LeftGroup(x: seq<Record>, y: seq<Record>, b: seq<Record>, r: Record)
    ensures x + (y + b) == (x + y) + b && x + [r] + y + b == x + [r] + (y + b)
    ensures Above(y, r.rowId) && Above(b, r.rowId) ==> Above(y + b, r.rowId)
  {
  }

  lemma RightGroup(a: seq<Record>, x: seq<Record>, y: seq<Record>, r: Record)
    ensures (a + x) + y == a + (x + y) && a + (x + [r] + y) == (a + x) + [r] + y
    ensures Below(a, r.rowId) && Below(x, r.rowId) ==> Below(a + x, r.rowId)
  {
  }

  lemma IntoRight(a: seq<Record>, b: seq<Record>, r: Record)
    requires Ascending(b) && !Holds(b, r.rowId) && Below(a, r.rowId)
    ensures var i := LowerBound(b, r.rowId);
            var u, v := a + b[..i], b[i..];
            && u + v == a + b && Below(u, r.rowId) && Above(v, r.rowId)
            && a + (b[..i] + [r] + b[i..]) == u + [r] + v
  {
    AroundAbsent(b, r.rowId);
    RightGroup(a, b[..LowerBound(b, r.rowId)], b[LowerBound(b, r.rowId)..], r);
  }

  lemma InsertedList(l: Leaf, k: U64, payload: seq<Byte>)
    requires WellFormed(l) && !Holds(Ordered(l), k) && |payload| <= MAX_VALUE_SIZE
    requires L.Insert(l, k, payload).result.Ok?
    ensures var rs, i := Ordered(l), LowerBound(Ordered(l), k);
            var l' := L.Insert(l, k, payload).leaf;
            Indexed(l') && Ascending(rs) && Ordered(l') == rs[..i] + [Record(k, payload, false)] + rs[i..]
  {
    InsertFreshResult(l, k, payload);
    InsertFresh(l, k, payload);
  }

  /** Everything live below the cut is below the first live record above it, everything above is not. */
  lemma SeparatedBy(rs: seq<Record>, m: nat)
    requires Ascending(rs) && m <= |rs| && LiveOnly(rs[m..]) != []
    ensures var a, b := LiveOnly(rs[..m]), LiveOnly(rs[m..]);
            && Ascending(a) && Ascending(b)
            && (forall i :: 0 <= i < |a| ==> a[i].rowId < b[0].rowId)
            && (forall i :: 0 <= i < |b| ==> b[0].rowId <= b[i].rowId)
  {
    var a, b := LiveOnly(rs[..m]), LiveOnly(rs[m..]);
    CutAscends(rs, m);
    LiveOnlyMembers(rs[..m]);
    LiveOnlyMembers(rs[m..]);
    LiveOnlyAscends(rs[..m]);
    LiveOnlyAscends(rs[m..]);
    assert b[0] in b;
    forall i | 0 <= i < |a| ensures a[i].rowId < b[0].rowId { assert a[i] in a; }
  }

  // ----- the chain -----

  ghost predicate LeafAt(m: map<PageId, Node>, p: PageId) {
    p in m && m[p].LeafNode? && WellFormed(m[p].leaf)
  }

  ghost predicate AllLeaves(m: map<PageId, Node>, ids: seq<PageId>) {
    forall i :: 0 <= i < |ids| ==> LeafAt(m, ids[i])
  }

  ghost predicate Joined(a: Leaf, p: PageId, b: Leaf, q: PageId) {
    a.hasNext && a.nextId == q && b.hasPrev && b.prevId == p
  }

  ghost predicate AllJoined(m: map<PageId, Node>, ids: seq<PageId>)
    requires AllLeaves(m, ids)
  {
    forall i, j :: 0 <= i < j < |ids| && j == i + 1 ==> Joined(m[ids[i]].leaf, ids[i], m[ids[j]].leaf, ids[j])
  }

  /** All records along the chain. */
  ghost function Along(m: map<PageId, Node>, ids: seq<PageId>): seq<Record>
    requires AllLeaves(m, ids)
  {
    if ids == [] then [] else LeafLeads(m, ids); Ordered(m[ids[0]].leaf) + Along(m, ids[1..])
  }

  lemma LeafLeads(m: map<PageId, Node>, ids: seq<PageId>)
    requires AllLeaves(m, ids) && ids != []
    ensures LeafAt(m, ids[0]) && AllLeaves(m, ids[1..])
  {
    forall i | 0 <= i < |ids[1..]| ensures LeafAt(m, ids[1..][i]) {
      assert ids[1..][i] == ids[i + 1];
    }
  }

  /** ids is a chain of leaves, linked both ways, with the keys ascending from end to end. */
  ghost predicate Chain(m: map<PageId, Node>, ids: seq<PageId>) {
    && ids != [] && Lru.Distinct(ids)
    && AllLeaves(m, ids) && AllJoined(m, ids)
    && !m[ids[0]].leaf.hasPrev && !m[ids[|ids| - 1]].leaf.hasNext
    && Ascending(Along(m, ids))
  }

  lemma LeavesOfParts(m: map<PageId, Node>, a: seq<PageId>, b: seq<PageId>)
    ensures AllLeaves(m, a + b) <==> AllLeaves(m, a) && AllLeaves(m, b)
  {
    if AllLeaves(m, a + b) {
      forall i | 0 <= i < |a| ensures LeafAt(m, a[i]) { assert (a + b)[i] == a[i]; }
      forall i | 0 <= i < |b| ensures LeafAt(m, b[i]) { assert (a + b)[|a| + i] == b[i]; }
    }
  }

  lemma {:induction false} AlongConcat(m: map<PageId, Node>, a: seq<PageId>, b: seq<PageId>)
    requires AllLeaves(m, a) && AllLeaves(m, b)
    ensures AllLeaves(m, a + b) && Along(m, a + b) == Along(m, a) + Along(m, b)
  {
    LeavesOfParts(m, a, b);
    if a == [] {
      assert a + b == b;
    } else {
      LeafLeads(m, a);
      AlongConcat(m, a[1..], b);
      assert (a + b)[1..] == a[1..] + b;
      Associates(Ordered(m[a[0]].leaf), Along(m, a[1..]), Along(m, b));
    }
  }

  /** Pages that keep their records keep the records of the chain. */
  lemma {:induction false} AlongSame(m: map<PageId, Node>, m': map<PageId, Node>, ids: seq<PageId>)
    requires AllLeaves(m, ids) && AllLeaves(m', ids)
    requires forall i :: 0 <= i < |ids| ==> Ordered(m'[ids[i]].leaf) == Ordered(m[ids[i]].leaf)
    ensures Along(m', ids) == Along(m, ids)
  {
    if ids != [] {
      LeafLeads(m, ids);
      LeafLeads(m', ids);
      AlongSame(m, m', ids[1..]);
    }
  }

  /** Putting a record between what is below and what is above, in any sorted list. */
  lemma InsertedAscends(pre: seq<Record>, rs: seq<Record>, post: seq<Record>, u: seq<Record>, v: seq<Record>, r: Record)
    requires Ascending(pre + rs + post) && u + v == LiveOnly(rs)
    requires Below(pre, r.rowId) && Above(post, r.rowId) && Below(u, r.rowId) && Above(v, r.rowId)
    ensures Ascending(pre + (u + [r] + v) + post)
    ensures LiveMap(pre + (u + [r] + v) + post) ==
            if r.deleted then LiveMap(pre + rs + post) else LiveMap(pre + rs + post)[r.rowId := r.data]
    ensures r.rowId !in LiveMap(pre + rs + post)
  {
    hide LiveMap, LiveOnly;
    LiveMiddle(pre, rs, post);
    Regroup(pre, u, v, post, r);
    AscendingAround(pre + u, r, v + post);
    Around(pre + u, r, v + post);
  }

  lemma Regroup(pre: seq<Record>, u: seq<Record>, v: seq<Record>, post: seq<Record>, r: Record)
    ensures (pre + u) + (v + post) == pre + (u + v) + post
    ensures (pre + u) + [r] + (v + post) == pre + (u + [r] + v) + post
    ensures Below(pre, r.rowId) && Below(u, r.rowId) ==> Below(pre + u, r.rowId)
    ensures Above(v, r.rowId) && Above(post, r.rowId) ==> Above(v + post, r.rowId)
  {
    RightGroup(pre, u, v, r);
    LeftGroup(u, v, post, r);
  }

  lemma LiveMiddle(pre: seq<Record>, rs: seq<Record>, post: seq<Record>)
    requires Ascending(pre + rs + post)
    ensures Ascending(pre + LiveOnly(rs) + post)
    ensures LiveMap(pre + LiveOnly(rs) + post) == LiveMap(pre + rs + post)
  {
    LiveOnlyKeeps(rs);
    LiveMapConcat(pre + LiveOnly(rs), post);
    LiveMapConcat(pre, LiveOnly(rs));
    LiveMapConcat(pre + rs, post);
    LiveMapConcat(pre, rs);
    MiddleAscends(pre, rs, post);
  }

  lemma MiddleAscends(pre: seq<Record>, rs: seq<Record>, post: seq<Record>)
    requires Ascending(pre + rs + post)
    ensures Ascending(pre + LiveOnly(rs) + post)
  {
    PartsAscend(pre, rs, post);
    LiveOnlyAscends(rs);
    LiveOnlyMembers(rs);
    Assemble(pre, LiveOnly(rs), post);
  }

  lemma PartsAscend(pre: seq<Record>, rs: seq<Record>, post: seq<Record>)
    requires Ascending(pre + rs + post)
    ensures Ascending(pre) && Ascending(rs) && Ascending(post)
    ensures forall x, y :: x in pre && y in rs ==> x.rowId < y.rowId
    ensures forall x, y :: x in rs && y in post ==> x.rowId < y.rowId
    ensures forall x, y :: x in pre && y in post ==> x.rowId < y.rowId
  {
    var all := pre + rs + post;
    forall i | 0 <= i < |pre| ensures pre[i] == all[i] {}
    forall i | 0 <= i < |rs| ensures rs[i] == all[|pre| + i] {}
    forall i | 0 <= i < |post| ensures post[i] == all[|pre| + |rs| + i] {}
  }

  lemma Assemble(pre: seq<Record>, rs: seq<Record>, post: seq<Record>)
    requires Ascending(pre) && Ascending(rs) && Ascending(post)
    requires forall x, y :: x in pre && y in rs ==> x.rowId < y.rowId
    requires forall x, y :: x in rs && y in post ==> x.rowId < y.rowId
    requires forall x, y :: x in pre && y in post ==> x.rowId < y.rowId
    ensures Ascending(pre + rs + post)
  {
    var all := pre + rs + post;
    forall i, j | 0 <= i < j < |all| ensures all[i].rowId < all[j].rowId {
      if j < |pre| {
      } else if j < |pre| + |rs| {
        assert all[j] == rs[j - |pre|];
      } else {
        assert all[j] == post[j - |pre| - |rs|];
        if i >= |pre| + |rs| { assert all[i] == post[i - |pre| - |rs|]; }
      }
    }
  }

  // ----- splicing a page into the chain -----

  /** From m to m', leaf p handed part of its records to the new page q, linked in behind it. */
  ghost predicate Spliced(m: map<PageId, Node>, m': map<PageId, Node>, p: PageId, q: PageId)
    requires LeafAt(m, p)
  {
    var was := m[p].leaf;
    && LeafAt(m', p) && LeafAt(m', q)
    && m'[p].leaf.hasPrev == was.hasPrev && m'[p].leaf.prevId == was.prevId
    && Joined(m'[p].leaf, p, m'[q].leaf, q)
    && m'[q].leaf.hasNext == was.hasNext && m'[q].leaf.nextId == was.nextId
    && (forall x :: x in m && x != p && x != q && !(was.hasNext && x == was.nextId) ==> x in m' && m'[x] == m[x])
    && (was.hasNext && LeafAt(m, was.nextId) && was.nextId != p ==>
          && LeafAt(m', was.nextId) && Ordered(m'[was.nextId].leaf) == Ordered(m[was.nextId].leaf)
          && Joined(m'[q].leaf, q, m'[was.nextId].leaf, was.nextId)
          && m'[was.nextId].leaf.hasNext == m[was.nextId].leaf.hasNext
          && m'[was.nextId].leaf.nextId == m[was.nextId].leaf.nextId)
  }

  function WithPage(ids: seq<PageId>, i: nat, q: PageId): (r: seq<PageId>)
    requires i < |ids|
    ensures |r| == |ids| + 1
    ensures forall j :: 0 <= j <= i ==> r[j] == ids[j]
    ensures r[i + 1] == q
    ensures forall j :: i + 1 < j < |r| ==> r[j] == ids[j - 1]
  {
    ids[..i + 1] + [q] + ids[i + 1..]
  }

  /** What each old page of the chain is after the splice. */
  lemma SplicedPage(m: map<PageId, Node>, m': map<PageId, Node>, ids: seq<PageId>, i: nat, q: PageId, j: nat)
    requires Chain(m, ids) && i < |ids| && j < |ids| && q !in ids && Spliced(m, m', ids[i], q)
    ensures LeafAt(m', ids[j])
    ensures j != i ==> Ordered(m'[ids[j]].leaf) == Ordered(m[ids[j]].leaf)
    ensures j != i && j != i + 1 ==> m'[ids[j]] == m[ids[j]]
    ensures j == i + 1 ==> Joined(m'[q].leaf, q, m'[ids[j]].leaf, ids[j])
    ensures j != i ==> m'[ids[j]].leaf.hasNext == m[ids[j]].leaf.hasNext
    ensures j != i ==> m'[ids[j]].leaf.nextId == m[ids[j]].leaf.nextId
    ensures j == i ==> m'[ids[j]].leaf.hasPrev == m[ids[j]].leaf.hasPrev
    ensures j == i ==> m'[ids[j]].leaf.prevId == m[ids[j]].leaf.prevId
  {
    hide Ordered, WellFormed, Along, Ascending;
    assert LeafAt(m, ids[i]) && LeafAt(m, ids[j]);
    assert ids[j] in ids;
    if i + 1 < |ids| {
      assert Joined(m[ids[i]].leaf, ids[i], m[ids[i + 1]].leaf, ids[i + 1]);
      assert LeafAt(m, ids[i + 1]);
    }
  }

  lemma SplicedDistinct(ids: seq<PageId>, i: nat, q: PageId)
    requires Lru.Distinct(ids) && i < |ids| && q !in ids
    ensures Lru.Distinct(WithPage(ids, i, q))
  {
    hide WithPage;
    var ids' := WithPage(ids, i, q);
    forall a, b | 0 <= a < b < |ids'| ensures ids'[a] != ids'[b] {
      if a == i + 1 {
        assert ids[b - 1] in ids;
      } else if b == i + 1 {
        assert ids[a] in ids;
      }
    }
  }

  /** The spliced chain is linked both ways. */
  lemma SplicedLinks(m: map<PageId, Node>, m': map<PageId, Node>, ids: seq<PageId>, i: nat, q: PageId)
    requires Chain(m, ids) && i < |ids| && q !in ids && Spliced(m, m', ids[i], q)
    ensures var ids' := WithPage(ids, i, q);
            && AllLeaves(m', ids') && AllJoined(m', ids')
            && !m'[ids'[0]].leaf.hasPrev && !m'[ids'[|ids'| - 1]].leaf.hasNext
  {
    hide Ordered, WellFormed, WithPage, Along, Ascending;
    var ids' := WithPage(ids, i, q);
    forall j | 0 <= j < |ids'| ensures LeafAt(m', ids'[j]) {
      if j != i + 1 { SplicedPage(m, m', ids, i, q, if j <= i then j else j - 1); }
    }
    forall a, b | 0 <= a < b < |ids'| && b == a + 1
        ensures Joined(m'[ids'[a]].leaf, ids'[a], m'[ids'[b]].leaf, ids'[b])
    {
      SplicedPair(m, m', ids, i, q, a);
    }
    SplicedPage(m, m', ids, i, q, 0);
    SplicedPage(m, m', ids, i, q, |ids| - 1);
  }

  lemma SplicedPair(m: map<PageId, Node>, m': map<PageId, Node>, ids: seq<PageId>, i: nat, q: PageId, a: nat)
    requires Chain(m, ids) && i < |ids| && q !in ids && Spliced(m, m', ids[i], q) && a + 1 < |ids| + 1
    requires AllLeaves(m', WithPage(ids, i, q))
    ensures var ids' := WithPage(ids, i, q);
            Joined(m'[ids'[a]].leaf, ids'[a], m'[ids'[a + 1]].leaf, ids'[a + 1])
  {
    hide Ordered, WellFormed, WithPage, Along, Ascending;
    var ids' := WithPage(ids, i, q);
    if a < i {
      SplicedPage(m, m', ids, i, q, a);
      SplicedPage(m, m', ids, i, q, a + 1);
      assert Joined(m[ids[a]].leaf, ids[a], m[ids[a + 1]].leaf, ids[a + 1]);
    } else if a == i + 1 {
      SplicedPage(m, m', ids, i, q, i + 1);
    } else if a > i + 1 {
      SplicedPage(m, m', ids, i, q, a - 1);
      SplicedPage(m, m', ids, i, q, a);
      assert Joined(m[ids[a - 1]].leaf, ids[a - 1], m[ids[a]].leaf, ids[a]);
    }
  }

  lemma LeavesOfSlice(m: map<PageId, Node>, ids: seq<PageId>, a: nat, b: nat)
    requires AllLeaves(m, ids) && a <= b <= |ids|
    ensures AllLeaves(m, ids[a..b])
  {
    forall i | 0 <= i < b - a ensures LeafAt(m, ids[a..b][i]) {
      assert ids[a..b][i] == ids[a + i];
    }
  }

  /** The records along a chain around one of its pages. */
  lemma AlongAround(m: map<PageId, Node>, ids: seq<PageId>, i: nat)
    requires AllLeaves(m, ids) && i < |ids|
    ensures AllLeaves(m, ids[..i]) && AllLeaves(m, ids[i + 1..]) && LeafAt(m, ids[i])
    ensures Along(m, ids) == Along(m, ids[..i]) + Ordered(m[ids[i]].leaf) + Along(m, ids[i + 1..])
  {
    LeavesOfSlice(m, ids, 0, i);
    LeavesOfSlice(m, ids, i + 1, |ids|);
    LeavesOfSlice(m, ids, i, i + 1);
    assert ids[0..i] == ids[..i] && ids[i + 1..|ids|] == ids[i + 1..] && ids[i..i + 1] == [ids[i]];
    AlongOne(m, ids[i]);
    AlongConcat(m, ids[..i], [ids[i]]);
    AlongConcat(m, ids[..i] + [ids[i]], ids[i + 1..]);
    assert ids[..i] + [ids[i]] + ids[i + 1..] == ids;
  }

  lemma AlongOne(m: map<PageId, Node>, p: PageId)
    requires LeafAt(m, p)
    ensures AllLeaves(m, [p]) && Along(m, [p]) == Ordered(m[p].leaf)
  {
    assert [p][1..] == [];
  }

  lemma AlongSlice(m: map<PageId, Node>, m': map<PageId, Node>, ids: seq<PageId>, a: nat, b: nat)
    requires AllLeaves(m, ids) && a <= b <= |ids|
    requires forall j :: a <= j < b ==> LeafAt(m', ids[j]) && Ordered(m'[ids[j]].leaf) == Ordered(m[ids[j]].leaf)
    ensures AllLeaves(m, ids[a..b]) && AllLeaves(m', ids[a..b]) && Along(m', ids[a..b]) == Along(m, ids[a..b])
  {
    hide Ordered;
    LeavesOfSlice(m, ids, a, b);
    forall i | 0 <= i < b - a
      ensures LeafAt(m', ids[a..b][i]) && Ordered(m'[ids[a..b][i]].leaf) == Ordered(m[ids[a..b][i]].leaf)
    {
      assert ids[a..b][i] == ids[a + i];
    }
    AlongSame(m, m', ids[a..b]);
  }

  /** The records along the spliced chain: only those of the two halves are new. */
  lemma SplicedAlong(m: map<PageId, Node>, m': map<PageId, Node>, ids: seq<PageId>, i: nat, q: PageId)
    requires Chain(m, ids) && i < |ids| && q !in ids && Spliced(m, m', ids[i], q)
    ensures AllLeaves(m', WithPage(ids, i, q)) && AllLeaves(m, ids[..i]) && AllLeaves(m, ids[i + 1..])
    ensures Along(m', WithPage(ids, i, q)) ==
            Along(m, ids[..i]) + (Ordered(m'[ids[i]].leaf) + Ordered(m'[q].leaf)) + Along(m, ids[i + 1..])
  {
    hide Ordered, Ascending;
    SplicedLinks(m, m', ids, i, q);
    forall j | 0 <= j < |ids| && j != i
        ensures LeafAt(m', ids[j]) && Ordered(m'[ids[j]].leaf) == Ordered(m[ids[j]].leaf)
    {
      SplicedPage(m, m', ids, i, q, j);
    }
    AlongSlice(m, m', ids, 0, i);
    AlongSlice(m, m', ids, i + 1, |ids|);
    assert ids[0..i] == ids[..i] && ids[i + 1..|ids|] == ids[i + 1..];
    var ids' := WithPage(ids, i, q);
    AlongAround(m', ids', i);
    assert ids'[..i] == ids[..i];
    var rest := ids'[i + 1..];
    assert rest[0] == q && rest[1..] == ids[i + 1..];
    GroupFour(Along(m, ids[..i]), Ordered(m'[ids[i]].leaf), Ordered(m'[q].leaf), Along(m, ids[i + 1..]));
  }

  lemma GroupFour(a: seq<Record>, b: seq<Record>, c: seq<Record>, d: seq<Record>)
    ensures a + b + (c + d) == a + (b + c) + d
  {
  }

  /** Splicing two halves that hold the old live records and one more in its place keeps the chain a
      sorted doubly linked list, and adds exactly that record to what is live along it. */
  lemma SplicedChain(m: map<PageId, Node>, m': map<PageId, Node>, ids: seq<PageId>, i: nat, q: PageId,
                     u: seq<Record>, v: seq<Record>, r: Record)
    requires Chain(m, ids) && i < |ids| && q !in ids && Spliced(m, m', ids[i], q) && !r.deleted
    requires u + v == LiveOnly(Ordered(m[ids[i]].leaf)) && Below(u, r.rowId) && Above(v, r.rowId)
    requires Ordered(m'[ids[i]].leaf) + Ordered(m'[q].leaf) == u + [r] + v
    requires InRange(m, ids, i, r.rowId)
    ensures Chain(m', WithPage(ids, i, q))
    ensures r.rowId !in LiveMap(Along(m, ids))
    ensures LiveMap(Along(m', WithPage(ids, i, q))) == LiveMap(Along(m, ids))[r.rowId := r.data]
  {
    hide Ordered, Along, Ascending, LiveOnly, LiveMap, Spliced;
    AlongAround(m, ids, i);
    SplicedAlong(m, m', ids, i, q);
    SplicedLinks(m, m', ids, i, q);
    SplicedDistinct(ids, i, q);
    InsertedAscends(Along(m, ids[..i]), Ordered(m[ids[i]].leaf), Along(m, ids[i + 1..]), u, v, r);
  }

  /** The key belongs to the i-th leaf: it is above all records before and below all behind. */
  ghost predicate InRange(m: map<PageId, Node>, ids: seq<PageId>, i: nat, key: U64)
    requires AllLeaves(m, ids) && i < |ids|
  {
    LeavesOfSlice(m, ids, 0, i);
    LeavesOfSlice(m, ids, i + 1, |ids|);
    assert ids[0..i] == ids[..i] && ids[i + 1..|ids|] == ids[i + 1..];
    Below(Along(m, ids[..i]), key) && Above(Along(m, ids[i + 1..]), key)
  }
}
