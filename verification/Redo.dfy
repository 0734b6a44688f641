/** Redo on one page: applying log entries behind an LSN guard. */
module Redo {
  import opened Base
  import opened L = Leaves
  import opened LeafLaws
  import opened Nodes
  import opened TreeLaws
  import opened Wal

  // ----- one entry -----

  /** Applies an entry to a node, as the code dispatches on the operation and the kind of node. */
  function Apply(n: Node, e: WalEntry): (Node, Result<()>)
    requires NodeWell(n)
  {
    match n
    case InnerNode(_) => (n, Err(CorruptPage(RecordIntoInternalNode)))
    case LeafNode(l) =>
      var d := match e.op
               case InsertOp => L.Insert(l, e.rowId, e.payload)
               case UpdateOp => L.Update(l, e.rowId, e.payload)
               case DeleteOp => L.Delete(l, e.rowId);
      (LeafNode(d.leaf), d.result)
  }

  /** Skips what the page has already seen. */
  function RedoEntry(n: Node, e: WalEntry): (Node, Result<()>)
    requires NodeWell(n)
  {
    if e.lsn <= LastLsn(n) then (n, Ok(()))
    else
      var (n', r) := Apply(n, e);
      if r.Err? then (n', r) else (MarkDirty(n', e.lsn), r)
  }

  lemma ApplyWell(n: Node, e: WalEntry)
    requires NodeWell(n)
    ensures NodeWell(Apply(n, e).0) && NodeWell(RedoEntry(n, e).0)
    ensures LastLsn(Apply(n, e).0) == LastLsn(n)
  {
    match n
    case InnerNode(_) =>
    case LeafNode(l) =>
      OpWell(l, e.rowId, e.payload);
      hide L.Insert, L.Update, L.Delete, WellFormed;
      MarkedWell(Apply(n, e).0, e.lsn);
  }

  /** The operations of a leaf keep it well-formed and leave its LSN alone. */
  lemma OpWell(l: Leaf, k: U64, payload: seq<Byte>)
    requires WellFormed(l)
    ensures var d := L.Insert(l, k, payload); WellFormed(d.leaf) && d.leaf.lastLsn == l.lastLsn
    ensures var d := L.Update(l, k, payload); WellFormed(d.leaf) && d.leaf.lastLsn == l.lastLsn
    ensures var d := L.Delete(l, k); WellFormed(d.leaf) && d.leaf.lastLsn == l.lastLsn
  {
    hide Ordered, Live;
    InsertRefinesMap(l, k, payload);
    InsertKeepsHeader(l, k, payload);
    UpdateRefinesMap(l, k, payload);
    DeleteRefinesMap(l, k);
    hide L.Insert;
  }

  lemma MarkedWell(n: Node, lsn: U64)
    requires NodeWell(n)
    ensures NodeWell(MarkDirty(n, lsn)) && NodeWell(Norm(n))
  {
    match n
    case InnerNode(_) =>
    case LeafNode(l) =>
      assert Ordered(MarkDirty(n, lsn).leaf) == Ordered(l);
      assert Ordered(Norm(n).leaf) == Ordered(l);
  }

  /** Whether and how an entry applies does not depend on the free-byte counter or the dirty flag. */
  lemma RedoNorm(n: Node, e: WalEntry)
    requires NodeWell(n)
    ensures NodeWell(Norm(n)) && RedoEntry(Norm(n), e).1 == RedoEntry(n, e).1
    ensures Norm(RedoEntry(Norm(n), e).0) == Norm(RedoEntry(n, e).0)
  {
    MarkedWell(n, 0);
    match n
    case InnerNode(_) =>
    case LeafNode(l) =>
      assert Ordered(NormLeaf(l)) == Ordered(l);
      match e.op
      case InsertOp => InsertNorm(l, e.rowId, e.payload);
      case UpdateOp =>
      case DeleteOp =>
  }

  lemma CompactNorm(l: Leaf, l': Leaf)
    requires Indexed(l) && Indexed(l') && Ordered(l') == Ordered(l) && NormLeaf(l') == NormLeaf(l)
    ensures Compact(l').result == Compact(l).result && NormLeaf(Compact(l').leaf) == NormLeaf(Compact(l).leaf)
  {
  }

  lemma InsertNorm(l: Leaf, k: U64, payload: seq<Byte>)
    requires WellFormed(l)
    ensures Indexed(NormLeaf(l))
    ensures L.Insert(NormLeaf(l), k, payload).result == L.Insert(l, k, payload).result
    ensures NormLeaf(L.Insert(NormLeaf(l), k, payload).leaf) == NormLeaf(L.Insert(l, k, payload).leaf)
  {
    hide LowerBound, Compact, Bytes, Ascending;
    var rs, i := Ordered(l), LowerBound(Ordered(l), k);
    SameOrder(l);
    if |payload| <= MAX_VALUE_SIZE && Holds(rs, k) && rs[i].deleted {
      RevivedNorm(l, k, i, payload);
    } else {
      hide Ordered;
    }
  }

  lemma SameOrder(l: Leaf)
    ensures Indexed(NormLeaf(l)) <==> Indexed(l)
    ensures Indexed(l) ==> Ordered(NormLeaf(l)) == Ordered(l)
  {
    if Indexed(l) { assert Ordered(NormLeaf(l)) == Ordered(l); }
  }

  lemma RevivedNorm(l: Leaf, k: U64, i: nat, payload: seq<Byte>)
    requires WellFormed(l) && Holds(Ordered(l), k) && i == LowerBound(Ordered(l), k)
    ensures var a := l.(records := l.records[l.slots[i] := Record(k, payload, false)]);
            && Indexed(a) && Indexed(NormLeaf(a))
            && Compact(NormLeaf(a)).result == Compact(a).result
            && NormLeaf(Compact(NormLeaf(a)).leaf) == NormLeaf(Compact(a).leaf)
  {
    hide Compact, Bytes;
    var a := l.(records := l.records[l.slots[i] := Record(k, payload, false)]);
    ReplacedShape(l, k, Record(k, payload, false));
    SameOrder(a);
    CompactNorm(a, NormLeaf(a));
  }

  // ----- a page and its log -----

  /** The content of page p after the entries of es that concern it, in order; an error if one of
      them does not apply. */
  function Redone(n: Node, p: PageId, es: seq<WalEntry>): (r: Result<Node>)
    requires NodeWell(n)
    ensures r.Ok? ==> NodeWell(r.value)
    decreases |es|
  {
    if es == [] then Ok(n)
    else
      var before := Redone(n, p, es[..|es| - 1]);
      var e := es[|es| - 1];
      if before.Err? || e.pageId != p then before
      else
        ApplyWell(before.value, e);
        var (n', r) := RedoEntry(before.value, e);
        MarkedWell(n', 0);
        if r.Err? then Err(r.error) else Ok(Norm(n'))
  }

  /** The same without the guard: what a running system does that applies each entry once. */
  function Applied(n: Node, p: PageId, es: seq<WalEntry>): (r: Result<Node>)
    requires NodeWell(n)
    ensures r.Ok? ==> NodeWell(r.value)
    decreases |es|
  {
    if es == [] then Ok(n)
    else
      var before := Applied(n, p, es[..|es| - 1]);
      var e := es[|es| - 1];
      if before.Err? || e.pageId != p then before
      else
        ApplyWell(before.value, e);
        var (n', r) := Apply(before.value, e);
        MarkedWell(n', 0);
        MarkedWell(MarkDirty(n', e.lsn), 0);
        if r.Err? then Err(r.error) else Ok(Norm(MarkDirty(n', e.lsn)))
  }

  lemma PrefixOf(es: seq<WalEntry>, i: nat, j: nat)
    requires i <= j <= |es|
    ensures es[..j][..i] == es[..i]
    ensures i < j ==> es[..j][i] == es[i]
  {
  }

  lemma RedoneStep(n: Node, p: PageId, es: seq<WalEntry>, i: nat)
    requires NodeWell(n) && i < |es|
    ensures Redone(n, p, es[..i + 1]) ==
            var before := Redone(n, p, es[..i]);
            if before.Err? || es[i].pageId != p then before
            else
              var (n', r) := RedoEntry(before.value, es[i]);
              if r.Err? then Err(r.error) else Ok(Norm(n'))
  {
    assert es[..i + 1][..i] == es[..i];
  }

  /** LSNs rise through a log. */
  ghost predicate Rising(es: seq<WalEntry>) {
    forall i, j :: 0 <= i < j < |es| ==> es[i].lsn < es[j].lsn
  }

  /** All entries for p lie above the LSN of n. */
  ghost predicate Newer(n: Node, p: PageId, es: seq<WalEntry>) {
    forall e :: e in es && e.pageId == p ==> LastLsn(n) < e.lsn
  }

  lemma {:induction false} RedoneLsn(n: Node, p: PageId, es: seq<WalEntry>)
    requires NodeWell(n) && Redone(n, p, es).Ok?
    ensures LastLsn(n) <= LastLsn(Redone(n, p, es).value)
    ensures forall e :: e in es && e.pageId == p ==> e.lsn <= LastLsn(Redone(n, p, es).value)
    ensures LastLsn(Redone(n, p, es).value) == LastLsn(n)
            || exists e :: e in es && e.pageId == p && e.lsn == LastLsn(Redone(n, p, es).value)
    decreases |es|
  {
    if es != [] {
      var init, last := es[..|es| - 1], es[|es| - 1];
      RedoneLsn(n, p, init);
      assert es == init + [last];
      assert last in es;
      if last.pageId == p { ApplyWell(Redone(n, p, init).value, last); }
    }
  }

  /** A page that has seen the first j entries is not changed by redoing them again. */
  lemma {:induction false} RedoneAgain(n: Node, p: PageId, es: seq<WalEntry>, j: nat, i: nat)
    requires NodeWell(n) && i <= j <= |es| && Redone(n, p, es[..j]).Ok?
    requires n == Norm(n)
    ensures Redone(Redone(n, p, es[..j]).value, p, es[..i]) == Redone(n, p, es[..j])
    decreases i
  {
    var seen := Redone(n, p, es[..j]).value;
    RedoneIsNorm(n, p, es[..j]);
    if i > 0 {
      RedoneAgain(n, p, es, j, i - 1);
      RedoneStep(seen, p, es, i - 1);
      RedoneLsn(n, p, es[..j]);
      assert es[..j][i - 1] == es[i - 1];
    }
  }

  lemma {:induction false} RedoneIsNorm(n: Node, p: PageId, es: seq<WalEntry>)
    requires NodeWell(n) && n == Norm(n) && Redone(n, p, es).Ok?
    ensures Redone(n, p, es).value == Norm(Redone(n, p, es).value)
    decreases |es|
  {
    if es != [] { RedoneIsNorm(n, p, es[..|es| - 1]); }
  }

  /** Redo is restartable: from any state the page went through, redoing the whole log ends where
      redoing it from the start does. */
  lemma {:induction false} CatchUp(n: Node, p: PageId, es: seq<WalEntry>, j: nat, k: nat)
    requires NodeWell(n) && n == Norm(n) && j <= k <= |es| && Redone(n, p, es[..j]).Ok?
    ensures Redone(Redone(n, p, es[..j]).value, p, es[..k]) == Redone(n, p, es[..k])
    decreases k
  {
    hide NodeWell, RedoEntry, Norm, Redone;
    if k == j {
      RedoneAgain(n, p, es, j, j);
    } else {
      CatchUp(n, p, es, j, k - 1);
      RedoneStep(n, p, es, k - 1);
      RedoneStep(Redone(n, p, es[..j]).value, p, es, k - 1);
    }
  }

  /** On a log of rising LSNs above the page's own the guard never bites. */
  lemma {:induction false} GuardNeverBites(n: Node, p: PageId, es: seq<WalEntry>)
    requires NodeWell(n) && Rising(es) && Newer(n, p, es)
    ensures Redone(n, p, es) == Applied(n, p, es)
    decreases |es|
  {
    hide NodeWell, Apply, Norm;
    if es != [] {
      var init, last := es[..|es| - 1], es[|es| - 1];
      InitRises(n, p, es);
      GuardNeverBites(n, p, init);
      if Redone(n, p, init).Ok? && last.pageId == p { NextIsNewer(n, p, es); }
    }
  }

  lemma InitRises(n: Node, p: PageId, es: seq<WalEntry>)
    requires es != [] && Rising(es) && Newer(n, p, es)
    ensures var init := es[..|es| - 1];
            Rising(init) && Newer(n, p, init) && forall e :: e in init ==> e.lsn < es[|es| - 1].lsn
  {
    assert es == es[..|es| - 1] + [es[|es| - 1]];
  }

  /** The page has not seen the last entry of a rising log when it has seen all others. */
  lemma NextIsNewer(n: Node, p: PageId, es: seq<WalEntry>)
    requires NodeWell(n) && es != [] && Rising(es) && Newer(n, p, es)
    requires es[|es| - 1].pageId == p && Redone(n, p, es[..|es| - 1]).Ok?
    ensures LastLsn(Redone(n, p, es[..|es| - 1]).value) < es[|es| - 1].lsn
  {
    hide NodeWell, Redone;
    InitRises(n, p, es);
    RedoneLsn(n, p, es[..|es| - 1]);
    assert es[|es| - 1] in es;
  }

  /** Without rising LSNs it does: redoing an entry changes a page exactly when its LSN is above the
      page's, so an entry numbered from a counter that fell back is lost. */
  lemma SkippedIffSeen(n: Node, e: WalEntry)
    requires NodeWell(n) && n == Norm(n)
    ensures Redone(n, e.pageId, [e]) == Ok(n) <==> e.lsn <= LastLsn(n)
  {
    assert [e][..0] == [];
    ApplyWell(n, e);
  }

  // ----- what entries mean -----

  /** What an entry does to the rows of its page: an insert adds its row, an update overwrites a row
      that is there, a delete removes its row. */
  function RowOp(m: map<U64, seq<Byte>>, e: WalEntry): map<U64, seq<Byte>> {
    match e.op
    case InsertOp => m[e.rowId := e.payload]
    case UpdateOp => if e.rowId in m then m[e.rowId := e.payload] else m
    case DeleteOp => m - {e.rowId}
  }

  /** The rows of page p after the entries of es that concern it. */
  function RowsAfter(m: map<U64, seq<Byte>>, p: PageId, es: seq<WalEntry>): map<U64, seq<Byte>>
    decreases |es|
  {
    if es == [] then m
    else
      var before := RowsAfter(m, p, es[..|es| - 1]);
      var e := es[|es| - 1];
      if e.pageId == p then RowOp(before, e) else before
  }

  /** An entry applies to a leaf exactly when its operation can be done, and then does it to the rows. */
  lemma ApplyRefinesMap(l: Leaf, e: WalEntry)
    requires WellFormed(l)
    ensures var (n, r) := Apply(LeafNode(l), e);
            var held := Holds(Ordered(l), e.rowId);
            && n.LeafNode? && WellFormed(n.leaf)
            && (r.Ok? ==> Live(n.leaf) == RowOp(Live(l), e))
            && (r.Err? && r.error != Panic ==> n == LeafNode(l))
            && (e.op == InsertOp ==> (r.Ok? <==>
                  |e.payload| <= MAX_VALUE_SIZE && e.rowId !in Live(l) && HasRoom(l, e.rowId, e.payload)))
            && (e.op == UpdateOp ==> (r.Ok? <==> |e.payload| < MAX_VALUE_SIZE && held))
            && (e.op == DeleteOp ==> (r.Ok? <==> held))
  {
    hide L.Insert, L.Update, L.Delete, Ordered, Live, HasRoom, WellFormed;
    InsertRefinesMap(l, e.rowId, e.payload);
    UpdateRefinesMap(l, e.rowId, e.payload);
    DeleteRefinesMap(l, e.rowId);
  }

  /** What each failure says of the entry and the page. */
  lemma ApplyErrors(n: Node, e: WalEntry)
    requires NodeWell(n)
    ensures Apply(n, e).1 == Err(CorruptPage(RecordIntoInternalNode)) <==> n.InnerNode?
    ensures n.InnerNode? ==> Apply(n, e).0 == n
    ensures n.LeafNode? ==>
              var (l, k, r) := (n.leaf, e.rowId, Apply(n, e).1);
              var (held, size) := (Holds(Ordered(l), k), |e.payload|);
              var tooLarge := match e.op
                              case InsertOp => size > MAX_VALUE_SIZE
                              case UpdateOp => size >= MAX_VALUE_SIZE
                              case DeleteOp => false;
              && (r == Err(TupleTooLarge(size)) <==> tooLarge)
              && (r == Err(DuplicateKey(k)) <==> e.op == InsertOp && !tooLarge && k in Live(l))
              && (r == Err(KeyNotFound(k)) <==> e.op != InsertOp && !tooLarge && !held)
              && (r == Err(PageFull) <==> e.op == InsertOp && !tooLarge && !held && !HasRoom(l, k, e.payload))
              && (r == Err(Panic) <==>
                    e.op == InsertOp && !tooLarge && held && k !in Live(l) && !HasRoom(l, k, e.payload))
  {
    match n
    case InnerNode(_) =>
    case LeafNode(l) =>
      OpErrors(l, e.rowId, e.payload);
      hide L.Insert, L.Update, L.Delete, Ordered, Live, HasRoom, WellFormed;
      InsertRefinesMap(l, e.rowId, e.payload);
      UpdateRefinesMap(l, e.rowId, e.payload);
      DeleteRefinesMap(l, e.rowId);
  }

  /** Which errors the operations of a leaf report at all. */
  lemma OpErrors(l: Leaf, k: U64, payload: seq<Byte>)
    requires Indexed(l)
    ensures var r := L.Insert(l, k, payload).result;
            r.Err? ==> r.error in {TupleTooLarge(|payload|), DuplicateKey(k), PageFull, Panic}
    ensures var r := L.Update(l, k, payload).result; r.Err? ==> r.error in {TupleTooLarge(|payload|), KeyNotFound(k)}
    ensures var r := L.Delete(l, k).result; r.Err? ==> r.error == KeyNotFound(k)
  {
    hide Ordered, LowerBound, Bytes, LiveOnly;
  }

  /** Content c is node n after the entries of es for page p: of a leaf the rows are those of n with
      every entry carried out in turn, and an internal page is unchanged as no entry may concern it. */
  ghost predicate RowsReplayed(n: Node, p: PageId, es: seq<WalEntry>, c: Node)
    requires NodeWell(n)
  {
    match n
    case LeafNode(l) => c.LeafNode? && Indexed(c.leaf) && Live(c.leaf) == RowsAfter(Live(l), p, es)
    case InnerNode(_) => c == n && forall e :: e in es ==> e.pageId != p
  }

  /** Applying a log to a page carries its entries out on the rows, one after the other. */
  lemma {:induction false} AppliedRefinesMap(n: Node, p: PageId, es: seq<WalEntry>)
    requires NodeWell(n) && Applied(n, p, es).Ok?
    ensures RowsReplayed(n, p, es, Applied(n, p, es).value)
    decreases |es|
  {
    assert n.LeafNode? ==> Indexed(n.leaf);
    hide Apply, Ordered, Live, WellFormed;
    if es != [] {
      var init, e := es[..|es| - 1], es[|es| - 1];
      assert es == init + [e];
      AppliedRefinesMap(n, p, init);
      if e.pageId == p {
        var c := Applied(n, p, init).value;
        ApplyErrors(c, e);
        if c.LeafNode? {
          ApplyRefinesMap(c.leaf, e);
          MarkedRows(Apply(c, e).0, e.lsn);
        }
      }
    }
  }

  lemma MarkedRows(n: Node, lsn: U64)
    requires NodeWell(n) && n.LeafNode?
    ensures var n' := Norm(MarkDirty(n, lsn)); n'.LeafNode? && Indexed(n'.leaf) && Live(n'.leaf) == Live(n.leaf)
  {
    assert Ordered(Norm(MarkDirty(n, lsn)).leaf) == Ordered(n.leaf);
  }
}
