/** Descending, inserting and finding again: a tree over the chain of leaves. */
module TreeInserts {
  import opened Base
  import opened L = Leaves
  import opened LeafLaws
  import opened Nodes
  import Lru
  import opened Pools
  import opened PoolLaws
  import opened PoolRuns
  import opened Trees
  import opened TreeLaws
  import opened Chains
  import opened LeafInserts
  import opened Search
  import opened ChainRuns

  /** The pages m are a tree with its leaves chained from left to right. */
  ghost predicate ChainedTree(m: map<PageId, Node>, root: PageId, h: nat) {
    TreeAt(m, root, 0, KEYS, h) && Chain(m, LeafIds(m, root, h))
  }

  lemma StampedGains(l: Leaf, k: U64, payload: seq<Byte>, lsn: U64)
    requires WellFormed(l) && L.Insert(l, k, payload).result.Ok?
    ensures Gains(NormLeaf(l), Stamped(L.Insert(l, k, payload).leaf, lsn).leaf, k, payload)
  {
    hide L.Insert, Ordered;
    NormReads(l, lsn);
    InsertRefinesMap(l, k, payload);
    InsertedMembers(l, k, payload);
    NormReads(L.Insert(l, k, payload).leaf, lsn);
  }

  /** Inserting a key into the leaf it is routed to, when it fits, keeps the tree and its chain, and
      adds exactly the key to what the tree holds, which is what finding a record looks up. */
  lemma InsertThenFind(s: Pool, m: map<PageId, Node>, root: PageId, h: nat, x: PageId, k: U64, payload: seq<Byte>,
                       lsn: U64)
    returns (m': map<PageId, Node>)
    requires Sound(s) && Shows(s, m) && ChainedTree(m, root, h) && x == LeafOf(m, root, 0, KEYS, h, k)
    requires InsertLeaf(s, x, k, payload, lsn).1 == Ok(None)
    ensures Sound(InsertLeaf(s, x, k, payload, lsn).0) && Shows(InsertLeaf(s, x, k, payload, lsn).0, m')
    ensures ChainedTree(m', root, h) && LeafIds(m', root, h) == LeafIds(m, root, h)
    ensures k !in TreeMap(m, root, h) && TreeMap(m', root, h) == TreeMap(m, root, h)[k := payload]
  {
    hide PoolWF, Coherent, Content, InsertLeaf, Shows, Shown, TreeAt, TreeMap, LeafIds, Chain, LeafOf, L.Insert;
    hide InRange;
    hide Moves, Gains;
    var ids := LeafIds(m, root, h);
    var s' := InsertLeaf(s, x, k, payload, lsn).0;
    var l := InsertInPlace(s, x, k, payload, lsn);
    StampedGains(l, k, payload, lsn);
    var l' := Stamped(L.Insert(l, k, payload).leaf, lsn).leaf;
    m' := m[x := LeafNode(l')];
    MovedShows(s, s', m, map[x := LeafNode(l')]);
    assert m + map[x := LeafNode(l')] == m';
    ShownContent(s, m, x);
    ChainDistinct(m, ids);
    hide WellFormed;
    TreeGains(m, root, 0, KEYS, h, k, payload, x, l');
    var i := RoutedInRange(m, root, h, ids, k);
    var m'' := InPlaceKeepsChain(s, m, ids, i, k, payload, lsn);
    ShownIs(s', m');
    ShownIs(s', m'');
    DescentIsLookup(m, root, 0, KEYS, h, k);
    NotYet(l, k, payload);
  }

  lemma ShownContent(s: Pool, m: map<PageId, Node>, p: PageId)
    requires Shows(s, m) && Content(s, p).Some?
    ensures p in m && m[p] == Content(s, p).value
  {
    hide Content;
  }

  lemma ChainDistinct(m: map<PageId, Node>, ids: seq<PageId>)
    requires Chain(m, ids)
    ensures Lru.Distinct(ids)
  {
  }

  /** A key whose insert succeeds was not live. */
  lemma NotYet(l: Leaf, k: U64, payload: seq<Byte>)
    requires WellFormed(l) && L.Insert(l, k, payload).result.Ok?
    ensures Indexed(NormLeaf(l)) && L.Get(NormLeaf(l), k) == None
  {
    hide Ordered, L.Insert;
    NormReads(l, 0);
    InsertRefinesMap(l, k, payload);
    GetRefinesMap(NormLeaf(l), k);
  }

  /** A splitting insert of a routed key finds the key in the range of its leaf, so it keeps the chain
      and adds exactly the key to it; entering the new page into the parent is left to the caller. */
  lemma RoutedSplitKeepsChain(s: Pool, m: map<PageId, Node>, root: PageId, h: nat, x: PageId, k: U64,
                              payload: seq<Byte>,
                              lsn: U64) returns (m': map<PageId, Node>, i: nat)
    requires Sound(s) && Shows(s, m) && ChainedTree(m, root, h) && x == LeafOf(m, root, 0, KEYS, h, k)
    requires InsertLeaf(s, x, k, payload, lsn).1.Ok? && InsertLeaf(s, x, k, payload, lsn).1.value.Some?
    ensures Shows(InsertLeaf(s, x, k, payload, lsn).0, m')
    ensures var ids, q := LeafIds(m, root, h), InsertLeaf(s, x, k, payload, lsn).1.value.value.newPage;
            && i < |ids| && Chain(m', WithPage(ids, i, q))
            && LiveMap(Along(m', WithPage(ids, i, q))) == LiveMap(Along(m, ids))[k := payload]
  {
    hide PoolWF, Coherent, Content, InsertLeaf, Shows, TreeAt, TreeMap, LeafIds, Chain, LeafOf, InRange, Along, LiveMap;
    hide Divides;
    var ids := LeafIds(m, root, h);
    i := RoutedInRange(m, root, h, ids, k);
    m' := SplitKeepsChain(s, m, ids, i, k, payload, lsn);
  }
}
