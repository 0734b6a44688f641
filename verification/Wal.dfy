/** The write-ahead log: length-prefixed entries in an append-only file of which a prefix is durable. */
module Wal {
  import opened Base

  const WAL_ENTRY_HEADER_SIZE := 29

  datatype WalOp = InsertOp | UpdateOp | DeleteOp

  datatype WalEntry = WalEntry(op: WalOp, lsn: U64, pageId: PageId, rowId: U64, payload: seq<Byte>)

  // ----- entries -----

  function OpByte(op: WalOp): Byte {
    match op
    case InsertOp => 0
    case UpdateOp => 1
    case DeleteOp => 2
  }

  function ByteOp(b: Byte): Result<WalOp> {
    if b == 0 then Ok(InsertOp)
    else if b == 1 then Ok(UpdateOp)
    else if b == 2 then Ok(DeleteOp)
    else Err(CorruptPage(UnknownOpcode))
  }

  function EntryBytes(e: WalEntry): (b: seq<Byte>)
    ensures |b| == WAL_ENTRY_HEADER_SIZE + |e.payload|
  {
    [OpByte(e.op)] + LE(8, e.lsn) + LE(8, e.pageId) + LE(8, e.rowId) + LE(4, |e.payload|) + e.payload
  }

  function DecodeEntry(b: seq<Byte>): Result<WalEntry> {
    if |b| < WAL_ENTRY_HEADER_SIZE then Err(CorruptPage(ShortEntry))
    else
      match ByteOp(b[0])
      case Err(e) => Err(e)
      case Ok(op) =>
        var payloadLen := Num32(b[25..29]);
        if |b| < WAL_ENTRY_HEADER_SIZE + payloadLen then Err(CorruptPage(ShortPayload))
        else Ok(WalEntry(op, Num64(b[1..9]), Num64(b[9..17]), Num64(b[17..25]), b[29..29 + payloadLen]))
  }

  /** An entry whose size the four-byte length prefix can hold. */
  predicate Framable(e: WalEntry) {
    WAL_ENTRY_HEADER_SIZE + |e.payload| < 0x1_0000_0000
  }

  lemma EntryBack(e: WalEntry)
    requires Framable(e)
    ensures DecodeEntry(EntryBytes(e)) == Ok(e)
  {
    hide LE, FromLE;
    var op := [OpByte(e.op)];
    Fields(op, LE(8, e.lsn), LE(8, e.pageId), LE(8, e.rowId), LE(4, |e.payload|), e.payload);
    Fits64(e.lsn);
    Fits64(e.pageId);
    Fits64(e.rowId);
    Fits32(|e.payload|);
  }

  /** The six fields of an entry, read back one by one. */
  lemma Fields(a: seq<Byte>, b: seq<Byte>, c: seq<Byte>, d: seq<Byte>, n: seq<Byte>, p: seq<Byte>)
    requires |a| == 1 && |b| == |c| == |d| == 8 && |n| == 4
    ensures var s := a + b + c + d + n + p;
            && |s| == 29 + |p| && s[0] == a[0] && s[1..9] == b && s[9..17] == c && s[17..25] == d
            && s[25..29] == n && s[29..29 + |p|] == p
  {
    Between(a, b, c + d + n + p);
    Between(a + b, c, d + n + p);
    Between(a + b + c, d, n + p);
    Between(a + b + c + d, n, p);
    Between(a + b + c + d + n, p, []);
    var s := a + b + c + d + n + p;
    assert s == a + b + (c + d + n + p);
    assert s == a + b + c + (d + n + p);
    assert s == a + b + c + d + (n + p);
    assert s == s + [];
  }

  lemma Between(a: seq<Byte>, b: seq<Byte>, c: seq<Byte>)
    ensures (a + b + c)[|a|..|a| + |b|] == b
  {
  }

  lemma Extend(b: seq<Byte>, i: nat, j: nat)
    requires i <= j <= |b|
    ensures b[..i] + b[i..j] == b[..j]
  {
  }

  /** Whatever buffer an entry is accepted from starts with the bytes of that entry. */
  lemma AcceptedStartsWithEntry(b: seq<Byte>)
    requires DecodeEntry(b).Ok?
    ensures EntryBytes(DecodeEntry(b).value) <= b
  {
    var e := DecodeEntry(b).value;
    LEInverse(b[1..9]);
    LEInverse(b[9..17]);
    LEInverse(b[17..25]);
    LEInverse(b[25..29]);
    hide LE, FromLE;
    Extend(b, 1, 9);
    Extend(b, 9, 17);
    Extend(b, 17, 25);
    Extend(b, 25, 29);
    Extend(b, 29, 29 + |e.payload|);
    assert [OpByte(e.op)] == b[..1];
  }

  /** Where the fields of an entry are in its bytes, and which byte stands for which operation. */
  lemma EntryLayout(e: WalEntry)
    requires Framable(e)
    ensures var b := EntryBytes(e);
            && b[0] == (match e.op case InsertOp => 0 case UpdateOp => 1 case DeleteOp => 2)
            && Num64(b[1..9]) == e.lsn && Num64(b[9..17]) == e.pageId && Num64(b[17..25]) == e.rowId
            && Num32(b[25..29]) == |e.payload| && b[29..] == e.payload
  {
    hide LE, FromLE;
    Fields([OpByte(e.op)], LE(8, e.lsn), LE(8, e.pageId), LE(8, e.rowId), LE(4, |e.payload|), e.payload);
    Fits64(e.lsn);
    Fits64(e.pageId);
    Fits64(e.rowId);
    Fits32(|e.payload|);
    assert EntryBytes(e)[29..] == EntryBytes(e)[29..29 + |e.payload|];
  }

  /** Why a buffer is not accepted as an entry: it ends inside the 29 bytes of the header, its first byte
      stands for no operation, or it ends inside the payload; and it is accepted in every other case. */
  lemma RejectedEntry(b: seq<Byte>)
    ensures DecodeEntry(b) == Err(CorruptPage(ShortEntry)) <==> |b| < 29
    ensures DecodeEntry(b) == Err(CorruptPage(UnknownOpcode)) <==> |b| >= 29 && b[0] > 2
    ensures DecodeEntry(b) == Err(CorruptPage(ShortPayload)) <==>
              |b| >= 29 && b[0] <= 2 && |b| < 29 + Num32(b[25..29])
    ensures DecodeEntry(b).Ok? <==> |b| >= 29 && b[0] <= 2 && |b| >= 29 + Num32(b[25..29])
  {
  }

  // ----- framing -----

  function Frame(e: WalEntry): (b: seq<Byte>)
    ensures |b| == 4 + WAL_ENTRY_HEADER_SIZE + |e.payload|
  {
    LE(4, |EntryBytes(e)|) + EntryBytes(e)
  }

  function Frames(es: seq<WalEntry>): seq<Byte> {
    if es == [] then [] else Frame(es[0]) + Frames(es[1..])
  }

  predicate AllFramable(es: seq<WalEntry>) {
    forall e :: e in es ==> Framable(e)
  }

  /** The entries of a log file, behind those read so far. A file that ends inside a length prefix,
      or a prefix of zero, ends the log; a file that ends inside an entry is an error. */
  function ReadFrom(b: seq<Byte>, read: seq<WalEntry>): Result<seq<WalEntry>>
    decreases |b|
  {
    if |b| < 4 then Ok(read)
    else
      var len := Num32(b[..4]);
      if len == 0 then Ok(read)
      else if |b| < 4 + len then Err(CorruptPage(TornWrite))
      else
        match DecodeEntry(b[4..4 + len])
        case Err(e) => Err(e)
        case Ok(entry) => ReadFrom(b[4 + len..], read + [entry])
  }

  /** One step of reading at a position of the file. */
  lemma ReadStep(file: seq<Byte>, pos: nat, read: seq<WalEntry>)
    requires pos <= |file|
    ensures ReadFrom(file[pos..], read) ==
            if pos + 4 > |file| then Ok(read)
            else
              var len := Num32(file[pos..pos + 4]);
              if len == 0 then Ok(read)
              else if pos + 4 + len > |file| then Err(CorruptPage(TornWrite))
              else
                var got := DecodeEntry(file[pos + 4..pos + 4 + len]);
                if got.Err? then Err(got.error) else ReadFrom(file[pos + 4 + len..], read + [got.value])
  {
    hide DecodeEntry, FromLE;
    var b := file[pos..];
    if pos + 4 <= |file| {
      assert b[..4] == file[pos..pos + 4];
      var len := Num32(b[..4]);
      if pos + 4 + len <= |file| {
        assert b[4..4 + len] == file[pos + 4..pos + 4 + len] && b[4 + len..] == file[pos + 4 + len..];
      }
    }
  }

  function ReadLog(b: seq<Byte>): Result<seq<WalEntry>> {
    ReadFrom(b, [])
  }

  lemma {:induction false} FramesConcat(a: seq<WalEntry>, b: seq<WalEntry>)
    ensures Frames(a + b) == Frames(a) + Frames(b)
  {
    hide Frame;
    if a == [] {
      assert a + b == b;
    } else {
      FramesConcat(a[1..], b);
      assert (a + b)[1..] == a[1..] + b;
      Associates(Frame(a[0]), Frames(a[1..]), Frames(b));
    }
  }

  lemma FramesStep(es: seq<WalEntry>, i: nat)
    requires i < |es|
    ensures Frames(es[..i + 1]) == Frames(es[..i]) + Frame(es[i])
    ensures MaxLsn(es[..i + 1]) == if MaxLsn(es[..i]) < es[i].lsn then es[i].lsn else MaxLsn(es[..i])
  {
    assert es[..i + 1] == es[..i] + [es[i]];
    assert es[..i + 1][..i] == es[..i];
    FramesConcat(es[..i], [es[i]]);
    assert Frames([es[i]]) == Frame(es[i]) + [] == Frame(es[i]);
  }

  /** The number of entries that lie wholly within the first c bytes of the log. */
  function Complete(es: seq<WalEntry>, c: nat): (k: nat)
    ensures k <= |es|
    ensures |Frames(es[..k])| <= c
    ensures k < |es| ==> c < |Frames(es[..k])| + |Frame(es[k])|
  {
    if es == [] || c < |Frame(es[0])| then
      assert es[..0] == [];
      0
    else
      var k := 1 + Complete(es[1..], c - |Frame(es[0])|);
      assert es[..k][1..] == es[1..][..k - 1];
      k
  }

  /** Reading one frame off the front. */
  lemma FrameBack(e: WalEntry, rest: seq<Byte>)
    requires Framable(e)
    ensures var b := Frame(e) + rest;
            var len := |EntryBytes(e)|;
            && Num32(b[..4]) == len > 0
            && b[4..4 + len] == EntryBytes(e) && b[4 + len..] == rest
            && DecodeEntry(b[4..4 + len]) == Ok(e)
  {
    var b := Frame(e) + rest;
    assert b[..4] == LE(4, |EntryBytes(e)|);
    assert b[4..4 + |EntryBytes(e)|] == EntryBytes(e);
    Fits32(|EntryBytes(e)|);
    EntryBack(e);
  }

  /** Cut a log anywhere: the reader returns exactly the complete entries when at most three bytes
      follow the last of them, and reports a torn write otherwise. It never returns anything else. */
  lemma ReadPrefix(es: seq<WalEntry>, c: nat)
    requires AllFramable(es) && c <= |Frames(es)|
    ensures var k := Complete(es, c);
            ReadLog(Frames(es)[..c]) ==
            if c < |Frames(es[..k])| + 4 then Ok(es[..k]) else Err(CorruptPage(TornWrite))
  {
    ReadPrefixFrom(es, c, []);
    assert [] + es[..Complete(es, c)] == es[..Complete(es, c)];
  }

  lemma {:induction false} ReadPrefixFrom(es: seq<WalEntry>, c: nat, read: seq<WalEntry>)
    requires AllFramable(es) && c <= |Frames(es)|
    ensures var k := Complete(es, c);
            ReadFrom(Frames(es)[..c], read) ==
            if c < |Frames(es[..k])| + 4 then Ok(read + es[..k]) else Err(CorruptPage(TornWrite))
    decreases |es|
  {
    if es == [] {
      assert es[..0] == [] && read + [] == read;
    } else {
      var e, rest := es[0], Frames(es[1..]);
      if c < |Frame(e)| {
        assert es[..0] == [] && read + [] == read;
        assert Frames(es)[..c] == Frame(e)[..c];
        FrameTorn(e, c, read);
      } else {
        var c' := c - |Frame(e)|;
        assert Frames(es)[..c] == Frame(e) + rest[..c'];
        FrameBack(e, rest[..c']);
        ReadPrefixFrom(es[1..], c', read + [e]);
        CompleteStep(es, c, read);
      }
    }
  }

  lemma CompleteStep(es: seq<WalEntry>, c: nat, read: seq<WalEntry>)
    requires es != [] && c >= |Frame(es[0])|
    ensures var k, k' := Complete(es, c), Complete(es[1..], c - |Frame(es[0])|);
            && k == k' + 1
            && |Frames(es[..k])| == |Frame(es[0])| + |Frames(es[1..][..k'])|
            && read + es[..k] == read + [es[0]] + es[1..][..k']
  {
    var k := Complete(es, c);
    assert es[..k][1..] == es[1..][..k - 1];
  }

  /** Less than a whole frame. */
  lemma FrameTorn(e: WalEntry, c: nat, read: seq<WalEntry>)
    requires Framable(e) && c < |Frame(e)|
    ensures ReadFrom(Frame(e)[..c], read) == if c < 4 then Ok(read) else Err(CorruptPage(TornWrite))
  {
    if c >= 4 {
      assert Frame(e)[..c][..4] == LE(4, |EntryBytes(e)|);
      Fits32(|EntryBytes(e)|);
    }
  }

  /** Reading back everything that was written. */
  lemma ReadAll(es: seq<WalEntry>)
    requires AllFramable(es)
    ensures ReadLog(Frames(es)) == Ok(es)
  {
    var b := Frames(es);
    ReadPrefix(es, |b|);
    CompleteAll(es);
    assert b[..|b|] == b;
    assert es[..|es|] == es;
  }

  lemma {:induction false} CompleteAll(es: seq<WalEntry>)
    ensures Complete(es, |Frames(es)|) == |es|
  {
    if es != [] { CompleteAll(es[1..]); }
  }

  /** The entries of batches written one after the other. */
  function Flatten(batches: seq<seq<WalEntry>>): seq<WalEntry> {
    if batches == [] then [] else batches[0] + Flatten(batches[1..])
  }

  function FramesOfBatches(batches: seq<seq<WalEntry>>): seq<Byte> {
    if batches == [] then [] else Frames(batches[0]) + FramesOfBatches(batches[1..])
  }

  /** Batch boundaries leave no trace: any list of batches reads back as one list of entries. */
  lemma BatchesReadBack(batches: seq<seq<WalEntry>>)
    requires AllFramable(Flatten(batches))
    ensures ReadLog(FramesOfBatches(batches)) == Ok(Flatten(batches))
  {
    BatchFrames(batches);
    ReadAll(Flatten(batches));
  }

  lemma {:induction false} BatchFrames(batches: seq<seq<WalEntry>>)
    ensures FramesOfBatches(batches) == Frames(Flatten(batches))
  {
    if batches != [] {
      BatchFrames(batches[1..]);
      FramesConcat(batches[0], Flatten(batches[1..]));
    }
  }

  lemma {:induction false} CompleteMonotone(es: seq<WalEntry>, c: nat, d: nat)
    requires c <= d
    ensures Complete(es, c) <= Complete(es, d)
  {
    if es != [] && |Frame(es[0])| <= c {
      CompleteMonotone(es[1..], c - |Frame(es[0])|, d - |Frame(es[0])|);
    }
  }

  lemma {:induction false} CompleteMore(a: seq<WalEntry>, b: seq<WalEntry>, c: nat)
    ensures Complete(a, c) <= Complete(a + b, c)
    ensures b != [] && c < |Frames(a)| + |Frame(b[0])| ==> Complete(a + b, c) == Complete(a, c)
  {
    hide Frame, Frames;
    if a == [] {
      assert a + b == b;
      assert Frames([]) == [] by { NoFrames(); }
    } else {
      assert (a + b)[1..] == a[1..] + b && (a + b)[0] == a[0];
      FramesHead(a);
      if |Frame(a[0])| <= c { CompleteMore(a[1..], b, c - |Frame(a[0])|); }
    }
  }

  // ----- what a crash or a failed write leaves behind -----

  /** The beginning of a frame without its end. */
  ghost predicate Torn(tail: seq<Byte>) {
    exists e :: Framable(e) && tail < Frame(e)
  }

  lemma NothingTorn()
    ensures Torn([])
  {
    var e := WalEntry(DeleteOp, 0, 0, 0, []);
    assert Framable(e) && [] < Frame(e);
  }

  /** Cut a log anywhere before its end: it keeps the complete entries, and a torn frame. */
  lemma CutFrames(es: seq<WalEntry>, c: nat)
    requires AllFramable(es) && c < |Frames(es)|
    ensures var k := Complete(es, c);
            var kept := Frames(es[..k]);
            k < |es| && |kept| <= c && Frames(es)[..c] == kept + Frames(es)[..c][|kept|..]
            && Torn(Frames(es)[..c][|kept|..])
  {
    hide Frame, Frames;
    var k := Complete(es, c);
    CutsShort(es, c);
    FramesConcat(es[..k], es[k..]);
    assert es[..k] + es[k..] == es;
    FramesHead(es[k..]);
    assert es[k..][0] == es[k];
    TornMiddle(Frames(es[..k]), Frame(es[k]), Frames(es[k..][1..]), c);
    Associates(Frames(es[..k]), Frame(es[k]), Frames(es[k..][1..]));
    assert es[k] in es;
  }

  lemma CutsShort(es: seq<WalEntry>, c: nat)
    requires c < |Frames(es)|
    ensures Complete(es, c) < |es|
  {
    assert es[..|es|] == es;
  }

  lemma NoFrames()
    ensures Frames([]) == []
  {
  }

  lemma FramesHead(es: seq<WalEntry>)
    requires es != []
    ensures Frames(es) == Frame(es[0]) + Frames(es[1..])
  {
  }

  lemma TornMiddle(a: seq<Byte>, f: seq<Byte>, c: seq<Byte>, n: nat)
    requires |a| <= n < |a| + |f|
    ensures var cut := (a + f + c)[..n]; cut == a + cut[|a|..] && cut[|a|..] < f
  {
  }

  /** A log with a torn frame at its end, cut anywhere. */
  lemma CutTorn(es: seq<WalEntry>, tail: seq<Byte>, c: nat)
    requires AllFramable(es) && Torn(tail) && c <= |Frames(es)| + |tail|
    ensures var k := Complete(es, c);
            var cut, kept := (Frames(es) + tail)[..c], Frames(es[..k]);
            && |kept| <= c && cut == kept + cut[|kept|..] && Torn(cut[|kept|..])
            && ReadLog(cut) == if c < |kept| + 4 then Ok(es[..k]) else Err(CorruptPage(TornWrite))
  {
    hide Frame, ReadFrom, Complete;
    var e :| Framable(e) && tail < Frame(e);
    var all := es + [e];
    OneMore(es, e, tail);
    CompleteMore(es, [e], c);
    CutFrames(all, c);
    ReadPrefix(all, c);
    assert (Frames(es) + tail)[..c] == Frames(all)[..c];
    assert all[..Complete(es, c)] == es[..Complete(es, c)];
  }

  lemma OneMore(es: seq<WalEntry>, e: WalEntry, tail: seq<Byte>)
    requires tail < Frame(e)
    ensures Frames(es) + tail < Frames(es + [e]) && |Frames(es + [e])| == |Frames(es)| + |Frame(e)|
  {
    hide Frame;
    FramesConcat(es, [e]);
    assert Frames([e]) == Frame(e) + [] == Frame(e);
  }

  /** A log with a torn frame at its end reads as its entries while at most three bytes are left over. */
  lemma ReadTorn(es: seq<WalEntry>, tail: seq<Byte>)
    requires AllFramable(es) && Torn(tail)
    ensures ReadLog(Frames(es) + tail) == if |tail| < 4 then Ok(es) else Err(CorruptPage(TornWrite))
  {
    hide Frame, Frames, ReadFrom, Torn;
    var n := |Frames(es)| + |tail|;
    CutTorn(es, tail, n);
    assert (Frames(es) + tail)[..n] == Frames(es) + tail;
    CompleteAll(es);
    CompleteMonotone(es, |Frames(es)|, n);
    assert es[..|es|] == es;
  }

  /** A crash can leave just any number of the first entries of a log to be read. */
  lemma BatchIsNotAtomic(batch: seq<WalEntry>, k: nat)
    requires AllFramable(batch) && k <= |batch|
    ensures |Frames(batch[..k])| <= |Frames(batch)|
    ensures ReadLog(Frames(batch)[..|Frames(batch[..k])|]) == Ok(batch[..k])
  {
    hide Frame, Frames, ReadFrom;
    FramesConcat(batch[..k], batch[k..]);
    assert batch[..k] + batch[k..] == batch;
    assert (Frames(batch[..k]) + Frames(batch[k..]))[..|Frames(batch[..k])|] == Frames(batch[..k]);
    ReadAll(batch[..k]);
  }

  /** All or nothing of the batch behind es is read, wherever behind es the file is cut. */
  ghost predicate Atomic(es: seq<WalEntry>, batch: seq<WalEntry>) {
    forall c :: |Frames(es)| <= c <= |Frames(es + batch)| && ReadLog(Frames(es + batch)[..c]).Ok? ==>
      ReadLog(Frames(es + batch)[..c]).value == es || ReadLog(Frames(es + batch)[..c]).value == es + batch
  }

  /** A batch behind any log is atomic exactly when it has at most one entry. */
  lemma AtomicIffSingle(es: seq<WalEntry>, batch: seq<WalEntry>)
    requires AllFramable(es + batch)
    ensures Atomic(es, batch) <==> |batch| <= 1
  {
    hide Frame, Frames, ReadFrom, Complete;
    var all := es + batch;
    FramesConcat(es, batch);
    if |batch| <= 1 {
      forall c | |Frames(es)| <= c <= |Frames(all)| && ReadLog(Frames(all)[..c]).Ok?
        ensures ReadLog(Frames(all)[..c]).value == es || ReadLog(Frames(all)[..c]).value == all
      {
        ReadPrefix(all, c);
        CompleteAll(es);
        CompleteMore(es, batch, |Frames(es)|);
        CompleteMonotone(all, |Frames(es)|, c);
        assert all[..|es|] == es && all[..|all|] == all;
      }
    } else {
      var k, c := |es| + 1, |Frames(all[..|es| + 1])|;
      BatchIsNotAtomic(all, k);
      assert all[..k] == es + [batch[0]];
      FramesConcat(es, [batch[0]]);
      assert ReadLog(Frames(all)[..c]).value == all[..k];
      assert |all[..k]| != |es| && |all[..k]| != |all|;
    }
  }

  // ----- appending behind leftover bytes -----

  /** What is read takes up at most the bytes there are. */
  lemma {:induction false} ReadConsumes(b: seq<Byte>, read: seq<WalEntry>)
    requires ReadFrom(b, read).Ok?
    ensures read <= ReadFrom(b, read).value
    ensures |Frames(ReadFrom(b, read).value[|read|..])| <= |b|
    decreases |b|
  {
    hide DecodeEntry, FromLE, EntryBytes, Frame;
    var r := ReadFrom(b, read).value;
    if r == read {
      assert r[|read|..] == [];
    } else {
      var len := Num32(b[..4]);
      var e := DecodeEntry(b[4..4 + len]).value;
      ReadConsumes(b[4 + len..], read + [e]);
      AcceptedStartsWithEntry(b[4..4 + len]);
      FrameSize(e);
      assert r[|read|] == (read + [e])[|read|] == e;
      assert r[|read|..][1..] == r[|read + [e]|..];
    }
  }

  /** The first entry a reader accepts. */
  lemma FirstRead(b: seq<Byte>, read: seq<WalEntry>, e: WalEntry, rest: seq<WalEntry>)
    requires ReadFrom(b, read) == Ok(read + [e] + rest)
    ensures |b| >= 4
    ensures var n := Num32(b[..4]);
            && |b| >= 4 + n && EntryBytes(e) <= b[4..4 + n]
            && |Frames(rest)| <= |b| - 4 - n
  {
    hide DecodeEntry, FromLE, EntryBytes, Frames;
    assert |read + [e] + rest| > |read|;
    var n := Num32(b[..4]);
    var x := DecodeEntry(b[4..4 + n]).value;
    ReadConsumes(b[4 + n..], read + [x]);
    assert (read + [e] + rest)[|read|] == e;
    assert (read + [e] + rest)[|read + [x]|..] == rest;
    AcceptedStartsWithEntry(b[4..4 + n]);
  }

  /** The bytes of a length below 2^16. */
  lemma ShortLength(len: nat)
    requires len < 0x1_0000
    ensures LE(4, len) == [len % 256, len / 256, 0, 0]
  {
    var a, b: nat := len % 256, len / 256;
    assert LE(2, 0) == [0] + LE(1, 0) && LE(1, 0) == [0] + LE(0, 0);
    assert LE(3, b) == [b] + LE(2, 0);
  }

  /** Leftover bytes, taken for the low end of a length, make it far too large, or else (three bytes
      before a length that is a multiple of 256) its entry would have to repeat itself. */
  lemma ShiftedFrame(tail: seq<Byte>, e: WalEntry, rest: seq<Byte>)
    requires 0 < |tail| <= 3 && WAL_ENTRY_HEADER_SIZE + |e.payload| < 0x1_0000
    ensures var b, len := tail + Frame(e) + rest, |EntryBytes(e)|;
            var n := Num32(b[..4]);
            !(len <= n <= len + |tail| && |b| >= 4 + n && EntryBytes(e) <= b[4..4 + n])
  {
    var b, len := tail + Frame(e) + rest, |EntryBytes(e)|;
    var n := Num32(b[..4]);
    ShortLength(len);
    FourBytes(b[..4]);
    var low: nat, high: nat := len % 256, len / 256;
    var head := tail + [low, high, 0, 0];
    assert forall i :: 0 <= i < |tail| + 4 ==> b[i] == head[i];
    hide FromLE, LE, EntryBytes, Frame;
    if |tail| == 1 {
      assert b[1] == low && b[2] == high;
    } else if |tail| == 2 {
      assert b[2] == low && b[3] == high;
    } else {
      assert b[3] == low && b[5] == 0;
      if low == 0 && len <= n <= len + 3 && |b| >= 4 + n && EntryBytes(e) <= b[4..4 + n] {
        assert EntryBytes(e)[1] == b[4..4 + n][1] == b[5];
        SelfOverlap(tail, e, rest);
        assert false;
      }
    }
  }

  /** An entry found three bytes early repeats every three bytes. */
  lemma SelfOverlap(tail: seq<Byte>, e: WalEntry, rest: seq<Byte>)
    requires |tail| == 3
    requires var b, len := tail + Frame(e) + rest, |EntryBytes(e)|; |b| >= 4 + len && EntryBytes(e) <= b[4..]
    requires |EntryBytes(e)| % 256 == 0
    ensures EntryBytes(e)[1] != 0
  {
    var b, x := tail + Frame(e) + rest, EntryBytes(e);
    forall i | 3 <= i < |x| ensures x[i] == x[i - 3] {
      assert b[4..][i] == b[4 + i] == Frame(e)[1 + i] == x[i - 3];
    }
    assert x[25] == x[22] == x[19] == x[16] == x[13] == x[10] == x[7] == x[4] == x[1];
    LengthByte(e);
  }

  lemma LengthByte(e: WalEntry)
    ensures EntryBytes(e)[25] == |e.payload| % 256
  {
    var n := LE(4, |e.payload|);
    Fields([OpByte(e.op)], LE(8, e.lsn), LE(8, e.pageId), LE(8, e.rowId), n, e.payload);
    assert EntryBytes(e)[25] == EntryBytes(e)[25..29][0] == n[0];
  }

  lemma TailLoses(tail: seq<Byte>, es: seq<WalEntry>, read: seq<WalEntry>)
    requires 0 < |tail| <= 3 && es != [] && WAL_ENTRY_HEADER_SIZE + |es[0].payload| < 0x1_0000
    ensures ReadFrom(tail + Frames(es), read) != Ok(read + es)
  {
    hide ReadFrom, Frame, EntryBytes, FromLE;
    var e, rest := es[0], Frames(es[1..]);
    var b := tail + Frame(e) + rest;
    Associates(tail, Frame(e), rest);
    assert read + [e] + es[1..] == read + es;
    if ReadFrom(b, read) == Ok(read + es) {
      FirstRead(b, read, e, es[1..]);
      FrameSize(e);
      ShiftedFrame(tail, e, rest);
      assert false;
    }
  }

  lemma FrameIs(e: WalEntry)
    ensures Frame(e) == LE(4, |EntryBytes(e)|) + EntryBytes(e)
  {
  }

  lemma FrameSize(e: WalEntry)
    ensures |Frame(e)| == 4 + |EntryBytes(e)|
  {
  }

  lemma {:induction false} ReadPast(es: seq<WalEntry>, rest: seq<Byte>, read: seq<WalEntry>)
    requires AllFramable(es)
    ensures ReadFrom(Frames(es) + rest, read) == ReadFrom(rest, read + es)
    decreases |es|
  {
    if es == [] {
      assert Frames(es) + rest == rest && read + es == read;
    } else {
      var more := Frames(es[1..]) + rest;
      FrameBack(es[0], more);
      Associates(Frame(es[0]), Frames(es[1..]), rest);
      ReadPast(es[1..], rest, read + [es[0]]);
      Associates(read, [es[0]], es[1..]);
      assert es == [es[0]] + es[1..];
      hide Frame, DecodeEntry;
      assert Frames(es) + rest == Frame(es[0]) + more;
    }
  }

  /** A zero length ends the log, whatever follows. */
  lemma ZeroEndsLog(es: seq<WalEntry>, rest: seq<Byte>)
    requires AllFramable(es)
    ensures ReadLog(Frames(es) + ([0, 0, 0, 0] + rest)) == Ok(es)
  {
    var z := [0, 0, 0, 0] + rest;
    ReadPast(es, z, []);
    hide Frames;
    assert z[..4] == [0, 0, 0, 0];
    FourBytes(z[..4]);
    assert [] + es == es;
  }

  /** One frame that does not decode makes the whole log unreadable, with the reason reported. */
  lemma BadFrameSpoilsLog(es: seq<WalEntry>, x: seq<Byte>, rest: seq<Byte>)
    requires AllFramable(es) && 0 < |x| < 0x1_0000_0000 && DecodeEntry(x).Err?
    ensures ReadLog(Frames(es) + (LE(4, |x|) + x + rest)) == Err(DecodeEntry(x).error)
  {
    var b := LE(4, |x|) + x + rest;
    ReadPast(es, b, []);
    hide Frames, DecodeEntry;
    Fits32(|x|);
    assert b[..4] == LE(4, |x|) && b[4..4 + |x|] == x;
  }

  /** Bytes left over behind a log are taken for its end, but startup leaves them in the file when it
      found no entry. What is then appended, and acknowledged, reads back exactly when there were none. */
  lemma AppendReadableIffNoTail(log: seq<WalEntry>, tail: seq<Byte>, es: seq<WalEntry>)
    requires AllFramable(log) && AllFramable(es) && |tail| <= 3
    requires es != [] && WAL_ENTRY_HEADER_SIZE + |es[0].payload| < 0x1_0000
    ensures ReadLog(Frames(log) + tail + Frames(es)) == Ok(log + es) <==> tail == []
  {
    hide ReadFrom, Frame;
    Associates(Frames(log), tail, Frames(es));
    ReadPast(log, tail + Frames(es), []);
    assert [] + log == log;
    if tail == [] {
      assert tail + Frames(es) == Frames(es) + [];
      ReadPast(es, [], log);
      assert ReadFrom([], log + es) == Ok(log + es) by { ReadNothing(log + es); }
    } else {
      TailLoses(tail, es, log);
    }
  }

  lemma ReadNothing(read: seq<WalEntry>)
    ensures ReadFrom([], read) == Ok(read)
  {
  }

  /** It can even read as an entry nobody wrote: behind one leftover byte the length of an entry with
      227 bytes of payload becomes 65536 and more, its operation the high byte of that length, and the
      low bytes of its payload's length the middle of a length of 58112 and more. */
  lemma TailAltersEntry(b: Byte, e: WalEntry, es: seq<WalEntry>)
    requires |e.payload| == 227 && 65279 + b <= |Frames(es)| < 65283 + b
    requires forall x :: x in es ==> |x.payload| <= 400
    ensures var r := ReadLog([b] + Frames([e] + es));
            && r.Ok? && |r.value| == 1 && r.value[0].op == InsertOp && |r.value[0].payload| >= 58112
            && r.value[0] !in [e] + es
  {
    var f := [b] + Frame(e);
    assert ([e] + es)[1..] == es;
    Associates([b], Frame(e), Frames(es));
    AlteredBytes(b, e);
    hide Frame, Frames, EntryBytes, ReadFrom;
    var file := f + Frames(es);
    assert forall i :: 0 <= i < 33 ==> file[i] == f[i];
    AlteredRead(file, b);
    hide ReadLog;
    assert [b] + Frames([e] + es) == file;
  }

  lemma AlteredRead(file: seq<Byte>, b: Byte)
    requires 65540 + b <= |file| < 65544 + b
    requires file[0] == b && file[1] == 0 && file[2] == 1 && file[3] == 0 && file[4] == 0
    requires file[30] == 227 && file[31] == 0 && file[32] == 0
    ensures var r := ReadLog(file);
            && r.Ok? && |r.value| == 1 && r.value[0].op == InsertOp && |r.value[0].payload| >= 58112
  {
    var n := 65536 + b;
    FourBytes(file[0..4]);
    var buf := file[4..4 + n];
    assert buf[25..29] == [file[29], 227, 0, 0];
    FourBytes(buf[25..29]);
    var x := DecodeEntry(buf);
    assert x.Ok? && |x.value.payload| == Num32(buf[25..29]) >= 58112;
    assert Num32(file[0..4]) == n;
    assert file[0..] == file;
    hide FromLE, DecodeEntry, ReadFrom;
    ReadStep(file, 0, []);
    ReadStep(file, 4 + n, [x.value]);
    assert [] + [x.value] == [x.value];
  }

  lemma AlteredBytes(b: Byte, e: WalEntry)
    requires |e.payload| == 227
    ensures var f := [b] + Frame(e);
            && |f| == 261 && f[0] == b && f[1] == 0 && f[2] == 1 && f[3] == 0 && f[4] == 0
            && f[30] == 227 && f[31] == 0 && f[32] == 0
  {
    var x, n := EntryBytes(e), LE(4, 227);
    ShortLength(256);
    ShortLength(227);
    Fields([OpByte(e.op)], LE(8, e.lsn), LE(8, e.pageId), LE(8, e.rowId), n, e.payload);
    hide LE, FromLE;
    assert x[25] == x[25..29][0] && x[26] == x[25..29][1] && x[27] == x[25..29][2];
  }

  /** A write that stopped inside a frame, past its LSN, leaves a tail behind which nothing reads back
      as it was written: the reader takes the torn entry's LSN for that of the next. */
  lemma AppendBehindTornEntry(log: seq<WalEntry>, e: WalEntry, c: nat, es: seq<WalEntry>)
    requires AllFramable(log) && es != [] && 13 <= c < |Frame(e)| && es[0].lsn != e.lsn
    ensures ReadLog(Frames(log) + Frame(e)[..c] + Frames(es)) != Ok(log + es)
  {
    hide ReadFrom, Frame;
    var tail := Frame(e)[..c];
    var b := tail + Frames(es);
    Associates(Frames(log), tail, Frames(es));
    ReadPast(log, b, []);
    assert [] + log == log && log + [es[0]] + es[1..] == log + es;
    if ReadFrom(b, log) == Ok(log + es) {
      FirstRead(b, log, es[0], es[1..]);
      LsnBytes(e, c);
      LsnBytes(es[0], |Frame(es[0])|);
      hide EntryBytes, LE, FromLE;
      var n: nat := Num32(b[..4]);
      WithinSlice(b, 4, 4 + n, 1, 9);
      assert b[5..13] == tail[5..13];
      assert EntryBytes(es[0])[1..9] == b[4..4 + n][1..9];
      SameLsn(e.lsn, es[0].lsn);
      assert false;
    }
  }

  lemma WithinSlice(b: seq<Byte>, i: nat, j: nat, k: nat, l: nat)
    requires i <= j <= |b| && k <= l <= j - i
    ensures b[i..j][k..l] == b[i + k..i + l]
  {
    forall x | 0 <= x < l - k ensures b[i..j][k..l][x] == b[i + k..i + l][x] {}
  }

  /** Bytes 5 to 13 of a frame are its LSN. */
  lemma LsnBytes(e: WalEntry, c: nat)
    requires 13 <= c <= |Frame(e)|
    ensures |EntryBytes(e)| >= 9 && EntryBytes(e)[1..9] == LE(8, e.lsn) && Frame(e)[..c][5..13] == LE(8, e.lsn)
  {
    hide LE;
    Fields([OpByte(e.op)], LE(8, e.lsn), LE(8, e.pageId), LE(8, e.rowId), LE(4, |e.payload|), e.payload);
    assert Frame(e)[..c][5..13] == EntryBytes(e)[1..9];
  }

  lemma SameLsn(a: U64, b: U64)
    requires LE(8, a) == LE(8, b)
    ensures a == b
  {
    Fits64(a);
    Fits64(b);
  }

  /** The first write stops after ten bytes, the next one succeeds and is synced: what it wrote is
      durable, but reads as an entry cut short. */
  lemma StoppedWriteSpoilsLog(w: Log, first: WalEntry, next: WalEntry)
    requires w == OpenLog([], true).(faults := NO_FAULTS.(writeStops := Some(10)))
    requires first == WalEntry(InsertOp, 1, 4096, 1, []) && next == WalEntry(InsertOp, 2, 4096, 5, [7])
    ensures var (w1, r1) := WriteBatch(w, [first]);
            var (w2, r2) := WriteBatch(w1.(faults := NO_FAULTS), [next]);
            && r1 == Err(Io) && r2 == Ok(()) && w2.durable == |w2.bytes|
            && ReadLog(w2.bytes) == Err(CorruptPage(ShortPayload))
  {
    hide Frame, Frames, EntryBytes, LE, ReadLog;
    var a, b := Frame(first), Frame(next);
    FramesOne(first);
    FramesOne(next);
    assert b[..|b|] == b;
    var file := a[..10] + b;
    FirstBytes(first);
    NextBytes(next);
    assert [] + a[..10] == a[..10];
    assert forall i :: 0 <= i < 24 ==> file[10 + i] == b[i];
    CutShort(file);
  }

  lemma FramesOne(e: WalEntry)
    ensures Frames([e]) == Frame(e)
  {
    assert Frames([e]) == Frame(e) + [];
  }

  lemma FirstBytes(e: WalEntry)
    requires e == WalEntry(InsertOp, 1, 4096, 1, [])
    ensures var f := Frame(e); |f| == 33 && f[0] == 29 && f[1] == 0 && f[2] == 0 && f[3] == 0 && f[4] == 0
  {
    Frame29();
  }

  lemma NextBytes(e: WalEntry)
    requires e == WalEntry(InsertOp, 2, 4096, 5, [7])
    ensures var f := Frame(e); |f| == 34 && f[19] == 0 && f[20] == 0 && f[21] == 5 && f[22] == 0
  {
    hide LE;
    FrameIs(e);
    var x, n := EntryBytes(e), LE(4, |EntryBytes(e)|);
    Fields([OpByte(e.op)], LE(8, e.lsn), LE(8, e.pageId), LE(8, e.rowId), LE(4, |e.payload|), e.payload);
    LowBytes(4096);
    LowBytes(5);
    hide EntryBytes, Frame;
    assert x[15] == x[9..17][6] && x[16] == x[9..17][7] && x[17] == x[17..25][0] && x[18] == x[17..25][1];
    assert forall i :: 0 <= i < 30 ==> (n + x)[4 + i] == x[i];
  }

  /** The bytes of a small number. */
  lemma LowBytes(x: nat)
    requires x < 0x1_0000
    ensures LE(8, x) == [x % 256, x / 256, 0, 0, 0, 0, 0, 0]
  {
    ShortLength(x);
    var a, b: nat := x % 256, x / 256;
    assert LE(8, x) == [a] + LE(7, b) && LE(7, b) == [b] + LE(6, 0);
    assert LE(6, 0) == [0] + LE(5, 0) && LE(5, 0) == [0] + LE(4, 0) && LE(4, 0) == [0] + LE(3, 0);
    assert LE(3, 0) == [0] + LE(2, 0) && LE(2, 0) == [0] + LE(1, 0) && LE(1, 0) == [0] + LE(0, 0);
  }

  lemma CutShort(file: seq<Byte>)
    requires |file| == 44 && file[0] == 29 && file[1] == 0 && file[2] == 0 && file[3] == 0 && file[4] == 0
    requires file[29] == 0 && file[30] == 0 && file[31] == 5 && file[32] == 0
    ensures ReadLog(file) == Err(CorruptPage(ShortPayload))
  {
    FourBytes(file[0..4]);
    var buf := file[4..33];
    assert buf[25..29] == [0, 0, 5, 0];
    FourBytes(buf[25..29]);
    assert DecodeEntry(buf) == Err(CorruptPage(ShortPayload));
    assert file[0..] == file && Num32(file[0..4]) == 29;
    hide FromLE, DecodeEntry, ReadFrom;
    ReadStep(file, 0, []);
  }

  /** One leftover byte before an entry without payload reads as a torn write. */
  lemma LeftoverByteSpoilsLog(b: Byte, e: WalEntry)
    requires e.payload == []
    ensures ReadLog([b]) == Ok([])
    ensures ReadLog([b] + Frames([e])) == Err(CorruptPage(TornWrite))
  {
    var file := [b] + Frames([e]);
    assert Frames([e]) == Frame(e) + [] == Frame(e);
    assert |EntryBytes(e)| == 29;
    Frame29();
    assert file[0] == b && file[1] == 29 && file[2] == 0 && file[3] == 0;
    FourBytes(file[..4]);
  }

  lemma Frame29()
    ensures LE(4, 29) == [29, 0, 0, 0]
  {
    assert LE(1, 0) == [0] + LE(0, 0) == [0];
    assert LE(2, 0) == [0, 0];
    assert LE(3, 0) == [0, 0, 0];
  }

  lemma FourBytes(s: seq<Byte>)
    requires |s| == 4
    ensures var a: nat, b: nat, c: nat, d: nat := s[0], s[1], s[2], s[3];
            FromLE(s) == a + 256 * b + 65536 * c + 16777216 * d
  {
    assert s[3..][1..] == [] && s[2..][1..] == s[3..] && s[1..][1..] == s[2..];
    assert FromLE(s[3..]) == s[3];
    assert FromLE(s[2..]) == s[2] + 256 * FromLE(s[3..]);
    assert FromLE(s[1..]) == s[1] + 256 * FromLE(s[2..]);
  }

  // ----- the log file and its manager -----

  /** What the environment makes fail: a write stops after so many bytes, and syncing, resizing and
      rewinding the file may report errors. */
  datatype LogFaults = LogFaults(writeStops: Option<nat>, syncFails: bool, resizeFails: bool, seekFails: bool)

  const NO_FAULTS := LogFaults(None, false, false, false)

  /** The first durable bytes of the file survive a crash. */
  datatype Log = Log(bytes: seq<Byte>, durable: nat, sync: bool, entryCount: nat, flushedLsn: U64, faults: LogFaults)

  function OpenLog(bytes: seq<Byte>, sync: bool): (w: Log)
    ensures w.bytes == bytes && AllDurable(w)
  {
    Log(bytes, |bytes|, sync, 0, 0, NO_FAULTS)
  }

  function MaxLsn(es: seq<WalEntry>): (m: U64)
    ensures forall e :: e in es ==> e.lsn <= m
  {
    if es == [] then 0
    else
      var m := MaxLsn(es[..|es| - 1]);
      assert forall e :: e in es ==> e in es[..|es| - 1] || e == es[|es| - 1];
      if m < es[|es| - 1].lsn then es[|es| - 1].lsn else m
  }

  /** How much of n bytes a write gets to the file. */
  function Taken(w: Log, n: nat): (m: nat)
    ensures m <= n
  {
    if w.faults.writeStops.Some? && w.faults.writeStops.value < n then w.faults.writeStops.value else n
  }

  /** Appends the frames of a batch; a write that fails may leave the first of its bytes behind. */
  function WriteBatch(w: Log, batch: seq<WalEntry>): (Log, Result<()>) {
    var buffer := Frames(batch);
    var w1 := w.(bytes := w.bytes + buffer[..Taken(w, |buffer|)]);
    if batch == [] then (w, Ok(()))
    else if Taken(w, |buffer|) < |buffer| || (w.sync && w.faults.syncFails) then (w1, Err(Io))
    else
      (w1.(durable := if w.sync then |w1.bytes| else w.durable,
           flushedLsn := MaxLsn(batch), entryCount := w.entryCount + |batch|), Ok(()))
  }

  function FlushUpto(w: Log, lsn: U64): (Log, Result<()>) {
    if lsn > w.flushedLsn then
      if w.faults.syncFails then (w, Err(Io))
      else (w.(durable := |w.bytes|, flushedLsn := lsn), Ok(()))
    else (w, Ok(()))
  }

  function SyncLog(w: Log): (Log, Result<()>) {
    if w.faults.syncFails then (w, Err(Io)) else (w.(durable := |w.bytes|), Ok(()))
  }

  function Truncate(w: Log): (Log, Result<()>) {
    var w1 := w.(bytes := [], durable := 0);
    if w.faults.resizeFails then (w, Err(Io))
    else if w.faults.seekFails || (w.sync && w.faults.syncFails) then (w1, Err(Io))
    else (w1.(flushedLsn := 0, entryCount := 0), Ok(()))
  }

  function ReadBatch(w: Log): (Log, Result<seq<WalEntry>>) {
    var read := ReadLog(w.bytes);
    if w.faults.seekFails then (w, Err(Io))
    else if read.Err? then (w, read)
    else (w.(flushedLsn := MaxLsn(read.value), entryCount := |read.value|), read)
  }

  // ----- write-ahead laws -----

  /** Everything written is durable. */
  predicate AllDurable(w: Log) {
    w.durable == |w.bytes|
  }

  /** Forcing the log up to any LSN of a batch just written makes the batch durable exactly when the
      manager syncs its writes: without that the write already counts as flushed, and the forced
      flush does nothing. */
  lemma WriteAheadIffSync(w: Log, batch: seq<WalEntry>, lsn: U64)
    requires batch != [] && lsn <= MaxLsn(batch) && w.durable <= |w.bytes|
    requires WriteBatch(w, batch).1.Ok?
    ensures FlushUpto(WriteBatch(w, batch).0, lsn).1.Ok?
    ensures AllDurable(FlushUpto(WriteBatch(w, batch).0, lsn).0) <==> w.sync
  {
    assert |Frames(batch)| >= |Frame(batch[0])|;
    assert Frames(batch)[..|Frames(batch)|] == Frames(batch);
  }

  // ----- what the manager reports and keeps count of -----

  /** A write of a batch. Success: the whole batch is in the file, all that the file holds is durable
      if the manager syncs, the flushed LSN is the batch's highest and its entries are counted. Failure:
      some first bytes may be in the file and nothing else changed. An empty batch changes nothing. */
  lemma BatchWritten(w: Log, batch: seq<WalEntry>)
    ensures var (w', r) := WriteBatch(w, batch);
            && w'.sync == w.sync && w'.faults == w.faults && w.bytes <= w'.bytes <= w.bytes + Frames(batch)
            && (r.Ok? <==> batch == [] || (Taken(w, |Frames(batch)|) == |Frames(batch)|
                                             && !(w.sync && w.faults.syncFails)))
            && (r.Err? ==> r.error == Io && (w'.durable, w'.flushedLsn, w'.entryCount)
                                              == (w.durable, w.flushedLsn, w.entryCount))
            && (r.Ok? ==>
                  && w'.bytes == w.bytes + Frames(batch) && w'.entryCount == w.entryCount + |batch|
                  && (batch == [] ==> w' == w)
                  && (batch != [] ==> w'.flushedLsn == MaxLsn(batch)
                                      && (if w.sync then AllDurable(w') else w'.durable == w.durable)))
  {
    var b := Frames(batch);
    assert b[..|b|] == b;
    assert w.bytes + b[..Taken(w, |b|)] <= w.bytes + b by { PrefixKept(w.bytes, b, Taken(w, |b|)); }
  }

  lemma PrefixKept(a: seq<Byte>, b: seq<Byte>, n: nat)
    requires n <= |b|
    ensures a <= a + b[..n] <= a + b
  {
  }

  /** Forcing the log up to an LSN does nothing when that counts as flushed; otherwise it makes all that
      was written durable and counts as flushed up to there, or fails and changes nothing. A second
      attempt at the same LSN then does nothing. */
  lemma ForcedUpto(w: Log, lsn: U64)
    ensures var (w', r) := FlushUpto(w, lsn);
            && w'.bytes == w.bytes && w'.entryCount == w.entryCount && w'.sync == w.sync && w'.faults == w.faults
            && (r.Err? <==> lsn > w.flushedLsn && w.faults.syncFails) && (r.Err? ==> r.error == Io && w' == w)
            && (r.Ok? ==> w'.flushedLsn >= lsn && FlushUpto(w', lsn) == (w', Ok(())))
            && (lsn <= w.flushedLsn ==> w' == w)
            && (r.Ok? && lsn > w.flushedLsn ==> AllDurable(w') && w'.flushedLsn == lsn)
  {
  }

  /** A sync makes all that was written durable and changes nothing else, or fails and changes nothing. */
  lemma Synced(w: Log)
    ensures var (w', r) := SyncLog(w);
            && (r.Ok? <==> !w.faults.syncFails) && (r.Ok? ==> AllDurable(w') && w' == w.(durable := w'.durable))
            && (r.Err? ==> r.error == Io && w' == w)
  {
  }

  /** Cutting the log leaves the manager like one that has just opened an empty file, flushed LSN and
      entry count included: until the next append every LSN counts as not flushed. A cut that fails
      leaves all as it was, or the file empty and the counters as they were. */
  lemma CutIsFresh(w: Log)
    ensures var (w', r) := Truncate(w);
            && (r.Ok? <==> !w.faults.resizeFails && !w.faults.seekFails && !(w.sync && w.faults.syncFails))
            && (r.Ok? ==> w' == OpenLog([], w.sync).(faults := w.faults)
                          && w'.flushedLsn == 0 && w'.entryCount == 0 && w'.bytes == [] && AllDurable(w'))
            && (r.Err? ==> r.error == Io && (w' == w || w' == w.(bytes := [], durable := 0)))
            && (w' == w && r.Err? && w.bytes != [] ==> w.faults.resizeFails)
  {
  }

  /** Reading the log leaves the file as it is. What it read becomes the entry count and the highest
      LSN of it the flushed one; a log that cannot be read changes nothing. */
  lemma ReadCounts(w: Log)
    ensures var (w', r) := ReadBatch(w);
            && w' == w.(flushedLsn := w'.flushedLsn, entryCount := w'.entryCount)
            && (w.faults.seekFails ==> r == Err(Io)) && (!w.faults.seekFails ==> r == ReadLog(w.bytes))
            && (r.Err? ==> w' == w)
            && (r.Ok? ==> w'.entryCount == |r.value| && (forall e :: e in r.value ==> e.lsn <= w'.flushedLsn)
                          && (r.value == [] ==> w'.flushedLsn == 0)
                          && (r.value != [] ==> exists e :: e in r.value && e.lsn == w'.flushedLsn))
  {
    hide ReadLog;
    var (w', r) := ReadBatch(w);
    if r.Ok? && r.value != [] { var e := HighestLsn(r.value); }
  }

  /** The highest LSN is that of an entry. */
  lemma {:induction false} HighestLsn(es: seq<WalEntry>) returns (e: WalEntry)
    requires es != []
    ensures e in es && e.lsn == MaxLsn(es)
  {
    e := es[|es| - 1];
    if |es| > 1 && MaxLsn(es[..|es| - 1]) >= e.lsn { e := HighestLsn(es[..|es| - 1]); }
  }

  /** The manager over the log file. */
  class WalManager {
    var file: seq<Byte>
    var durable: nat
    const sync: bool
    var entryCount: nat
    var flushedLsn: U64
    var faults: LogFaults

    function Value(): Log
      reads this
    {
      Log(file, durable, sync, entryCount, flushedLsn, faults)
    }

    constructor (bytes: seq<Byte>, sync: bool)
      ensures Value() == OpenLog(bytes, sync)
    {
      file, durable := bytes, |bytes|;
      this.sync := sync;
      entryCount, flushedLsn := 0, 0;
      faults := NO_FAULTS;
    }

    /** Writes the whole buffer behind the file, or reports an error after part of it. */
    method WriteAll(buffer: seq<Byte>) returns (r: Result<()>)
      modifies this`file
      ensures file == old(file) + buffer[..Taken(old(Value()), |buffer|)]
      ensures r == if Taken(old(Value()), |buffer|) < |buffer| then Err(Io) else Ok(())
    {
      if faults.writeStops.Some? && faults.writeStops.value < |buffer| {
        file := file + buffer[..faults.writeStops.value];
        return Err(Io);
      }
      file := file + buffer;
      assert buffer[..|buffer|] == buffer;
      r := Ok(());
    }

    method Append(batch: seq<WalEntry>) returns (r: Result<()>)
      modifies this
      ensures (Value(), r) == WriteBatch(old(Value()), batch)
    {
      if batch == [] { return Ok(()); }
      assert MaxLsn([]) == 0 && Frames([]) == [];
      hide MaxLsn, Frames, Frame, EntryBytes, LE;
      var maxBatchLsn: U64, buffer := 0, [];
      for i := 0 to |batch|
        invariant Value() == old(Value())
        invariant maxBatchLsn == MaxLsn(batch[..i]) && buffer == Frames(batch[..i])
      {
        FramesStep(batch, i);
        maxBatchLsn := if maxBatchLsn < batch[i].lsn then batch[i].lsn else maxBatchLsn;
        var encodedEntry := EntryBytes(batch[i]);
        FrameIs(batch[i]);
        buffer := buffer + (LE(4, |encodedEntry|) + encodedEntry);
      }
      assert batch[..|batch|] == batch;
      var written := WriteAll(buffer);
      if written.Err? { return written; }
      if sync {
        if faults.syncFails { return Err(Io); }
        durable := |file|;
      }
      flushedLsn := maxBatchLsn;
      entryCount := entryCount + |batch|;
      r := Ok(());
    }

    method ForceUpto(lsn: U64) returns (r: Result<()>)
      modifies this`durable, this`flushedLsn
      ensures (Value(), r) == FlushUpto(old(Value()), lsn)
    {
      var currentFlushed := flushedLsn;
      if lsn > currentFlushed {
        if faults.syncFails { return Err(Io); }
        durable := |file|;
        flushedLsn := lsn;
      }
      r := Ok(());
    }

    method Sync() returns (r: Result<()>)
      modifies this`durable
      ensures (Value(), r) == SyncLog(old(Value()))
    {
      if faults.syncFails { return Err(Io); }
      durable := |file|;
      r := Ok(());
    }

    method Clear() returns (r: Result<()>)
      modifies this
      ensures (Value(), r) == Truncate(old(Value()))
    {
      if faults.resizeFails { return Err(Io); }
      file, durable := [], 0;
      if faults.seekFails { return Err(Io); }
      if sync && faults.syncFails { return Err(Io); }
      flushedLsn, entryCount := 0, 0;
      r := Ok(());
    }

    /** Parses the whole file entry by entry. */
    method Read() returns (r: Result<seq<WalEntry>>)
      modifies this`flushedLsn, this`entryCount
      ensures (Value(), r) == ReadBatch(old(Value()))
    {
      hide ReadFrom, DecodeEntry, FromLE;
      if faults.seekFails { return Err(Io); }
      var batch: seq<WalEntry> := [];
      var pos, maxObservedLsn: U64 := 0, 0;
      assert file[0..] == file;
      while true
        invariant Value() == old(Value()) && pos <= |file| && maxObservedLsn == MaxLsn(batch)
        invariant ReadLog(file) == ReadFrom(file[pos..], batch)
        decreases |file| - pos
      {
        ReadStep(file, pos, batch);
        if pos + 4 > |file| { break; }
        var entryLen := Num32(file[pos..pos + 4]);
        if entryLen == 0 { break; }
        if pos + 4 + entryLen > |file| { return Err(CorruptPage(TornWrite)); }
        var entry := DecodeEntry(file[pos + 4..pos + 4 + entryLen]);
        if entry.Err? { return Err(entry.error); }
        assert (batch + [entry.value])[..|batch|] == batch;
        batch := batch + [entry.value];
        maxObservedLsn := if maxObservedLsn < entry.value.lsn then entry.value.lsn else maxObservedLsn;
        pos := pos + 4 + entryLen;
      }
      flushedLsn := maxObservedLsn;
      entryCount := |batch|;
      r := Ok(batch);
    }
  }
}
