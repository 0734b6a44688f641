/** Machine integers, error values and little-endian numbers shared by every layer. */
module Base {

  type Byte = b: nat | b < 0x100
  type U16 = x: nat | x < 0x1_0000
  type U32 = x: nat | x < 0x1_0000_0000
  type U64 = x: nat | x < 0x1_0000_0000_0000_0000

  // A page is named by its byte offset in the data file.
  type PageId = U64

  const PAGE_SIZE := 4096

  datatype Option<+T> = None | Some(value: T)

  /** The reasons the code gives for reporting corruption; the message texts are not modelled. */
  datatype Corruption =
    | UnknownNodeType
    | EmptyRightSibling
    | RecordIntoInternalNode
    | UnknownOpcode
    | ShortEntry
    | ShortPayload
    | TornWrite

  /** Panic and Deadlock stand for executions that never return to the caller: an index out of
      bounds or `unreachable!()`, and a thread waiting for a lock it already holds. */
  datatype DbError =
    | PageFull
    | TupleTooLarge(size: nat)
    | Io
    | CorruptPage(why: Corruption)
    | LruEviction
    | DuplicateKey(key: U64)
    | KeyNotFound(key: U64)
    | Panic
    | Deadlock

  datatype Result<+T> = Ok(value: T) | Err(error: DbError)

  // ----- little-endian numbers -----

  function Pow256(n: nat): (p: nat)
    ensures p > 0
  {
    if n == 0 then 1 else 256 * Pow256(n - 1)
  }

  /** The low n bytes of x, least significant first (Rust's `x as uN` followed by `to_le_bytes`). */
  function LE(n: nat, x: nat): (s: seq<Byte>)
    ensures |s| == n
  {
    if n == 0 then [] else [x % 256] + LE(n - 1, x / 256)
  }

  function FromLE(s: seq<Byte>): nat {
    if s == [] then 0 else s[0] + 256 * FromLE(s[1..])
  }

  lemma {:induction false} LERoundTrip(n: nat, x: nat)
    requires x < Pow256(n)
    ensures FromLE(LE(n, x)) == x
  {
    if n > 0 {
      LERoundTrip(n - 1, x / 256);
      assert LE(n, x)[1..] == LE(n - 1, x / 256);
    }
  }

  lemma {:induction false} LEInverse(s: seq<Byte>)
    ensures FromLE(s) < Pow256(|s|)
    ensures LE(|s|, FromLE(s)) == s
  {
    if s != [] {
      LEInverse(s[1..]);
      assert FromLE(s) / 256 == FromLE(s[1..]);
    }
  }

  lemma Powers()
    ensures Pow256(1) == 0x100
    ensures Pow256(2) == 0x1_0000
    ensures Pow256(4) == 0x1_0000_0000
    ensures Pow256(8) == 0x1_0000_0000_0000_0000
  {
    assert Pow256(2) == 256 * Pow256(1);
    assert Pow256(3) == 256 * Pow256(2);
    assert Pow256(4) == 256 * Pow256(3);
    assert Pow256(5) == 256 * Pow256(4);
    assert Pow256(6) == 256 * Pow256(5);
    assert Pow256(7) == 256 * Pow256(6);
  }

  /** Reading back a number that fits its width. */
  lemma Fits16(x: U16)
    ensures FromLE(LE(2, x)) == x
  {
    Powers();
    LERoundTrip(2, x);
  }

  lemma Fits32(x: U32)
    ensures FromLE(LE(4, x)) == x
  {
    Powers();
    LERoundTrip(4, x);
  }

  lemma Fits64(x: U64)
    ensures FromLE(LE(8, x)) == x
  {
    Powers();
    LERoundTrip(8, x);
  }

  function Num16(s: seq<Byte>): U16
    requires |s| == 2
  {
    Powers(); LEInverse(s); FromLE(s)
  }

  function Num32(s: seq<Byte>): U32
    requires |s| == 4
  {
    Powers(); LEInverse(s); FromLE(s)
  }

  function Num64(s: seq<Byte>): U64
    requires |s| == 8
  {
    Powers(); LEInverse(s); FromLE(s)
  }

  function Bit(b: bool): Byte {
    if b then 1 else 0
  }

  lemma Associates<T>(a: seq<T>, b: seq<T>, c: seq<T>)
    ensures (a + b) + c == a + (b + c)
  {
  }

  lemma {:induction false} SubsetCount<T>(a: set<T>, b: set<T>)
    requires a <= b
    ensures |a| <= |b|
  {
    if a != {} {
      var x :| x in a;
      SubsetCount(a - {x}, b - {x});
    }
  }
}
