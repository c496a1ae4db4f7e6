/** Tars data encoding, lowest layer: heads and integers. */
module TarsWire {
  import opened Base

  const INT1: typecode := 0
  const INT2: typecode := 1
  const INT4: typecode := 2
  const INT8: typecode := 3
  const FLOAT: typecode := 4
  const DOUBLE: typecode := 5
  const STRING1: typecode := 6
  const STRING4: typecode := 7
  const MAP: typecode := 8
  const LIST: typecode := 9
  const STRUCT_BEGIN: typecode := 10
  const STRUCT_END: typecode := 11
  const ZERO: typecode := 12
  const SIMPLE_LIST: typecode := 13

  type typecode = x: nat | x < 16

  /** Every field starts with a head: its type code and its tag. */
  datatype Head = Head(code: typecode, tag: byte)

  // The tag shares the first byte with the code unless it needs the whole second byte.
  function WriteHead(code: typecode, tag: byte): (r: bytes)
    ensures 1 <= |r| <= 2
  {
    if tag < 15 then [tag * 16 + code] else [0xF0 + code, tag]
  }

  function ReadHead(b: bytes): (r: Result<(Head, bytes)>)
    ensures r.Ok? ==> |r.value.1| < |b|
  {
    if b == [] then Err(Truncated)
    else if b[0] / 16 < 15 then Ok((Head(b[0] % 16, b[0] / 16), b[1..]))
    else if |b| < 2 then Err(Truncated)
    else Ok((Head(b[0] % 16, b[1]), b[2..]))
  }

  lemma ReadHeadOfWriteHead(code: typecode, tag: byte, rest: bytes)
    ensures ReadHead(WriteHead(code, tag) + rest) == Ok((Head(code, tag), rest))
  {
    var b := WriteHead(code, tag) + rest;
    if tag < 15 {
      assert b[1..] == rest;
    } else {
      assert b[2..] == rest;
    }
  }

  // ------------------------------------------------------------ fixed-width integers

  function Pow256(k: nat): nat {
    if k == 0 then 1 else 0x100 * Pow256(k - 1)
  }

  function BigEndian(u: nat, k: nat): (r: bytes)
    requires u < Pow256(k)
    ensures |r| == k
  {
    if k == 0 then [] else BigEndian(u / 0x100, k - 1) + [u % 0x100]
  }

  function FromBigEndian(b: bytes): (u: nat)
    ensures u < Pow256(|b|)
  {
    if b == [] then 0 else FromBigEndian(b[..|b| - 1]) * 0x100 + b[|b| - 1]
  }

  lemma {:induction false} BigEndianRoundTrip(u: nat, k: nat)
    requires u < Pow256(k)
    ensures FromBigEndian(BigEndian(u, k)) == u
  {
    if k > 0 {
      BigEndianRoundTrip(u / 0x100, k - 1);
      assert BigEndian(u, k)[..k - 1] == BigEndian(u / 0x100, k - 1);
    }
  }

  /** The bytes of a string4 length. */
  const LENGTH_WIDTH: nat := 4

  function WriteLength(n: nat): (r: bytes)
    ensures |r| == LENGTH_WIDTH
  {
    Powers();
    BigEndian(n % 0x1_0000_0000, LENGTH_WIDTH)
  }

  lemma LengthRoundTrip(n: nat)
    ensures FromBigEndian(WriteLength(n)) == n % 0x1_0000_0000
  {
    Powers();
    BigEndianRoundTrip(n % 0x1_0000_0000, LENGTH_WIDTH);
  }

  /** Number of payload bytes of an integer type code. */
  function Width(code: typecode): nat
    requires code in {ZERO, INT1, INT2, INT4, INT8}
  {
    if code == ZERO then 0
    else if code == INT1 then 1
    else if code == INT2 then 2
    else if code == INT4 then 4
    else 8
  }

  lemma Powers()
    ensures Pow256(0) == 1 && Pow256(1) == 0x100 && Pow256(2) == 0x1_0000
    ensures Pow256(4) == 0x1_0000_0000 && Pow256(8) == 0x1_0000_0000_0000_0000
  {
    assert Pow256(3) == 0x100_0000;
    assert Pow256(6) == 0x1_0000_0000_0000;
  }

  /** The narrowest integer code that holds n. */
  function IntCode(n: int64): (c: typecode)
    ensures c in {ZERO, INT1, INT2, INT4, INT8}
    ensures -0x8000_0000 <= n < 0x8000_0000 ==> Width(c) <= 4
  {
    if n == 0 then ZERO
    else if -0x80 <= n < 0x80 then INT1
    else if -0x8000 <= n < 0x8000 then INT2
    else if -0x8000_0000 <= n < 0x8000_0000 then INT4
    else INT8
  }

  /** Two's complement bytes of n in the width of its code. */
  function IntPayload(n: int64): (r: bytes)
    ensures |r| == Width(IntCode(n))
  {
    Powers();
    var k := Width(IntCode(n));
    BigEndian(if n < 0 then n + Pow256(k) else n, k)
  }

  function WriteInt(n: int64, tag: byte): (r: bytes)
    ensures |r| > 0
  {
    WriteHead(IntCode(n), tag) + IntPayload(n)
  }

  function Signed(b: bytes): (n: int64)
    requires |b| in {0, 1, 2, 4, 8}
    ensures |b| <= 4 ==> -0x8000_0000 <= n < 0x8000_0000
  {
    Powers();
    var u := FromBigEndian(b);
    if 2 * u < Pow256(|b|) || |b| == 0 then u else u - Pow256(|b|)
  }

  /** Reads the payload of an integer of at most `max` bytes; wider codes are a type mismatch. */
  function ReadInt(code: typecode, max: nat, b: bytes): (r: Result<(int64, bytes)>)
    ensures r.Ok? ==> |r.value.1| <= |b|
    ensures r.Ok? && max <= 4 ==> -0x8000_0000 <= r.value.0 < 0x8000_0000
  {
    if code !in {ZERO, INT1, INT2, INT4, INT8} || Width(code) > max then Err(WrongType)
    else if |b| < Width(code) then Err(Truncated)
    else Ok((Signed(b[..Width(code)]), b[Width(code)..]))
  }

  lemma SignedOfPayload(n: int64)
    ensures |IntPayload(n)| in {0, 1, 2, 4, 8} && Signed(IntPayload(n)) == n
  {
    Powers();
    var k := Width(IntCode(n));
    BigEndianRoundTrip(if n < 0 then n + Pow256(k) else n, k);
  }

  /** An integer is read back from its narrowest form, by any reader wide enough for it. */
  lemma ReadIntOfPayload(n: int64, max: nat, rest: bytes)
    requires Width(IntCode(n)) <= max
    ensures ReadInt(IntCode(n), max, IntPayload(n) + rest) == Ok((n, rest))
  {
    SignedOfPayload(n);
    var b := IntPayload(n) + rest;
    assert b[..|IntPayload(n)|] == IntPayload(n);
    assert b[|IntPayload(n)|..] == rest;
  }

  /** A size as the stream writes it: a tag-0 integer after conversion to 32 bits. */
  function WriteSize(n: nat): bytes {
    WriteInt(WrapInt32(n), 0)
  }

  function ReadSize(b: bytes): (r: Result<(nat, bytes)>)
    ensures r.Ok? ==> r.value.0 < 0x8000_0000
    ensures r.Ok? ==> |r.value.1| < |b|
  {
    var (h, b1) :- ReadHead(b);
    if h.tag != 0 then Err(MissingField) else
    var (n, b2) :- ReadInt(h.code, 4, b1);
    if n < 0 then Err(BadSize) else Ok((n, b2))
  }

  /** A size comes back if it is below 2^31; otherwise the reader fails or sees another size. */
  lemma ReadSizeOfWriteSize(n: nat, rest: bytes)
    ensures n < 0x8000_0000 ==> ReadSize(WriteSize(n) + rest) == Ok((n, rest))
    ensures n >= 0x8000_0000 ==> ReadSize(WriteSize(n) + rest).Err? || ReadSize(WriteSize(n) + rest).value.0 != n
  {
    var w := WrapInt32(n);
    ReadHeadOfWriteHead(IntCode(w), 0, IntPayload(w) + rest);
    assert WriteSize(n) + rest == WriteHead(IntCode(w), 0) + (IntPayload(w) + rest);
    ReadIntOfPayload(w, 4, rest);
  }
}
