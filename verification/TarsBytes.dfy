/**
 The bytes themselves, as the data encoding chapter of the Tars protocol document gives them: type
 codes as numbers, heads, integers in two's complement, lengths. Nothing here is said in terms of the
 writer's own constants and functions.
 */
module TarsBytes {
  import opened Base
  import opened TarsWire
  import opened TarsCodec

  /** A head: code and tag share a byte for tags below 15; otherwise the tag has a byte of its own. */
  function Lead(code: nat, tag: byte): (r: bytes)
    requires code < 16
    ensures |r| == if tag < 15 then 1 else 2
  {
    if tag < 15 then [tag * 16 + code] else [240 + code, tag]
  }

  // ------------------------------------------------------------ integers

  lemma BigEndianStep(u: nat, k: nat)
    requires k > 0 && u < Pow256(k)
    ensures BigEndian(u, k) == BigEndian(u / 0x100, k - 1) + [u % 0x100]
  {
  }

  lemma TwoBytes(u: nat)
    requires u < 0x1_0000
    ensures u < Pow256(2) && BigEndian(u, 2) == [u / 0x100 % 0x100, u % 0x100]
  {
    Powers();
    BigEndianStep(u, 2);
    BigEndianStep(u / 0x100, 1);
  }

  lemma FourBytes(u: nat)
    requires u < 0x1_0000_0000
    ensures u < Pow256(4)
    ensures BigEndian(u, 4) == [u / 0x100_0000 % 0x100, u / 0x1_0000 % 0x100, u / 0x100 % 0x100, u % 0x100]
  {
    Powers();
    BigEndianStep(u, 4);
    assert Pow256(3) == 0x100_0000;
    BigEndianStep(u / 0x100, 3);
    TwoBytes(u / 0x1_0000);
    assert u / 0x100 / 0x100 == u / 0x1_0000;
    hide BigEndian, Pow256;
    assert u / 0x1_0000 / 0x100 == u / 0x100_0000;
  }

  lemma EightBytes(u: nat)
    requires u < 0x1_0000_0000_0000_0000
    ensures u < Pow256(8)
    ensures BigEndian(u, 8) == [
      u / 0x100_0000_0000_0000 % 0x100, u / 0x1_0000_0000_0000 % 0x100, u / 0x100_0000_0000 % 0x100,
      u / 0x1_0000_0000 % 0x100, u / 0x100_0000 % 0x100, u / 0x1_0000 % 0x100, u / 0x100 % 0x100, u % 0x100]
  {
    Powers();
    assert Pow256(7) == 0x100_0000_0000_0000 && Pow256(6) == 0x1_0000_0000_0000 && Pow256(5) == 0x100_0000_0000 by {
      assert Pow256(5) == 0x100 * Pow256(4);
      assert Pow256(6) == 0x100 * Pow256(5);
      assert Pow256(7) == 0x100 * Pow256(6);
    }
    hide BigEndian, Pow256;
    var u1, u2, u3, u4 := u / 0x100, u / 0x1_0000, u / 0x100_0000, u / 0x1_0000_0000;
    BigEndianStep(u, 8);
    BigEndianStep(u1, 7);
    assert u1 / 0x100 == u2;
    BigEndianStep(u2, 6);
    assert u2 / 0x100 == u3;
    BigEndianStep(u3, 5);
    assert u3 / 0x100 == u4;
    FourBytes(u4);
    assert u4 / 0x100 == u / 0x100_0000_0000;
    assert u4 / 0x1_0000 == u / 0x1_0000_0000_0000;
    assert u4 / 0x100_0000 == u / 0x100_0000_0000_0000;
  }

  lemma Distribute(c: int, x: int, y: int)
    ensures c * (x + y) == c * x + c * y && c * (x - y) == c * x - c * y
  {
  }

  lemma Multiple(c: int, d: int)
    requires c > 0
    ensures d > 0 ==> c * d >= c
    ensures d < 0 ==> c * d <= -c
  {
  }

  lemma Quotient(x: int, c: nat, q: int, r: nat)
    requires c > 0 && x == c * q + r && r < c
    ensures x / c == q
  {
    var e := x / c;
    assert c * e + x % c == x;
    Distribute(c, e, q);
    Multiple(c, e - q);
  }

  lemma AddMultiple(n: int, c: nat, k: int)
    requires c > 0
    ensures (n + c * k) / c == n / c + k
  {
    var q, r := n / c, n % c;
    assert n == c * q + r;
    Distribute(c, q, k);
    Quotient(n + c * k, c, q + k, r);
  }

  lemma SameRemainder(q: int, m: int)
    ensures (q + 0x100 * m) % 0x100 == q % 0x100
  {
  }

  /** Adding a multiple of 256 units of c does not change the byte worth c. */
  lemma SameByte(n: int, c: nat, m: nat)
    requires c > 0
    ensures (n + c * (0x100 * m)) / c % 0x100 == n / c % 0x100
  {
    AddMultiple(n, c, 0x100 * m);
    SameRemainder(n / c, m);
  }

  /** Two's complement in eight bytes. */
  lemma EightSigned(n: int64)
    ensures var u := if n < 0 then n + 0x1_0000_0000_0000_0000 else n;
      u < Pow256(8) && BigEndian(u, 8) == [
        n / 0x100_0000_0000_0000 % 0x100, n / 0x1_0000_0000_0000 % 0x100, n / 0x100_0000_0000 % 0x100,
        n / 0x1_0000_0000 % 0x100, n / 0x100_0000 % 0x100, n / 0x1_0000 % 0x100, n / 0x100 % 0x100, n % 0x100]
  {
    hide BigEndian, Pow256;
    EightBytes(if n < 0 then n + 0x1_0000_0000_0000_0000 else n);
    SameByte(n, 0x100_0000_0000_0000, 1);
    SameByte(n, 0x1_0000_0000_0000, 0x100);
    SameByte(n, 0x100_0000_0000, 0x1_0000);
    SameByte(n, 0x1_0000_0000, 0x100_0000);
    SameByte(n, 0x100_0000, 0x1_0000_0000);
    SameByte(n, 0x1_0000, 0x100_0000_0000);
    SameByte(n, 0x100, 0x1_0000_0000_0000);
    SameByte(n, 1, 0x100_0000_0000_0000);
  }

  lemma FourSigned(n: int32)
    ensures var u := if n < 0 then n + 0x1_0000_0000 else n;
      u < Pow256(4)
      && BigEndian(u, 4) == [n / 0x100_0000 % 0x100, n / 0x1_0000 % 0x100, n / 0x100 % 0x100, n % 0x100]
  {
    hide BigEndian, Pow256;
    FourBytes(if n < 0 then n + 0x1_0000_0000 else n);
    SameByte(n, 0x100_0000, 1);
    SameByte(n, 0x1_0000, 0x100);
    SameByte(n, 0x100, 0x1_0000);
    SameByte(n, 1, 0x100_0000);
  }

  lemma OneAndTwoSigned(n: int)
    ensures -0x80 <= n < 0x80 ==>
      var u := if n < 0 then n + 0x100 else n;
      u < Pow256(1) && BigEndian(u, 1) == [n % 0x100]
    ensures -0x8000 <= n < 0x8000 ==>
      var u := if n < 0 then n + 0x1_0000 else n;
      u < Pow256(2) && BigEndian(u, 2) == [n / 0x100 % 0x100, n % 0x100]
  {
    Powers();
    if -0x80 <= n < 0x80 {
      BigEndianStep(if n < 0 then n + 0x100 else n, 1);
    }
    hide BigEndian, Pow256;
    if -0x8000 <= n < 0x8000 {
      TwoBytes(if n < 0 then n + 0x1_0000 else n);
    }
  }

  /** The bytes of an integer: code 12 alone for zero, else code 0, 1, 2 or 3 and the one, two, four or
      eight bytes of its two's complement, most significant first; always the narrowest that holds it. */
  lemma IntegerBytes(n: int64, tag: byte)
    ensures n == 0 ==> WriteInt(n, tag) == Lead(12, tag)
    ensures n != 0 && -0x80 <= n < 0x80 ==> WriteInt(n, tag) == Lead(0, tag) + [n % 0x100]
    ensures !(-0x80 <= n < 0x80) && -0x8000 <= n < 0x8000 ==>
      WriteInt(n, tag) == Lead(1, tag) + [n / 0x100 % 0x100, n % 0x100]
    ensures !(-0x8000 <= n < 0x8000) && -0x8000_0000 <= n < 0x8000_0000 ==>
      WriteInt(n, tag) ==
        Lead(2, tag) + [n / 0x100_0000 % 0x100, n / 0x1_0000 % 0x100, n / 0x100 % 0x100, n % 0x100]
    ensures !(-0x8000_0000 <= n < 0x8000_0000) ==>
      WriteInt(n, tag) == Lead(3, tag) + [
        n / 0x100_0000_0000_0000 % 0x100, n / 0x1_0000_0000_0000 % 0x100, n / 0x100_0000_0000 % 0x100,
        n / 0x1_0000_0000 % 0x100, n / 0x100_0000 % 0x100, n / 0x1_0000 % 0x100, n / 0x100 % 0x100, n % 0x100]
  {
    Powers();
    hide BigEndian, Pow256;
    if n == 0 {
      assert IntPayload(n) == [];
    } else if -0x8000 <= n < 0x8000 {
      OneAndTwoSigned(n);
    } else if -0x8000_0000 <= n < 0x8000_0000 {
      FourSigned(n);
    } else {
      EightSigned(n);
    }
  }

  /** Two's complement in `width` bytes holds n; in none, only zero. */
  predicate Holds(width: nat, n: int) {
    match width
    case 0 => n == 0
    case 1 => -0x80 <= n < 0x80
    case 2 => -0x8000 <= n < 0x8000
    case 4 => -0x8000_0000 <= n < 0x8000_0000
    case 8 => -0x8000_0000_0000_0000 <= n < 0x8000_0000_0000_0000
    case _ => false
  }

  /** No integer form that holds n is shorter than the one written. */
  lemma NarrowestForm(n: int64, tag: byte, width: nat)
    requires Holds(width, n)
    ensures |WriteInt(n, tag)| <= (if tag < 15 then 1 else 2) + width
    ensures |WriteInt(n, tag)| == (if tag < 15 then 1 else 2)
      + if n == 0 then 0 else if Holds(1, n) then 1 else if Holds(2, n) then 2 else if Holds(4, n) then 4 else 8
  {
    hide WriteInt;
    IntegerBytes(n, tag);
  }

  // ------------------------------------------------------------ lengths, texts, byte vectors

  /** A size is an integer with tag 0; one beyond 31 bits is cut to 32 bits first. */
  lemma SizeBytes(n: nat)
    ensures n == 0 ==> WriteSize(n) == [12]
    ensures 0 < n < 0x80 ==> WriteSize(n) == [0, n]
    ensures 0x80 <= n < 0x8000 ==> WriteSize(n) == [1, n / 0x100, n % 0x100]
    ensures 0x8000 <= n < 0x8000_0000 ==>
      WriteSize(n) == [2, n / 0x100_0000, n / 0x1_0000 % 0x100, n / 0x100 % 0x100, n % 0x100]
    ensures WriteSize(n) == WriteInt(WrapInt32(n), 0)
  {
    hide WriteInt;
    if n < 0x8000_0000 {
      assert WrapInt32(n) == n;
      hide WrapInt32;
      IntegerBytes(n, 0);
    }
  }

  /** Text of up to 255 bytes: code 6 and a length byte; longer text: code 7 and four length bytes. */
  lemma TextBytes(b: bytes, tag: byte)
    ensures |b| <= 255 ==> WriteText(b, tag) == Lead(6, tag) + [|b|] + b
    ensures 255 < |b| < 0x1_0000_0000 ==>
      WriteText(b, tag) == Lead(7, tag)
        + [|b| / 0x100_0000, |b| / 0x1_0000 % 0x100, |b| / 0x100 % 0x100, |b| % 0x100] + b
  {
    hide BigEndian;
    if 255 < |b| < 0x1_0000_0000 {
      FourBytes(|b|);
    }
  }

  /** A byte vector: code 13, the head of its elements (code 0, tag 0), its size and its bytes. */
  lemma BlobBytes(b: bytes, tag: byte)
    ensures WriteBlob(b, tag) == Lead(13, tag) + [0] + WriteSize(|b|) + b
  {
  }

  /** A list: code 9, its size and its elements; a structure: between codes 10 and 11. */
  lemma NestedBytes(ty: Ty, tag: byte, v: Val, omit: Omit, path: seq<nat>)
    requires HasType(ty, v)
    ensures ty.List? ==>
      Write(ty, tag, v, omit, path) == Lead(9, tag) + WriteSize(|v.vs|) + WriteList(ty.elem, v.vs, 0, omit, path)
    ensures ty.Struct? ==>
      Write(ty, tag, v, omit, path) == Lead(10, tag) + WriteFields(ty.fields, v.fs, 0, omit, path) + [11]
  {
    hide WriteSize, WriteList, WriteFields;
  }

  /** For instance. */
  lemma IntegerExamples()
    ensures WriteInt(0, 1) == [0x1C]
    ensures WriteInt(1, 1) == [0x10, 1]
    ensures WriteInt(-2, 1) == [0x10, 0xFE]
    ensures WriteInt(300, 2) == [0x21, 1, 44]
    ensures WriteInt(70000, 15) == [0xF2, 15, 0, 1, 0x11, 0x70]
    ensures WriteInt(0x1_0000_0000, 3) == [0x33, 0, 0, 0, 1, 0, 0, 0, 0]
  {
    hide WriteInt;
    IntegerBytes(0, 1);
    IntegerBytes(1, 1);
    IntegerBytes(-2, 1);
    IntegerBytes(300, 2);
    IntegerBytes(70000, 15);
    IntegerBytes(0x1_0000_0000, 3);
  }
}
