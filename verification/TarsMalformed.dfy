/**
 Input that no writer has produced: other tags, other types, numbers too wide, sizes below zero, and
 values cut short. Readers refuse all of them.
 */
module TarsMalformed {
  import opened Base
  import opened TarsWire
  import opened TarsCodec

  // ------------------------------------------------------------ other tags and types

  lemma WrongTag(ty: Ty, tag: byte, v: Val, omit: Omit, path: seq<nat>, rest: bytes, asked: byte)
    requires HasType(ty, v) && asked != tag
    ensures ReadTagged(ty, asked, Write(ty, tag, v, omit, path) + rest) == Err(MissingField)
  {
    hide Write, Read, ReadHead;
    ReadHeadOfWrite(ty, tag, v, omit, path, rest);
  }

  /** Integers of all widths are of one kind; every other type is a kind of its own. */
  predicate SameKind(a: Ty, b: Ty) {
    match a
    case Text => b.Text?
    case Blob => b.Blob?
    case List(_) => b.List?
    case Struct(_) => b.Struct?
    case _ => b.I32? || b.I64? || b.U32?
  }

  /** The codes a value of a type can start with. */
  predicate StartsWith(ty: Ty, code: typecode) {
    match ty
    case Text => code in {STRING1, STRING4}
    case Blob => code == SIMPLE_LIST
    case List(_) => code == LIST
    case Struct(_) => code == STRUCT_BEGIN
    case _ => code in {ZERO, INT1, INT2, INT4, INT8}
  }

  lemma StartOfWrite(ty: Ty, tag: byte, v: Val, omit: Omit, path: seq<nat>, rest: bytes)
    requires HasType(ty, v)
    ensures ReadHead(Write(ty, tag, v, omit, path) + rest).Ok?
    ensures var h := ReadHead(Write(ty, tag, v, omit, path) + rest).value.0;
      h.tag == tag && StartsWith(ty, h.code)
  {
    hide ReadHead, WriteHead, WriteText, WriteBlob, WriteInt, WriteSize, WriteList, WriteFields, ReadText;
    match ty {
      case Text => ReadTextOfWriteText(v.b, tag, rest);
      case Blob =>
        var b := WriteHead(INT1, 0) + WriteSize(|v.b|) + v.b + rest;
        assert Write(ty, tag, v, omit, path) + rest == WriteHead(SIMPLE_LIST, tag) + b by { BlobHead(v.b, tag, rest); }
        ReadHeadOfWriteHead(SIMPLE_LIST, tag, b);
      case List(elem) =>
        var b := WriteSize(|v.vs|) + WriteList(elem, v.vs, 0, omit, path) + rest;
        assert Write(ty, tag, v, omit, path) + rest == WriteHead(LIST, tag) + b;
        ReadHeadOfWriteHead(LIST, tag, b);
      case Struct(fs) =>
        var b := WriteFields(fs, v.fs, 0, omit, path) + WriteHead(STRUCT_END, 0) + rest;
        assert Write(ty, tag, v, omit, path) + rest == WriteHead(STRUCT_BEGIN, tag) + b;
        ReadHeadOfWriteHead(STRUCT_BEGIN, tag, b);
      case _ => ReadHeadOfWriteInt(v.n, tag, rest);
    }
  }

  lemma WrongKind(ty: Ty, tag: byte, v: Val, omit: Omit, path: seq<nat>, rest: bytes, asked: Ty)
    requires HasType(ty, v) && !SameKind(ty, asked)
    ensures ReadTagged(asked, tag, Write(ty, tag, v, omit, path) + rest) == Err(WrongType)
  {
    hide ReadHead, Write, ReadFields, ReadList, ReadSize;
    StartOfWrite(ty, tag, v, omit, path, rest);
  }

  lemma BlobHead(s: bytes, tag: byte, rest: bytes)
    ensures WriteBlob(s, tag) + rest == WriteHead(SIMPLE_LIST, tag) + (WriteHead(INT1, 0) + WriteSize(|s|) + s + rest)
  {
    hide WriteHead, WriteSize;
  }

  /** A number that needs eight bytes is no 32-bit integer. */
  lemma TooWide(n: int64, tag: byte, rest: bytes)
    requires !(-0x8000_0000 <= n < 0x8000_0000)
    ensures ReadTagged(I32, tag, WriteInt(n, tag) + rest) == Err(WrongType)
  {
    hide ReadHead, IntPayload;
    ReadHeadOfWriteInt(n, tag, rest);
  }

  /** A size is a 32-bit integer that is not negative. */
  lemma SizeOfInteger(n: int64, rest: bytes)
    ensures ReadSize(WriteInt(n, 0) + rest) ==
      if !(-0x8000_0000 <= n < 0x8000_0000) then Err(WrongType) else if n < 0 then Err(BadSize) else Ok((n, rest))
  {
    hide ReadHead, IntPayload;
    ReadHeadOfWriteInt(n, 0, rest);
    if -0x8000_0000 <= n < 0x8000_0000 {
      ReadIntOfPayload(n, 4, rest);
    }
  }

  /** The elements of a byte vector must be one-byte integers, and the end of a structure is no value. */
  lemma WrongElements(code: typecode, tag: byte, ty: Ty, rest: bytes)
    ensures code != INT1 ==> ReadBlob(SIMPLE_LIST, WriteHead(code, tag) + rest) == Err(WrongType)
    ensures ReadTagged(ty, tag, WriteHead(STRUCT_END, tag) + rest) == Err(MissingField)
  {
    hide ReadHead, WriteHead, Read;
    ReadHeadOfWriteHead(code, tag, rest);
    ReadHeadOfWriteHead(STRUCT_END, tag, rest);
  }

  // ------------------------------------------------------------ values cut short

  /** What was read from p is read from p with more behind it, and the more is left over. */
  ghost predicate Extends<T>(r: Result<(T, bytes)>, longer: Result<(T, bytes)>, q: bytes) {
    r.Ok? ==> longer == Ok((r.value.0, r.value.1 + q))
  }

  ghost predicate SkipExtends(r: Result<bytes>, longer: Result<bytes>, q: bytes) {
    r.Ok? ==> longer == Ok(r.value + q)
  }

  lemma HeadExtends(p: bytes, q: bytes)
    ensures Extends(ReadHead(p), ReadHead(p + q), q)
  {
    if ReadHead(p).Ok? {
      assert p[1..] + q == (p + q)[1..];
      if |p| >= 2 {
        assert p[2..] + q == (p + q)[2..];
      }
    }
  }

  lemma CutExtends(p: bytes, q: bytes, n: nat)
    requires n <= |p|
    ensures (p + q)[..n] == p[..n] && (p + q)[n..] == p[n..] + q
  {
  }

  lemma IntExtends(code: typecode, max: nat, p: bytes, q: bytes)
    ensures Extends(ReadInt(code, max, p), ReadInt(code, max, p + q), q)
  {
    hide Signed;
    if ReadInt(code, max, p).Ok? {
      CutExtends(p, q, Width(code));
    }
  }

  lemma SizeExtends(p: bytes, q: bytes)
    ensures Extends(ReadSize(p), ReadSize(p + q), q)
  {
    hide ReadInt, ReadHead;
    HeadExtends(p, q);
    if ReadHead(p).Ok? {
      IntExtends(ReadHead(p).value.0.code, 4, ReadHead(p).value.1, q);
    }
  }

  lemma TextExtends(code: typecode, p: bytes, q: bytes)
    ensures Extends(ReadText(code, p), ReadText(code, p + q), q)
  {
    hide FromBigEndian;
    if ReadText(code, p).Ok? {
      if code == STRING1 {
        assert (p + q)[0] == p[0];
        assert p[1 + p[0]..] + q == (p + q)[1 + p[0]..];
        assert p[1..1 + p[0]] == (p + q)[1..1 + p[0]];
      } else {
        CutExtends(p, q, LENGTH_WIDTH);
        CutExtends(p[LENGTH_WIDTH..], q, FromBigEndian(p[..LENGTH_WIDTH]));
      }
    }
  }

  lemma BlobExtends(code: typecode, p: bytes, q: bytes)
    ensures Extends(ReadBlob(code, p), ReadBlob(code, p + q), q)
  {
    hide ReadHead, ReadSize;
    if ReadBlob(code, p).Ok? {
      HeadExtends(p, q);
      var p1 := ReadHead(p).value.1;
      SizeExtends(p1, q);
      var (n, p2) := ReadSize(p1).value;
      CutExtends(p2, q, n);
    }
  }

  lemma DropExtends(n: nat, p: bytes, q: bytes)
    ensures SkipExtends(Drop(n, p), Drop(n, p + q), q)
  {
    if n <= |p| {
      CutExtends(p, q, n);
    }
  }

  lemma {:induction false} SkipValueExtends(code: typecode, p: bytes, q: bytes)
    ensures SkipExtends(SkipValue(code, p), SkipValue(code, p + q), q)
    decreases |p|, 1
  {
    hide ReadHead, ReadSize, Drop, FromBigEndian, SkipMany, SkipToEnd;
    if SkipValue(code, p).Ok? {
      if code in {ZERO, INT1, INT2, INT4, INT8} {
        DropExtends(Width(code), p, q);
      } else if code == FLOAT || code == DOUBLE {
        DropExtends(if code == FLOAT then 4 else 8, p, q);
      } else if code == STRING1 {
        assert (p + q)[0] == p[0] && (p + q)[1..] == p[1..] + q;
        DropExtends(p[0], p[1..], q);
      } else if code == STRING4 {
        CutExtends(p, q, LENGTH_WIDTH);
        DropExtends(FromBigEndian(p[..LENGTH_WIDTH]), p[LENGTH_WIDTH..], q);
      } else if code == MAP || code == LIST {
        SizeExtends(p, q);
        var (n, p1) := ReadSize(p).value;
        SkipManyExtends(if code == MAP then 2 * n else n, p1, q);
      } else if code == SIMPLE_LIST {
        HeadExtends(p, q);
        SizeExtends(ReadHead(p).value.1, q);
        var (n, p2) := ReadSize(ReadHead(p).value.1).value;
        DropExtends(n, p2, q);
      } else if code == STRUCT_BEGIN {
        SkipToEndExtends(p, q);
      }
    }
  }

  lemma {:induction false} SkipManyExtends(n: nat, p: bytes, q: bytes)
    ensures SkipExtends(SkipMany(n, p), SkipMany(n, p + q), q)
    decreases |p|, 0
  {
    hide ReadHead, SkipValue;
    if n > 0 && SkipMany(n, p).Ok? {
      HeadExtends(p, q);
      var (h, p1) := ReadHead(p).value;
      SkipValueExtends(h.code, p1, q);
      SkipManyExtends(n - 1, SkipValue(h.code, p1).value, q);
    }
  }

  lemma {:induction false} SkipToEndExtends(p: bytes, q: bytes)
    ensures SkipExtends(SkipToEnd(p), SkipToEnd(p + q), q)
    decreases |p|, 0
  {
    hide ReadHead, SkipValue;
    if SkipToEnd(p).Ok? {
      HeadExtends(p, q);
      var (h, p1) := ReadHead(p).value;
      SkipValueExtends(h.code, p1, q);
      if h.code != STRUCT_END {
        SkipToEndExtends(SkipValue(h.code, p1).value, q);
      }
    }
  }

  /** Unless the search has run into the end of the input. */
  lemma {:induction false} SeekExtends(tag: byte, p: bytes, q: bytes)
    ensures Seek(tag, p).Ok? && (Seek(tag, p).value.0.Some? || Seek(tag, p).value.1 != []) ==>
      Extends(Seek(tag, p), Seek(tag, p + q), q)
    decreases |p|
  {
    hide ReadHead, SkipValue;
    if p != [] && Seek(tag, p).Ok? {
      HeadExtends(p, q);
      var (h, p1) := ReadHead(p).value;
      if h.code != STRUCT_END && h.tag < tag {
        SkipValueExtends(h.code, p1, q);
        SeekExtends(tag, SkipValue(h.code, p1).value, q);
      }
    }
  }

  lemma {:induction false} ReadExtends(ty: Ty, code: typecode, p: bytes, q: bytes)
    ensures Extends(Read(ty, code, p), Read(ty, code, p + q), q)
    decreases ty, 1, 0
  {
    hide ReadInt, ReadText, ReadBlob, ReadSize, ReadList, ReadFields, SkipToEnd;
    match ty {
      case I32 => IntExtends(code, 4, p, q);
      case U32 => IntExtends(code, 8, p, q);
      case I64 => IntExtends(code, 8, p, q);
      case Text => TextExtends(code, p, q);
      case Blob => BlobExtends(code, p, q);
      case List(elem) =>
        SizeExtends(p, q);
        if Read(ty, code, p).Ok? {
          var (n, p1) := ReadSize(p).value;
          ReadListExtends(elem, n, p1, q);
        }
      case Struct(fs) =>
        if Read(ty, code, p).Ok? {
          var (vs, p1) := ReadFields(fs, 0, p).value;
          assert p1 != [] by { EndNeeded(p1); }
          ReadFieldsExtend(fs, 0, p, q);
          SkipToEndExtends(p1, q);
        }
    }
  }

  lemma EndNeeded(p: bytes)
    ensures SkipToEnd(p).Ok? ==> p != []
  {
  }

  lemma {:induction false} ReadTaggedExtends(ty: Ty, tag: byte, p: bytes, q: bytes)
    ensures Extends(ReadTagged(ty, tag, p), ReadTagged(ty, tag, p + q), q)
    decreases ty, 2, 0
  {
    hide ReadHead, Read;
    HeadExtends(p, q);
    if ReadHead(p).Ok? {
      ReadExtends(ty, ReadHead(p).value.0.code, ReadHead(p).value.1, q);
    }
  }

  lemma {:induction false} ReadListExtends(elem: Ty, n: nat, p: bytes, q: bytes)
    ensures Extends(ReadList(elem, n, p), ReadList(elem, n, p + q), q)
    decreases elem, 3, n
  {
    hide ReadTagged;
    if n > 0 && ReadList(elem, n, p).Ok? {
      ReadTaggedExtends(elem, 0, p, q);
      ReadListExtends(elem, n - 1, ReadTagged(elem, 0, p).value.1, q);
    }
  }

  lemma {:induction false} NothingStaysNothing(fs: seq<Field>, i: nat)
    requires i <= |fs|
    ensures ReadFields(fs, i, []).Ok? ==> ReadFields(fs, i, []).value.1 == []
    decreases |fs| - i
  {
    if i < |fs| {
      NothingStaysNothing(fs, i + 1);
    }
  }

  lemma {:induction false} ReadFieldsExtend(fs: seq<Field>, i: nat, p: bytes, q: bytes)
    requires i <= |fs|
    ensures ReadFields(fs, i, p).Ok? && ReadFields(fs, i, p).value.1 != [] ==>
      Extends(ReadFields(fs, i, p), ReadFields(fs, i, p + q), q)
    decreases Struct(fs), 0, |fs| - i
  {
    hide Seek, Read;
    if i < |fs| && ReadFields(fs, i, p).Ok? && ReadFields(fs, i, p).value.1 != [] {
      var f := fs[i];
      var (v, p1) := ReadField(f, p).value;
      SeekExtends(f.tag, p, q);
      var (found, at) := Seek(f.tag, p).value;
      if found.Some? {
        ReadExtends(f.ty, found.value, at, q);
      } else if p1 == [] {
        NothingStaysNothing(fs, i + 1);
      }
      ReadFieldsExtend(fs, i + 1, p1, q);
    }
  }

  /** No value can be read from a proper beginning of what was written. */
  lemma CutShort(ty: Ty, tag: byte, v: Val, omit: Omit, path: seq<nat>, p: bytes)
    requires WellFormed(ty) && HasType(ty, v) && Fits(ty, v)
    requires p < Write(ty, tag, v, omit, path)
    ensures ReadTagged(ty, tag, p).Err?
  {
    hide Write, ReadTagged;
    var w := Write(ty, tag, v, omit, path);
    var q := w[|p|..];
    assert p + q == w && w + [] == w;
    ReadTaggedExtends(ty, tag, p, q);
    ReadTaggedOfWrite(ty, tag, v, omit, path, []);
  }
}
