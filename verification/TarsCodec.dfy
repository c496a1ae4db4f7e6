/**
 Tars data encoding, driven by a schema: what the generated writeTo and readFrom of a .tars
 structure do with the runtime's output and input streams.
 */
module TarsCodec {
  import opened Base
  import opened TarsWire

  // Text is a C++ string, Blob a vector<byte>; both hold raw bytes.
  datatype Ty = I32 | I64 | U32 | Text | Blob | List(elem: Ty) | Struct(fields: seq<Field>)
  datatype Field = Field(tag: byte, required: bool, ty: Ty)
  datatype Val = VInt(n: int64) | VBytes(b: bytes) | VList(vs: seq<Val>) | VStruct(fs: seq<Val>)

  /** A writer may leave out an optional field that holds its default. Which of them it leaves
      out is given by a predicate on the path (tags and list indices) to the field. */
  type Omit = seq<nat> -> bool

  // ------------------------------------------------------------ schemas and values

  ghost predicate WellFormed(ty: Ty) {
    match ty
    case List(elem) => WellFormed(elem)
    case Struct(fs) =>
      && (forall i, j | 0 <= i < j < |fs| :: fs[i].tag < fs[j].tag)
      && (forall i | 0 <= i < |fs| :: WellFormed(fs[i].ty))
    case _ => true
  }

  ghost predicate HasType(ty: Ty, v: Val) {
    match ty
    case I32 => v.VInt? && -0x8000_0000 <= v.n < 0x8000_0000
    case U32 => v.VInt? && 0 <= v.n < 0x1_0000_0000
    case I64 => v.VInt?
    case Text => v.VBytes?
    case Blob => v.VBytes?
    case List(elem) => v.VList? && forall i | 0 <= i < |v.vs| :: HasType(elem, v.vs[i])
    case Struct(fs) => v.VStruct? && |v.fs| == |fs| && forall i | 0 <= i < |fs| :: HasType(fs[i].ty, v.fs[i])
  }

  /** Every length fits the field that carries it: sizes of lists and byte vectors are signed
      32-bit integers, lengths of strings are unsigned ones. */
  ghost predicate Fits(ty: Ty, v: Val)
    requires HasType(ty, v)
  {
    match ty
    case Text => |v.b| < 0x1_0000_0000
    case Blob => |v.b| < 0x8000_0000
    case List(elem) => |v.vs| < 0x8000_0000 && forall i | 0 <= i < |v.vs| :: Fits(elem, v.vs[i])
    case Struct(fs) => forall i | 0 <= i < |fs| :: Fits(fs[i].ty, v.fs[i])
    case _ => true
  }

  /** The value of a field after resetDefautlt. */
  function Default(ty: Ty): (v: Val)
    ensures HasType(ty, v) && Fits(ty, v)
  {
    match ty
    case I32 => VInt(0)
    case U32 => VInt(0)
    case I64 => VInt(0)
    case Text => VBytes([])
    case Blob => VBytes([])
    case List(_) => VList([])
    case Struct(fs) => VStruct(seq(|fs|, i requires 0 <= i < |fs| => Default(fs[i].ty)))
  }

  // ------------------------------------------------------------ writing

  function TextCode(b: bytes): typecode {
    if |b| > 255 then STRING4 else STRING1
  }

  function TextPayload(b: bytes): bytes {
    (if |b| > 255 then WriteLength(|b|) else [|b|]) + b
  }

  function WriteText(b: bytes, tag: byte): (r: bytes)
    ensures |r| > 0
  {
    WriteHead(TextCode(b), tag) + TextPayload(b)
  }

  function WriteBlob(b: bytes, tag: byte): (r: bytes)
    ensures |r| > 0
  {
    WriteHead(SIMPLE_LIST, tag) + WriteHead(INT1, 0) + WriteSize(|b|) + b
  }

  function Write(ty: Ty, tag: byte, v: Val, omit: Omit, path: seq<nat>): (r: bytes)
    requires HasType(ty, v)
    ensures |r| > 0
    decreases ty, 1, 0
  {
    match ty
    case I32 => WriteInt(v.n, tag)
    case U32 => WriteInt(v.n, tag)
    case I64 => WriteInt(v.n, tag)
    case Text => WriteText(v.b, tag)
    case Blob => WriteBlob(v.b, tag)
    case List(elem) => WriteHead(LIST, tag) + WriteSize(|v.vs|) + WriteList(elem, v.vs, 0, omit, path)
    case Struct(fs) =>
      WriteHead(STRUCT_BEGIN, tag) + WriteFields(fs, v.fs, 0, omit, path) + WriteHead(STRUCT_END, 0)
  }

  /** Elements i, i+1, ... of a list, each with tag 0. */
  function WriteList(elem: Ty, vs: seq<Val>, i: nat, omit: Omit, path: seq<nat>): bytes
    requires i <= |vs| && forall k | 0 <= k < |vs| :: HasType(elem, vs[k])
    decreases elem, 2, |vs| - i
  {
    if i == |vs| then []
    else Write(elem, 0, vs[i], omit, path + [i]) + WriteList(elem, vs, i + 1, omit, path)
  }

  predicate Omitted(f: Field, v: Val, omit: Omit, path: seq<nat>) {
    !f.required && v == Default(f.ty) && omit(path + [f.tag])
  }

  function WriteField(f: Field, v: Val, omit: Omit, path: seq<nat>): bytes
    requires HasType(f.ty, v)
    decreases f, 0, 0
  {
    if Omitted(f, v, omit, path) then [] else Write(f.ty, f.tag, v, omit, path + [f.tag])
  }

  /** Fields i, i+1, ... of a structure, in ascending tag order. */
  function WriteFields(fs: seq<Field>, vs: seq<Val>, i: nat, omit: Omit, path: seq<nat>): bytes
    requires i <= |fs| == |vs| && forall k | 0 <= k < |fs| :: HasType(fs[k].ty, vs[k])
    decreases Struct(fs), 0, |fs| - i
  {
    if i == |fs| then []
    else WriteField(fs[i], vs[i], omit, path) + WriteFields(fs, vs, i + 1, omit, path)
  }

  // ------------------------------------------------------------ skipping unknown fields

  function Drop(n: nat, b: bytes): (r: Result<bytes>)
    ensures r.Ok? ==> |r.value| <= |b|
  {
    if |b| < n then Err(Truncated) else Ok(b[n..])
  }

  function SkipValue(code: typecode, b: bytes): (r: Result<bytes>)
    ensures r.Ok? ==> |r.value| <= |b|
    decreases |b|, 1
  {
    if code in {ZERO, INT1, INT2, INT4, INT8} then Drop(Width(code), b)
    else if code == FLOAT then Drop(4, b)
    else if code == DOUBLE then Drop(8, b)
    else if code == STRING1 then
      if b == [] then Err(Truncated) else Drop(b[0], b[1..])
    else if code == STRING4 then
      if |b| < LENGTH_WIDTH then Err(Truncated) else Drop(FromBigEndian(b[..LENGTH_WIDTH]), b[LENGTH_WIDTH..])
    else if code == MAP then
      var (n, b1) :- ReadSize(b);
      SkipMany(2 * n, b1)
    else if code == LIST then
      var (n, b1) :- ReadSize(b);
      SkipMany(n, b1)
    else if code == SIMPLE_LIST then
      var (h, b1) :- ReadHead(b);
      if h.code != INT1 then Err(WrongType) else
      var (n, b2) :- ReadSize(b1);
      Drop(n, b2)
    else if code == STRUCT_BEGIN then SkipToEnd(b)
    else if code == STRUCT_END then Ok(b)
    else Err(WrongType)
  }

  function SkipMany(n: nat, b: bytes): (r: Result<bytes>)
    ensures r.Ok? ==> |r.value| <= |b|
    decreases |b|, 0
  {
    if n == 0 then Ok(b) else
    var (h, b1) :- ReadHead(b);
    var b2 :- SkipValue(h.code, b1);
    SkipMany(n - 1, b2)
  }

  /** Skips to just after the end marker of the enclosing structure. */
  function SkipToEnd(b: bytes): (r: Result<bytes>)
    ensures r.Ok? ==> |r.value| <= |b|
    decreases |b|, 0
  {
    var (h, b1) :- ReadHead(b);
    var b2 :- SkipValue(h.code, b1);
    if h.code == STRUCT_END then Ok(b2) else SkipToEnd(b2)
  }

  /** Looks for a tag among fields in ascending order, skipping smaller tags. */
  function Seek(tag: byte, b: bytes): (r: Result<(Option<typecode>, bytes)>)
    ensures r.Ok? ==> |r.value.1| <= |b|
    decreases |b|
  {
    if b == [] then Ok((None, b)) else
    var (h, b1) :- ReadHead(b);
    if h.code == STRUCT_END || tag < h.tag then Ok((None, b))
    else if tag == h.tag then Ok((Some(h.code), b1))
    else
      var b2 :- SkipValue(h.code, b1);
      Seek(tag, b2)
  }

  // ------------------------------------------------------------ reading

  function ReadText(code: typecode, b: bytes): (r: Result<(bytes, bytes)>)
    ensures r.Ok? ==> |r.value.0| < 0x1_0000_0000
  {
    if code == STRING1 then
      if b == [] then Err(Truncated) else
      var n: nat := b[0];
      if |b| < 1 + n then Err(Truncated) else Ok((b[1..1 + n], b[1 + n..]))
    else if code == STRING4 then
      if |b| < LENGTH_WIDTH then Err(Truncated) else
      Powers();
      var n := FromBigEndian(b[..LENGTH_WIDTH]);
      var s := b[LENGTH_WIDTH..];
      if |s| < n then Err(Truncated) else Ok((s[..n], s[n..]))
    else Err(WrongType)
  }

  function ReadBlob(code: typecode, b: bytes): (r: Result<(bytes, bytes)>)
    ensures r.Ok? ==> |r.value.0| < 0x8000_0000
  {
    if code != SIMPLE_LIST then Err(WrongType) else
    var (h, b1) :- ReadHead(b);
    if h.code != INT1 then Err(WrongType) else
    var (n, b2) :- ReadSize(b1);
    if |b2| < n then Err(Truncated) else Ok((b2[..n], b2[n..]))
  }

  /** Reads the value that follows a head with the given type code. */
  function Read(ty: Ty, code: typecode, b: bytes): (r: Result<(Val, bytes)>)
    ensures r.Ok? ==> HasType(ty, r.value.0) && Fits(ty, r.value.0)
    decreases ty, 1, 0
  {
    match ty
    case I32 => var (n, b1) :- ReadInt(code, 4, b); Ok((VInt(n), b1))
    case U32 => var (n, b1) :- ReadInt(code, 8, b); Ok((VInt(WrapUInt32(n)), b1))
    case I64 => var (n, b1) :- ReadInt(code, 8, b); Ok((VInt(n), b1))
    case Text => var (s, b1) :- ReadText(code, b); Ok((VBytes(s), b1))
    case Blob => var (s, b1) :- ReadBlob(code, b); Ok((VBytes(s), b1))
    case List(elem) =>
      if code != LIST then Err(WrongType) else
      var (n, b1) :- ReadSize(b);
      var (vs, b2) :- ReadList(elem, n, b1);
      Ok((VList(vs), b2))
    case Struct(fs) =>
      if code != STRUCT_BEGIN then Err(WrongType) else
      var (vs, b1) :- ReadFields(fs, 0, b);
      var b2 :- SkipToEnd(b1);
      Ok((VStruct(vs), b2))
  }

  /** Reads a value whose head must carry the given tag. */
  function ReadTagged(ty: Ty, tag: byte, b: bytes): (r: Result<(Val, bytes)>)
    ensures r.Ok? ==> HasType(ty, r.value.0) && Fits(ty, r.value.0)
    decreases ty, 2, 0
  {
    var (h, b1) :- ReadHead(b);
    if h.code == STRUCT_END || h.tag != tag then Err(MissingField) else Read(ty, h.code, b1)
  }

  function ReadList(elem: Ty, n: nat, b: bytes): (r: Result<(seq<Val>, bytes)>)
    ensures r.Ok? ==> |r.value.0| == n
    ensures r.Ok? ==> forall i | 0 <= i < n :: HasType(elem, r.value.0[i]) && Fits(elem, r.value.0[i])
    decreases elem, 3, n
  {
    if n == 0 then Ok(([], b)) else
    var (v, b1) :- ReadTagged(elem, 0, b);
    var (vs, b2) :- ReadList(elem, n - 1, b1);
    Ok(([v] + vs, b2))
  }

  function ReadField(f: Field, b: bytes): (r: Result<(Val, bytes)>)
    ensures r.Ok? ==> HasType(f.ty, r.value.0) && Fits(f.ty, r.value.0)
    decreases f, 0, 0
  {
    var (found, b1) :- Seek(f.tag, b);
    if found.Some? then Read(f.ty, found.value, b1)
    else if f.required then Err(MissingField)
    else Ok((Default(f.ty), b1))
  }

  function ReadFields(fs: seq<Field>, i: nat, b: bytes): (r: Result<(seq<Val>, bytes)>)
    requires i <= |fs|
    ensures r.Ok? ==> |r.value.0| == |fs| - i
    ensures r.Ok? ==> forall k | i <= k < |fs| ::
      HasType(fs[k].ty, r.value.0[k - i]) && Fits(fs[k].ty, r.value.0[k - i])
    decreases Struct(fs), 0, |fs| - i
  {
    if i == |fs| then Ok(([], b)) else
    var (v, b1) :- ReadField(fs[i], b);
    var (vs, b2) :- ReadFields(fs, i + 1, b1);
    Ok(([v] + vs, b2))
  }

  // ------------------------------------------------------------ reading undoes writing

  /** A reader meets a writer: it returns the value and the rest if the value fits its length
      fields, and never returns the value otherwise. */
  ghost predicate Faithful<T>(r: Result<(T, bytes)>, fits: bool, v: T, rest: bytes) {
    if fits then r == Ok((v, rest)) else r.Err? || r.value.0 != v
  }

  lemma ReadLongText(s: bytes, rest: bytes)
    ensures Faithful(ReadText(STRING4, WriteLength(|s|) + s + rest), |s| < 0x1_0000_0000, s, rest)
  {
    hide BigEndian, FromBigEndian, WriteLength, Pow256;
    var b := WriteLength(|s|) + s + rest;
    assert b[..LENGTH_WIDTH] == WriteLength(|s|);
    assert b[LENGTH_WIDTH..] == s + rest;
    LengthRoundTrip(|s|);
    if |s| < 0x1_0000_0000 {
      assert (s + rest)[..|s|] == s && (s + rest)[|s|..] == rest;
    }
  }

  lemma ReadTextOfPayload(s: bytes, rest: bytes)
    ensures Faithful(ReadText(TextCode(s), TextPayload(s) + rest), |s| < 0x1_0000_0000, s, rest)
  {
    hide WriteLength, FromBigEndian;
    var b := TextPayload(s) + rest;
    if |s| > 255 {
      ReadLongText(s, rest);
    } else {
      assert b[1..1 + |s|] == s && b[1 + |s|..] == rest;
    }
  }

  lemma ReadTextOfWriteText(s: bytes, tag: byte, rest: bytes)
    ensures ReadHead(WriteText(s, tag) + rest) == Ok((Head(TextCode(s), tag), TextPayload(s) + rest))
    ensures Faithful(ReadText(TextCode(s), TextPayload(s) + rest), |s| < 0x1_0000_0000, s, rest)
  {
    hide ReadHead, WriteHead, ReadText, TextPayload;
    ReadTextOfPayload(s, rest);
    ReadHeadOfWriteHead(TextCode(s), tag, TextPayload(s) + rest);
    assert WriteText(s, tag) + rest == WriteHead(TextCode(s), tag) + (TextPayload(s) + rest);
  }

  lemma ReadBlobOfWriteBlob(s: bytes, tag: byte, rest: bytes)
    ensures ReadHead(WriteBlob(s, tag) + rest).Ok?
    ensures var (h, b) := ReadHead(WriteBlob(s, tag) + rest).value;
      h.tag == tag && h.code != STRUCT_END && Faithful(ReadBlob(h.code, b), |s| < 0x8000_0000, s, rest)
  {
    var b2 := WriteSize(|s|) + (s + rest);
    var b1 := WriteHead(INT1, 0) + b2;
    assert WriteBlob(s, tag) + rest == WriteHead(SIMPLE_LIST, tag) + b1;
    ReadHeadOfWriteHead(SIMPLE_LIST, tag, b1);
    ReadHeadOfWriteHead(INT1, 0, b2);
    ReadSizeOfWriteSize(|s|, s + rest);
    if |s| < 0x8000_0000 {
      assert (s + rest)[..|s|] == s && (s + rest)[|s|..] == rest;
    }
  }

  lemma ReadHeadOfWriteInt(n: int64, tag: byte, rest: bytes)
    ensures ReadHead(WriteInt(n, tag) + rest) == Ok((Head(IntCode(n), tag), IntPayload(n) + rest))
  {
    assert WriteInt(n, tag) + rest == WriteHead(IntCode(n), tag) + (IntPayload(n) + rest);
    ReadHeadOfWriteHead(IntCode(n), tag, IntPayload(n) + rest);
  }

  lemma ReadTaggedInt(ty: Ty, tag: byte, n: int64, rest: bytes)
    requires ty.I32? || ty.U32? || ty.I64?
    requires HasType(ty, VInt(n))
    ensures ReadTagged(ty, tag, WriteInt(n, tag) + rest) == Ok((VInt(n), rest))
    ensures ReadHead(WriteInt(n, tag) + rest) == Ok((Head(IntCode(n), tag), IntPayload(n) + rest))
  {
    hide ReadHead, IntCode, IntPayload, WriteInt, ReadInt;
    ReadHeadOfWriteInt(n, tag, rest);
    ReadIntOfPayload(n, if ty.I32? then 4 else 8, rest);
  }

  lemma ReadHeadOfWrite(ty: Ty, tag: byte, v: Val, omit: Omit, path: seq<nat>, rest: bytes)
    requires HasType(ty, v)
    ensures ReadHead(Write(ty, tag, v, omit, path) + rest).Ok?
    ensures ReadHead(Write(ty, tag, v, omit, path) + rest).value.0.tag == tag
    ensures ReadHead(Write(ty, tag, v, omit, path) + rest).value.0.code != STRUCT_END
  {
    hide ReadHead, WriteHead, WriteText, WriteBlob, WriteInt, WriteSize, ReadText, ReadBlob, WriteList, WriteFields;
    match ty {
      case Text => ReadTextOfWriteText(v.b, tag, rest);
      case Blob => ReadBlobOfWriteBlob(v.b, tag, rest);
      case List(elem) =>
        var b := WriteSize(|v.vs|) + WriteList(elem, v.vs, 0, omit, path) + rest;
        assert Write(ty, tag, v, omit, path) + rest == WriteHead(LIST, tag) + b;
        ReadHeadOfWriteHead(LIST, tag, b);
      case Struct(fs) =>
        var b := WriteFields(fs, v.fs, 0, omit, path) + WriteHead(STRUCT_END, 0) + rest;
        assert Write(ty, tag, v, omit, path) + rest == WriteHead(STRUCT_BEGIN, tag) + b;
        ReadHeadOfWriteHead(STRUCT_BEGIN, tag, b);
      case _ => ReadHeadOfWriteInt(v.n, tag, rest);
    }
  }

  /** Where fields end: at the end of the input or at a structure's end marker. */
  ghost predicate Stops(b: bytes) {
    b == [] || (ReadHead(b).Ok? && ReadHead(b).value.0.code == STRUCT_END)
  }

  /** No field with this tag or a smaller one is next. */
  ghost predicate Beyond(tag: int, b: bytes) {
    Stops(b) || (ReadHead(b).Ok? && ReadHead(b).value.0.tag > tag)
  }

  lemma ReadTaggedList(elem: Ty, tag: byte, vs: seq<Val>, omit: Omit, path: seq<nat>, rest: bytes)
    requires HasType(List(elem), VList(vs))
    requires Faithful(ReadList(elem, |vs|, WriteList(elem, vs, 0, omit, path) + rest),
      forall k | 0 <= k < |vs| :: Fits(elem, vs[k]), vs[0..], rest)
    ensures Faithful(ReadTagged(List(elem), tag, Write(List(elem), tag, VList(vs), omit, path) + rest),
      Fits(List(elem), VList(vs)), VList(vs), rest)
  {
    hide ReadHead, WriteHead, ReadSize, WriteSize, ReadList, WriteList;
    var b2 := WriteList(elem, vs, 0, omit, path) + rest;
    var b1 := WriteSize(|vs|) + b2;
    assert Write(List(elem), tag, VList(vs), omit, path) + rest == WriteHead(LIST, tag) + b1;
    ReadHeadOfWriteHead(LIST, tag, b1);
    ReadSizeOfWriteSize(|vs|, b2);
    assert vs[0..] == vs;
  }

  lemma ReadTaggedStruct(fs: seq<Field>, tag: byte, vs: seq<Val>, omit: Omit, path: seq<nat>, rest: bytes)
    requires HasType(Struct(fs), VStruct(vs))
    requires Faithful(ReadFields(fs, 0, WriteFields(fs, vs, 0, omit, path) + (WriteHead(STRUCT_END, 0) + rest)),
      forall k | 0 <= k < |fs| :: Fits(fs[k].ty, vs[k]), vs[0..], WriteHead(STRUCT_END, 0) + rest)
    ensures Faithful(ReadTagged(Struct(fs), tag, Write(Struct(fs), tag, VStruct(vs), omit, path) + rest),
      Fits(Struct(fs), VStruct(vs)), VStruct(vs), rest)
  {
    hide ReadHead, WriteHead, ReadFields, WriteFields;
    var b2 := WriteHead(STRUCT_END, 0) + rest;
    var b1 := WriteFields(fs, vs, 0, omit, path) + b2;
    assert Write(Struct(fs), tag, VStruct(vs), omit, path) + rest == WriteHead(STRUCT_BEGIN, tag) + b1;
    ReadHeadOfWriteHead(STRUCT_BEGIN, tag, b1);
    ReadHeadOfWriteHead(STRUCT_END, 0, rest);
    assert vs[0..] == vs;
    assert SkipToEnd(b2) == Ok(rest);
  }

  lemma {:induction false} ReadTaggedOfWrite(ty: Ty, tag: byte, v: Val, omit: Omit, path: seq<nat>, rest: bytes)
    requires WellFormed(ty) && HasType(ty, v)
    ensures Faithful(ReadTagged(ty, tag, Write(ty, tag, v, omit, path) + rest), Fits(ty, v), v, rest)
    decreases ty, 1, 0
  {
    hide ReadHead, WriteHead, ReadList, WriteList, ReadFields, WriteFields, WriteInt;
    match ty {
      case Text => ReadTextOfWriteText(v.b, tag, rest);
      case Blob => ReadBlobOfWriteBlob(v.b, tag, rest);
      case List(elem) =>
        ReadListOfWriteList(elem, v.vs, 0, omit, path, rest);
        ReadTaggedList(elem, tag, v.vs, omit, path, rest);
      case Struct(fs) =>
        ReadHeadOfWriteHead(STRUCT_END, 0, rest);
        ReadFieldsOfWriteFields(fs, v.fs, 0, omit, path, WriteHead(STRUCT_END, 0) + rest);
        ReadTaggedStruct(fs, tag, v.fs, omit, path, rest);
      case _ =>
        ReadTaggedInt(ty, tag, v.n, rest);
    }
  }

  lemma {:induction false} ReadListOfWriteList(elem: Ty, vs: seq<Val>, i: nat, omit: Omit, path: seq<nat>, rest: bytes)
    requires i <= |vs| && forall k | 0 <= k < |vs| :: HasType(elem, vs[k])
    requires WellFormed(elem)
    ensures Faithful(ReadList(elem, |vs| - i, WriteList(elem, vs, i, omit, path) + rest),
      forall k | i <= k < |vs| :: Fits(elem, vs[k]), vs[i..], rest)
    decreases elem, 2, |vs| - i
  {
    hide ReadTagged, Write;
    if i < |vs| {
      var tail := WriteList(elem, vs, i + 1, omit, path) + rest;
      var head := Write(elem, 0, vs[i], omit, path + [i]);
      assert WriteList(elem, vs, i, omit, path) + rest == head + tail;
      ReadTaggedOfWrite(elem, 0, vs[i], omit, path + [i], tail);
      ReadListOfWriteList(elem, vs, i + 1, omit, path, rest);
      FirstAndRest(vs, i);
    } else {
      assert [] + rest == rest;
    }
  }

  lemma FirstAndRest(vs: seq<Val>, i: nat)
    requires i < |vs|
    ensures [vs[i]] + vs[i + 1..] == vs[i..]
    ensures forall v, tail :: [v] + tail == vs[i..] ==> v == vs[i] && tail == vs[i + 1..]
  {
    forall v, tail | [v] + tail == vs[i..]
      ensures v == vs[i] && tail == vs[i + 1..]
    {
      assert ([v] + tail)[0] == v && ([v] + tail)[1..] == tail;
      assert vs[i..][1..] == vs[i + 1..];
    }
  }

  lemma {:induction false} FieldsAreBeyond(fs: seq<Field>, vs: seq<Val>, i: nat, omit: Omit, path: seq<nat>,
                                           rest: bytes, tag: int)
    requires i <= |fs| == |vs| && forall k | 0 <= k < |fs| :: HasType(fs[k].ty, vs[k])
    requires WellFormed(Struct(fs)) && Stops(rest)
    requires i < |fs| ==> tag < fs[i].tag
    ensures Beyond(tag, WriteFields(fs, vs, i, omit, path) + rest)
    decreases |fs| - i
  {
    hide ReadHead, Write;
    if i == |fs| {
      assert [] + rest == rest;
    } else {
      var w := WriteField(fs[i], vs[i], omit, path);
      var tail := WriteFields(fs, vs, i + 1, omit, path) + rest;
      assert WriteFields(fs, vs, i, omit, path) + rest == w + tail;
      if Omitted(fs[i], vs[i], omit, path) {
        FieldsAreBeyond(fs, vs, i + 1, omit, path, rest, tag);
        assert w + tail == tail;
      } else {
        ReadHeadOfWrite(fs[i].ty, fs[i].tag, vs[i], omit, path + [fs[i].tag], tail);
      }
    }
  }

  lemma {:induction false} ReadFieldOfWriteField(f: Field, v: Val, omit: Omit, path: seq<nat>, rest: bytes)
    requires WellFormed(f.ty) && HasType(f.ty, v) && Beyond(f.tag, rest)
    ensures Faithful(ReadField(f, WriteField(f, v, omit, path) + rest), Fits(f.ty, v), v, rest)
    decreases f, 0, 0
  {
    hide ReadHead, Write, Read;
    if Omitted(f, v, omit, path) {
      assert [] + rest == rest;
      assert Seek(f.tag, rest) == Ok((None, rest));
    } else {
      ReadHeadOfWrite(f.ty, f.tag, v, omit, path + [f.tag], rest);
      ReadTaggedOfWrite(f.ty, f.tag, v, omit, path + [f.tag], rest);
    }
  }

  lemma {:induction false} ReadFieldsOfWriteFields(fs: seq<Field>, vs: seq<Val>, i: nat, omit: Omit, path: seq<nat>,
                                                   rest: bytes)
    requires i <= |fs| == |vs| && forall k | 0 <= k < |fs| :: HasType(fs[k].ty, vs[k])
    requires WellFormed(Struct(fs)) && Stops(rest)
    ensures Faithful(ReadFields(fs, i, WriteFields(fs, vs, i, omit, path) + rest),
      forall k | i <= k < |fs| :: Fits(fs[k].ty, vs[k]), vs[i..], rest)
    decreases Struct(fs), 0, |fs| - i
  {
    hide WriteField, ReadField, Beyond, Stops;
    if i == |fs| {
      assert [] + rest == rest;
    } else {
      var tail := WriteFields(fs, vs, i + 1, omit, path) + rest;
      assert WriteFields(fs, vs, i, omit, path) + rest == WriteField(fs[i], vs[i], omit, path) + tail;
      FieldsAreBeyond(fs, vs, i + 1, omit, path, rest, fs[i].tag);
      ReadFieldOfWriteField(fs[i], vs[i], omit, path, tail);
      ReadFieldsOfWriteFields(fs, vs, i + 1, omit, path, rest);
      FirstAndRest(vs, i);
    }
  }

  // ------------------------------------------------------------ whole records

  /** writeTo of a record into an empty stream. */
  function Encode(ty: Ty, v: Val, omit: Omit): bytes
    requires ty.Struct? && HasType(ty, v)
  {
    WriteFields(ty.fields, v.fs, 0, omit, [])
  }

  /** readFrom of a whole buffer; bytes after the last known field are not looked at. */
  function Decode(ty: Ty, b: bytes): (r: Result<Val>)
    requires ty.Struct?
    ensures r.Ok? ==> HasType(ty, r.value) && Fits(ty, r.value)
  {
    var (vs, _) :- ReadFields(ty.fields, 0, b);
    Ok(VStruct(vs))
  }

  /** Decoding an encoding gives the record back exactly when all its lengths fit, whichever
      default-valued optional fields were left out at whatever depth. */
  lemma DecodeOfEncode(ty: Ty, v: Val, omit: Omit)
    requires ty.Struct? && WellFormed(ty) && HasType(ty, v)
    ensures Decode(ty, Encode(ty, v, omit)) == Ok(v) <==> Fits(ty, v)
  {
    hide ReadFields, WriteFields;
    ReadFieldsOfWriteFields(ty.fields, v.fs, 0, omit, [], []);
    assert Encode(ty, v, omit) + [] == Encode(ty, v, omit);
    assert v.fs[0..] == v.fs;
  }

  lemma EncodeInjective(ty: Ty, v: Val, w: Val, omit: Omit, omit': Omit)
    requires ty.Struct? && WellFormed(ty) && HasType(ty, v) && HasType(ty, w)
    requires Fits(ty, v) && Fits(ty, w)
    requires Encode(ty, v, omit) == Encode(ty, w, omit')
    ensures v == w
  {
    DecodeOfEncode(ty, v, omit);
    DecodeOfEncode(ty, w, omit');
  }

  /** A record with a required field, or a field that does not hold its default, has a
      non-empty encoding. */
  lemma {:induction false} WrittenFieldShows(fs: seq<Field>, vs: seq<Val>, i: nat, k: nat, omit: Omit, path: seq<nat>)
    requires i <= k < |fs| == |vs| && forall k | 0 <= k < |fs| :: HasType(fs[k].ty, vs[k])
    requires fs[k].required || vs[k] != Default(fs[k].ty)
    ensures WriteFields(fs, vs, i, omit, path) != []
    decreases k - i
  {
    if i < k {
      WrittenFieldShows(fs, vs, i + 1, k, omit, path);
    }
  }
}
