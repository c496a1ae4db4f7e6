/**
 Reading with one version of a schema what was written with another: unknown fields are skipped,
 fields the writer did not have keep their defaults.
 */
module TarsEvolution {
  import opened Base
  import opened TarsWire
  import opened TarsBytes
  import opened TarsCodec

  function SkipTagged(b: bytes): Result<bytes> {
    var (h, b1) :- ReadHead(b);
    SkipValue(h.code, b1)
  }

  lemma SkipInt(n: int64, tag: byte, rest: bytes)
    ensures SkipTagged(WriteInt(n, tag) + rest) == Ok(rest)
  {
    hide ReadHead, WriteInt, IntPayload, IntCode;
    ReadHeadOfWriteInt(n, tag, rest);
    assert (IntPayload(n) + rest)[Width(IntCode(n))..] == rest;
  }

  lemma SkipText(s: bytes, tag: byte, rest: bytes)
    requires |s| < 0x1_0000_0000
    ensures SkipTagged(WriteText(s, tag) + rest) == Ok(rest)
  {
    hide ReadHead, WriteText, FromBigEndian, WriteLength;
    ReadTextOfWriteText(s, tag, rest);
    var b := TextPayload(s) + rest;
    if |s| > 255 {
      assert b[..LENGTH_WIDTH] == WriteLength(|s|) && b[LENGTH_WIDTH..] == s + rest;
      LengthRoundTrip(|s|);
      assert (s + rest)[|s|..] == rest;
    } else {
      assert b[1..] == s + rest && (s + rest)[|s|..] == rest;
    }
  }

  lemma SkipBlob(s: bytes, tag: byte, rest: bytes)
    requires |s| < 0x8000_0000
    ensures SkipTagged(WriteBlob(s, tag) + rest) == Ok(rest)
  {
    hide ReadHead, WriteHead, ReadSize, WriteSize;
    var b2 := WriteSize(|s|) + (s + rest);
    var b1 := WriteHead(INT1, 0) + b2;
    assert WriteBlob(s, tag) + rest == WriteHead(SIMPLE_LIST, tag) + b1;
    ReadHeadOfWriteHead(SIMPLE_LIST, tag, b1);
    ReadHeadOfWriteHead(INT1, 0, b2);
    ReadSizeOfWriteSize(|s|, s + rest);
    assert (s + rest)[|s|..] == rest;
  }

  /** Floating point values, codes 4 and 5, of which no modelled schema has any. */
  lemma SkipFloats(b: bytes, tag: byte, rest: bytes)
    ensures |b| == 4 ==> SkipTagged(Lead(4, tag) + b + rest) == Ok(rest)
    ensures |b| == 8 ==> SkipTagged(Lead(5, tag) + b + rest) == Ok(rest)
  {
    hide ReadHead, WriteHead;
    var code := if |b| == 4 then FLOAT else DOUBLE;
    ReadHeadOfWriteHead(code, tag, b + rest);
    assert WriteHead(code, tag) + b + rest == WriteHead(code, tag) + (b + rest);
    assert |b| == 4 || |b| == 8 ==> WriteHead(code, tag) == Lead(code, tag) by { LeadOfHead(code, tag); }
    assert (b + rest)[|b|..] == rest;
  }

  lemma LeadOfHead(code: typecode, tag: byte)
    ensures WriteHead(code, tag) == Lead(code, tag)
  {
  }

  datatype Entry = Entry(key: Val, value: Val)

  ghost predicate EntryFits(key: Ty, value: Ty, e: Entry) {
    HasType(key, e.key) && HasType(value, e.value) && Fits(key, e.key) && Fits(value, e.value)
  }

  function WriteEntry(key: Ty, value: Ty, e: Entry, omit: Omit): bytes
    requires EntryFits(key, value, e)
  {
    Write(key, 0, e.key, omit, []) + Write(value, 1, e.value, omit, [])
  }

  /** The entries of a map: keys with tag 0, values with tag 1. */
  function WriteEntries(key: Ty, value: Ty, entries: seq<Entry>, omit: Omit): bytes
    requires forall k | 0 <= k < |entries| :: EntryFits(key, value, entries[k])
  {
    if entries == [] then []
    else WriteEntry(key, value, entries[0], omit) + WriteEntries(key, value, entries[1..], omit)
  }

  lemma SkipOne(n: nat, b: bytes, rest: bytes)
    requires SkipTagged(b) == Ok(rest)
    ensures SkipMany(n + 1, b) == SkipMany(n, rest)
  {
    hide ReadHead, SkipValue;
  }

  lemma SkipEntry(key: Ty, value: Ty, e: Entry, n: nat, omit: Omit, rest: bytes)
    requires EntryFits(key, value, e)
    ensures SkipMany(n + 2, WriteEntry(key, value, e, omit) + rest) == SkipMany(n, rest)
  {
    hide Write, SkipMany, SkipTagged, HasType, Fits;
    var v := Write(value, 1, e.value, omit, []) + rest;
    SkipOfWrite(key, 0, e.key, omit, [], v);
    SkipOfWrite(value, 1, e.value, omit, [], rest);
    assert WriteEntry(key, value, e, omit) + rest == Write(key, 0, e.key, omit, []) + v;
    SkipOne(n + 1, Write(key, 0, e.key, omit, []) + v, v);
    SkipOne(n, v, rest);
  }

  lemma {:induction false} SkipEntries(key: Ty, value: Ty, entries: seq<Entry>, omit: Omit, rest: bytes)
    requires forall k | 0 <= k < |entries| :: EntryFits(key, value, entries[k])
    ensures SkipMany(2 * |entries|, WriteEntries(key, value, entries, omit) + rest) == Ok(rest)
  {
    hide WriteEntry, EntryFits, ReadHead, SkipValue;
    if entries != [] {
      var tail := WriteEntries(key, value, entries[1..], omit) + rest;
      assert WriteEntries(key, value, entries, omit) + rest == WriteEntry(key, value, entries[0], omit) + tail;
      SkipEntry(key, value, entries[0], 2 * |entries[1..]|, omit, tail);
      SkipEntries(key, value, entries[1..], omit, rest);
    } else {
      assert [] + rest == rest;
    }
  }

  /** A map, code 8: its size, then its entries. */
  lemma SkipMap(key: Ty, value: Ty, entries: seq<Entry>, tag: byte, omit: Omit, rest: bytes)
    requires |entries| < 0x8000_0000
    requires forall k | 0 <= k < |entries| :: EntryFits(key, value, entries[k])
    ensures SkipTagged(Lead(8, tag) + WriteSize(|entries|) + WriteEntries(key, value, entries, omit) + rest) == Ok(rest)
  {
    hide ReadHead, WriteHead, ReadSize, WriteSize, WriteEntries, SkipMany, EntryFits;
    var b2 := WriteEntries(key, value, entries, omit) + rest;
    var b1 := WriteSize(|entries|) + b2;
    ReadHeadOfWriteHead(MAP, tag, b1);
    LeadOfHead(MAP, tag);
    assert Lead(8, tag) + WriteSize(|entries|) + WriteEntries(key, value, entries, omit) + rest
        == WriteHead(MAP, tag) + b1;
    ReadSizeOfWriteSize(|entries|, b2);
    SkipEntries(key, value, entries, omit, rest);
  }

  /** Skipping consumes exactly what a write produced. */
  lemma {:induction false} SkipOfWrite(ty: Ty, tag: byte, v: Val, omit: Omit, path: seq<nat>, rest: bytes)
    requires HasType(ty, v) && Fits(ty, v)
    ensures SkipTagged(Write(ty, tag, v, omit, path) + rest) == Ok(rest)
    decreases ty, 1, 0
  {
    hide ReadHead, WriteHead, WriteInt, WriteText, WriteBlob, SkipMany, SkipToEnd, ReadSize, WriteSize;
    match ty {
      case Text => SkipText(v.b, tag, rest);
      case Blob => SkipBlob(v.b, tag, rest);
      case List(elem) =>
        var b2 := WriteList(elem, v.vs, 0, omit, path) + rest;
        var b1 := WriteSize(|v.vs|) + b2;
        assert Write(ty, tag, v, omit, path) + rest == WriteHead(LIST, tag) + b1;
        ReadHeadOfWriteHead(LIST, tag, b1);
        ReadSizeOfWriteSize(|v.vs|, b2);
        SkipListOfWriteList(elem, v.vs, 0, omit, path, rest);
      case Struct(fs) =>
        var b1 := WriteFields(fs, v.fs, 0, omit, path) + (WriteHead(STRUCT_END, 0) + rest);
        assert Write(ty, tag, v, omit, path) + rest == WriteHead(STRUCT_BEGIN, tag) + b1;
        ReadHeadOfWriteHead(STRUCT_BEGIN, tag, b1);
        SkipFieldsOfWriteFields(fs, v.fs, 0, omit, path, rest);
      case _ => SkipInt(v.n, tag, rest);
    }
  }

  lemma {:induction false} SkipListOfWriteList(elem: Ty, vs: seq<Val>, i: nat, omit: Omit, path: seq<nat>, rest: bytes)
    requires i <= |vs| && forall k | 0 <= k < |vs| :: HasType(elem, vs[k]) && Fits(elem, vs[k])
    ensures SkipMany(|vs| - i, WriteList(elem, vs, i, omit, path) + rest) == Ok(rest)
    decreases elem, 2, |vs| - i
  {
    hide Write, ReadHead, SkipValue;
    if i < |vs| {
      var tail := WriteList(elem, vs, i + 1, omit, path) + rest;
      assert WriteList(elem, vs, i, omit, path) + rest == Write(elem, 0, vs[i], omit, path + [i]) + tail;
      SkipOfWrite(elem, 0, vs[i], omit, path + [i], tail);
      SkipListOfWriteList(elem, vs, i + 1, omit, path, rest);
    } else {
      assert [] + rest == rest;
    }
  }

  lemma {:induction false} SkipFieldsOfWriteFields(fs: seq<Field>, vs: seq<Val>, i: nat, omit: Omit, path: seq<nat>,
                                                   rest: bytes)
    requires i <= |fs| == |vs| && forall k | 0 <= k < |fs| :: HasType(fs[k].ty, vs[k]) && Fits(fs[k].ty, vs[k])
    ensures SkipToEnd(WriteFields(fs, vs, i, omit, path) + (WriteHead(STRUCT_END, 0) + rest)) == Ok(rest)
    decreases Struct(fs), 0, |fs| - i
  {
    hide Write, ReadHead, WriteHead, Omitted;
    var end := WriteHead(STRUCT_END, 0) + rest;
    if i == |fs| {
      assert [] + end == end;
      ReadHeadOfWriteHead(STRUCT_END, 0, rest);
    } else {
      var tail := WriteFields(fs, vs, i + 1, omit, path) + end;
      var f := fs[i];
      assert WriteFields(fs, vs, i, omit, path) + end == WriteField(f, vs[i], omit, path) + tail;
      SkipFieldsOfWriteFields(fs, vs, i + 1, omit, path, rest);
      if Omitted(f, vs[i], omit, path) {
        assert [] + tail == tail;
      } else {
        SkipOfWrite(f.ty, f.tag, vs[i], omit, path + [f.tag], tail);
        ReadHeadOfWrite(f.ty, f.tag, vs[i], omit, path + [f.tag], tail);
      }
    }
  }

  // ------------------------------------------------------------ two versions of a schema

  /** Shared tags have the same type. */
  ghost predicate Compatible(ws: seq<Field>, rs: seq<Field>) {
    forall k, j | 0 <= k < |ws| && 0 <= j < |rs| && ws[k].tag == rs[j].tag :: ws[k].ty == rs[j].ty
  }

  /** The writer has written a field with this tag. */
  ghost predicate Written(ws: seq<Field>, vs: seq<Val>, omit: Omit, path: seq<nat>, tag: byte)
    requires |vs| == |ws|
  {
    exists k | 0 <= k < |ws| :: ws[k].tag == tag && !Omitted(ws[k], vs[k], omit, path)
  }

  /** The writer has written whatever the reader requires among its fields j, j+1, ... */
  ghost predicate Supplied(ws: seq<Field>, vs: seq<Val>, omit: Omit, path: seq<nat>, rs: seq<Field>, j: nat)
    requires |vs| == |ws|
  {
    forall k | j <= k < |rs| && rs[k].required :: Written(ws, vs, omit, path, rs[k].tag)
  }

  /** What the reader should see in a field: the writer's value of that tag, or the default. */
  ghost predicate Sees(ws: seq<Field>, vs: seq<Val>, f: Field, v: Val)
    requires |vs| == |ws|
  {
    if exists k | 0 <= k < |ws| :: ws[k].tag == f.tag
    then exists k | 0 <= k < |ws| :: ws[k].tag == f.tag && v == vs[k]
    else v == Default(f.ty)
  }

  lemma SeekSkips(f: Field, v: Val, omit: Omit, path: seq<nat>, tag: byte, rest: bytes)
    requires HasType(f.ty, v) && Fits(f.ty, v) && f.tag < tag
    ensures Seek(tag, WriteField(f, v, omit, path) + rest) == Seek(tag, rest)
  {
    hide Write, ReadHead;
    if Omitted(f, v, omit, path) {
      assert [] + rest == rest;
    } else {
      SkipOfWrite(f.ty, f.tag, v, omit, path + [f.tag], rest);
      ReadHeadOfWrite(f.ty, f.tag, v, omit, path + [f.tag], rest);
    }
  }

  lemma ReadAbsent(f: Field, b: bytes)
    requires Beyond(f.tag, b)
    ensures ReadField(f, b) == if f.required then Err(MissingField) else Ok((Default(f.ty), b))
  {
  }

  lemma ReadShared(w: Field, r: Field, v: Val, omit: Omit, path: seq<nat>, rest: bytes)
    requires w.tag == r.tag && w.ty == r.ty
    requires WellFormed(w.ty) && HasType(w.ty, v) && Fits(w.ty, v) && Beyond(w.tag, rest)
    ensures ReadField(r, WriteField(w, v, omit, path) + rest) ==
      if r.required && Omitted(w, v, omit, path) then Err(MissingField) else Ok((v, rest))
  {
    ReadFieldOfWriteField(w, v, omit, path, rest);
    if Omitted(w, v, omit, path) {
      assert [] + rest == rest;
      ReadAbsent(r, rest);
    } else {
      hide Read, Write, ReadHead;
      ReadHeadOfWrite(w.ty, w.tag, v, omit, path + [w.tag], rest);
    }
  }

  /** Reading fields j, j+1, ... of rs from b gives what Sees prescribes. */
  ghost predicate AllSeen(ws: seq<Field>, vs: seq<Val>, rs: seq<Field>, j: nat, b: bytes)
    requires |vs| == |ws| && j <= |rs|
  {
    && ReadFields(rs, j, b).Ok?
    && forall k | j <= k < |rs| :: Sees(ws, vs, rs[k], ReadFields(rs, j, b).value.0[k - j])
  }

  lemma SeenOneMore(ws: seq<Field>, vs: seq<Val>, rs: seq<Field>, j: nat, b: bytes, v: Val, b': bytes)
    requires |vs| == |ws| && j < |rs|
    requires ReadField(rs[j], b) == Ok((v, b')) && Sees(ws, vs, rs[j], v) && AllSeen(ws, vs, rs, j + 1, b')
    ensures AllSeen(ws, vs, rs, j, b)
  {
    hide ReadField, Sees;
    var tail := ReadFields(rs, j + 1, b').value.0;
    assert ReadFields(rs, j, b).value.0 == [v] + tail;
    forall k | j <= k < |rs|
      ensures Sees(ws, vs, rs[k], ([v] + tail)[k - j])
    {
      if k > j {
        assert ([v] + tail)[k - j] == tail[k - (j + 1)];
      }
    }
  }

  lemma SeenBySeek(ws: seq<Field>, vs: seq<Val>, rs: seq<Field>, j: nat, b: bytes, b': bytes)
    requires |vs| == |ws| && j < |rs|
    requires Seek(rs[j].tag, b) == Seek(rs[j].tag, b')
    ensures AllSeen(ws, vs, rs, j, b) == AllSeen(ws, vs, rs, j, b')
  {
    hide Sees, Seek, Read;
    assert ReadField(rs[j], b) == ReadField(rs[j], b');
  }

  /** What reading fields j, j+1, ... comes to. */
  ghost predicate Outcome(ws: seq<Field>, vs: seq<Val>, omit: Omit, path: seq<nat>, rs: seq<Field>, j: nat, b: bytes)
    requires |vs| == |ws| && j <= |rs|
  {
    if Supplied(ws, vs, omit, path, rs, j) then AllSeen(ws, vs, rs, j, b) else ReadFields(rs, j, b).Err?
  }

  lemma ReadNone(ws: seq<Field>, vs: seq<Val>, omit: Omit, path: seq<nat>, rs: seq<Field>, j: nat, b: bytes)
    requires |vs| == |ws| && j < |rs| && Beyond(rs[j].tag, b)
    requires forall k | 0 <= k < |ws| :: ws[k].tag != rs[j].tag
    requires Outcome(ws, vs, omit, path, rs, j + 1, b)
    ensures Outcome(ws, vs, omit, path, rs, j, b)
  {
    hide Beyond, AllSeen, Omitted;
    ReadAbsent(rs[j], b);
    assert !Written(ws, vs, omit, path, rs[j].tag);
    if !rs[j].required {
      assert Supplied(ws, vs, omit, path, rs, j) == Supplied(ws, vs, omit, path, rs, j + 1);
      if Supplied(ws, vs, omit, path, rs, j) {
        SeenOneMore(ws, vs, rs, j, b, Default(rs[j].ty), b);
      }
    }
  }

  lemma ReadSame(ws: seq<Field>, vs: seq<Val>, i: nat, omit: Omit, path: seq<nat>, rs: seq<Field>, j: nat, b: bytes,
                 tail: bytes)
    requires |vs| == |ws| && i < |ws| && j < |rs| && ws[i].tag == rs[j].tag
    requires forall k | 0 <= k < |ws| && ws[k].tag == rs[j].tag :: k == i
    requires ReadField(rs[j], b) ==
      if rs[j].required && Omitted(ws[i], vs[i], omit, path) then Err(MissingField) else Ok((vs[i], tail))
    requires Outcome(ws, vs, omit, path, rs, j + 1, tail)
    ensures Outcome(ws, vs, omit, path, rs, j, b)
  {
    hide ReadField, AllSeen, Omitted;
    assert Written(ws, vs, omit, path, rs[j].tag) <==> !Omitted(ws[i], vs[i], omit, path);
    if !rs[j].required || !Omitted(ws[i], vs[i], omit, path) {
      assert Supplied(ws, vs, omit, path, rs, j) == Supplied(ws, vs, omit, path, rs, j + 1);
      if Supplied(ws, vs, omit, path, rs, j) {
        SeenOneMore(ws, vs, rs, j, b, vs[i], tail);
      }
    }
  }

  lemma {:induction false} ReadAcross(ws: seq<Field>, vs: seq<Val>, i: nat, rs: seq<Field>, j: nat, omit: Omit,
                                      path: seq<nat>, rest: bytes)
    requires WellFormed(Struct(ws)) && WellFormed(Struct(rs)) && Compatible(ws, rs)
    requires i <= |ws| == |vs| && forall k | 0 <= k < |ws| :: HasType(ws[k].ty, vs[k]) && Fits(ws[k].ty, vs[k])
    requires j <= |rs| && Stops(rest)
    requires forall k | 0 <= k < i && j < |rs| :: ws[k].tag < rs[j].tag
    ensures Outcome(ws, vs, omit, path, rs, j, WriteFields(ws, vs, i, omit, path) + rest)
    decreases |ws| - i + |rs| - j
  {
    hide ReadField, ReadFields, WriteField, Stops, Beyond, AllSeen, Supplied, HasType, Fits, Default, Outcome;
    var b := WriteFields(ws, vs, i, omit, path) + rest;
    if j == |rs| {
      NothingToSee(ws, vs, omit, path, rs, b);
    } else if i == |ws| || rs[j].tag < ws[i].tag {
      FieldsAreBeyond(ws, vs, i, omit, path, rest, rs[j].tag);
      assert forall k | 0 <= k < |ws| :: ws[k].tag != rs[j].tag;
      ReadAcross(ws, vs, i, rs, j + 1, omit, path, rest);
      ReadNone(ws, vs, omit, path, rs, j, b);
    } else {
      var tail := WriteFields(ws, vs, i + 1, omit, path) + rest;
      assert b == WriteField(ws[i], vs[i], omit, path) + tail;
      if ws[i].tag < rs[j].tag {
        SeekSkips(ws[i], vs[i], omit, path, rs[j].tag, tail);
        ReadAcross(ws, vs, i + 1, rs, j, omit, path, rest);
        OutcomeBySeek(ws, vs, omit, path, rs, j, b, tail);
      } else {
        FieldsAreBeyond(ws, vs, i + 1, omit, path, rest, rs[j].tag);
        ReadShared(ws[i], rs[j], vs[i], omit, path, tail);
        ReadAcross(ws, vs, i + 1, rs, j + 1, omit, path, rest);
        ReadSame(ws, vs, i, omit, path, rs, j, b, tail);
      }
    }
  }

  lemma OutcomeBySeek(ws: seq<Field>, vs: seq<Val>, omit: Omit, path: seq<nat>, rs: seq<Field>, j: nat, b: bytes,
                      b': bytes)
    requires |vs| == |ws| && j < |rs|
    requires Seek(rs[j].tag, b) == Seek(rs[j].tag, b')
    ensures Outcome(ws, vs, omit, path, rs, j, b) == Outcome(ws, vs, omit, path, rs, j, b')
  {
    hide Seek, Read, AllSeen, Supplied;
    SeenBySeek(ws, vs, rs, j, b, b');
    assert ReadField(rs[j], b) == ReadField(rs[j], b');
  }

  lemma NothingToSee(ws: seq<Field>, vs: seq<Val>, omit: Omit, path: seq<nat>, rs: seq<Field>, b: bytes)
    requires |vs| == |ws|
    ensures Outcome(ws, vs, omit, path, rs, |rs|, b)
  {
  }

  /** Nodes on different versions of a schema understand each other exactly if the writer has written
      what the reader requires; then every field of the reader holds the writer's value of that tag, or
      its default if the writer has no such tag. */
  lemma DecodeAcrossVersions(writer: Ty, v: Val, reader: Ty, omit: Omit)
    requires writer.Struct? && reader.Struct? && WellFormed(writer) && WellFormed(reader)
    requires Compatible(writer.fields, reader.fields)
    requires HasType(writer, v) && Fits(writer, v)
    ensures Decode(reader, Encode(writer, v, omit)).Ok? <==>
      forall j | 0 <= j < |reader.fields| && reader.fields[j].required ::
        Written(writer.fields, v.fs, omit, [], reader.fields[j].tag)
    ensures Decode(reader, Encode(writer, v, omit)).Ok? ==> forall j | 0 <= j < |reader.fields| ::
      Sees(writer.fields, v.fs, reader.fields[j], Decode(reader, Encode(writer, v, omit)).value.fs[j])
  {
    hide ReadFields, WriteFields, Written;
    assert Encode(writer, v, omit) + [] == Encode(writer, v, omit);
    ReadAcross(writer.fields, v.fs, 0, reader.fields, 0, omit, [], []);
  }

  /** In particular a writer without a tag that the reader requires is never understood. */
  lemma MissingRequiredField(writer: Ty, v: Val, reader: Ty, omit: Omit, j: nat)
    requires writer.Struct? && reader.Struct? && WellFormed(writer) && WellFormed(reader)
    requires Compatible(writer.fields, reader.fields)
    requires HasType(writer, v) && Fits(writer, v)
    requires j < |reader.fields| && reader.fields[j].required
    requires forall k | 0 <= k < |writer.fields| :: writer.fields[k].tag != reader.fields[j].tag
    ensures Decode(reader, Encode(writer, v, omit)).Err?
  {
    hide Decode, Encode;
    DecodeAcrossVersions(writer, v, reader, omit);
  }
}
