/**
 When two writers, which may leave out different defaults, write the same bytes. Hashes are taken of
 encodings, so this is when two nodes with different writers agree on a hash.
 */
module TarsCanonical {
  import opened Base
  import opened TarsWire
  import opened TarsCodec

  /** Both writers leave out, or both write, each optional field that holds its default; and likewise
      inside what they write. */
  ghost predicate SameChoices(ty: Ty, v: Val, omit: Omit, omit': Omit, path: seq<nat>)
    requires HasType(ty, v)
    decreases ty, 1, 0
  {
    match ty
    case List(elem) => forall i | 0 <= i < |v.vs| :: SameChoices(elem, v.vs[i], omit, omit', path + [i])
    case Struct(fs) => SameFieldChoices(fs, v.fs, 0, omit, omit', path)
    case _ => true
  }

  ghost predicate SameFieldChoice(f: Field, v: Val, omit: Omit, omit': Omit, path: seq<nat>)
    requires HasType(f.ty, v)
    decreases f, 0, 0
  {
    && Omitted(f, v, omit, path) == Omitted(f, v, omit', path)
    && (Omitted(f, v, omit, path) || SameChoices(f.ty, v, omit, omit', path + [f.tag]))
  }

  ghost predicate SameFieldChoices(fs: seq<Field>, vs: seq<Val>, i: nat, omit: Omit, omit': Omit, path: seq<nat>)
    requires i <= |fs| == |vs| && forall k | 0 <= k < |fs| :: HasType(fs[k].ty, vs[k])
    decreases Struct(fs), 0, 0
  {
    forall k | i <= k < |fs| :: SameFieldChoice(fs[k], vs[k], omit, omit', path)
  }

  // ------------------------------------------------------------ same choices, same bytes

  lemma {:induction false} SameBytes(ty: Ty, tag: byte, v: Val, omit: Omit, omit': Omit, path: seq<nat>)
    requires HasType(ty, v) && SameChoices(ty, v, omit, omit', path)
    ensures Write(ty, tag, v, omit, path) == Write(ty, tag, v, omit', path)
    decreases ty, 1, 0
  {
    hide WriteHead, WriteSize, WriteInt, WriteText, WriteBlob, WriteList, WriteFields;
    match ty {
      case List(elem) => SameListBytes(elem, v.vs, 0, omit, omit', path);
      case Struct(fs) => SameFieldBytes(fs, v.fs, 0, omit, omit', path);
      case _ =>
    }
  }

  lemma {:induction false} SameListBytes(elem: Ty, vs: seq<Val>, i: nat, omit: Omit, omit': Omit, path: seq<nat>)
    requires i <= |vs| && forall k | 0 <= k < |vs| :: HasType(elem, vs[k])
    requires forall k | 0 <= k < |vs| :: SameChoices(elem, vs[k], omit, omit', path + [k])
    ensures WriteList(elem, vs, i, omit, path) == WriteList(elem, vs, i, omit', path)
    decreases elem, 2, |vs| - i
  {
    hide Write, SameChoices;
    if i < |vs| {
      SameBytes(elem, 0, vs[i], omit, omit', path + [i]);
      SameListBytes(elem, vs, i + 1, omit, omit', path);
    }
  }

  lemma {:induction false} SameFieldBytes(fs: seq<Field>, vs: seq<Val>, i: nat, omit: Omit, omit': Omit,
                                          path: seq<nat>)
    requires i <= |fs| == |vs| && forall k | 0 <= k < |fs| :: HasType(fs[k].ty, vs[k])
    requires SameFieldChoices(fs, vs, i, omit, omit', path)
    ensures WriteFields(fs, vs, i, omit, path) == WriteFields(fs, vs, i, omit', path)
    decreases Struct(fs), 0, |fs| - i
  {
    hide Write, Omitted;
    if i < |fs| {
      var f := fs[i];
      if !Omitted(f, vs[i], omit, path) {
        SameBytes(f.ty, f.tag, vs[i], omit, omit', path + [f.tag]);
      }
      SameFieldBytes(fs, vs, i + 1, omit, omit', path);
    }
  }

  // ------------------------------------------------------------ same bytes, same choices

  /** A written value ends where a reader says it does, so equal bytes part at the same place. */
  lemma SameSplit(ty: Ty, tag: byte, v: Val, omit: Omit, omit': Omit, path: seq<nat>, rest: bytes, rest': bytes)
    requires WellFormed(ty) && HasType(ty, v) && Fits(ty, v)
    requires Write(ty, tag, v, omit, path) + rest == Write(ty, tag, v, omit', path) + rest'
    ensures Write(ty, tag, v, omit, path) == Write(ty, tag, v, omit', path) && rest == rest'
  {
    hide Write, ReadTagged, HasType, Fits, WellFormed;
    var w, w' := Write(ty, tag, v, omit, path), Write(ty, tag, v, omit', path);
    ReadTaggedOfWrite(ty, tag, v, omit, path, rest);
    ReadTaggedOfWrite(ty, tag, v, omit', path, rest');
    assert |w| == |w'|;
    assert w == (w + rest)[..|w|] && w' == (w' + rest')[..|w'|];
  }

  lemma {:induction false} SameChoicesOfBytes(ty: Ty, tag: byte, v: Val, omit: Omit, omit': Omit, path: seq<nat>)
    requires WellFormed(ty) && HasType(ty, v) && Fits(ty, v)
    requires Write(ty, tag, v, omit, path) == Write(ty, tag, v, omit', path)
    ensures SameChoices(ty, v, omit, omit', path)
    decreases ty, 1, 0
  {
    hide WriteHead, WriteSize, WriteInt, WriteText, WriteBlob, WriteList, WriteFields;
    match ty {
      case List(elem) =>
        var p := WriteHead(LIST, tag) + WriteSize(|v.vs|);
        SamePrefix(p, WriteList(elem, v.vs, 0, omit, path), WriteList(elem, v.vs, 0, omit', path));
        SameChoicesOfList(elem, v.vs, 0, omit, omit', path);
      case Struct(fs) =>
        var p, q := WriteHead(STRUCT_BEGIN, tag), WriteHead(STRUCT_END, 0);
        var w, w' := WriteFields(fs, v.fs, 0, omit, path), WriteFields(fs, v.fs, 0, omit', path);
        SameMiddle(p, w, w', q);
        SameChoicesOfFields(fs, v.fs, 0, omit, omit', path);
      case _ =>
    }
  }

  lemma SamePrefix(p: bytes, a: bytes, b: bytes)
    requires p + a == p + b
    ensures a == b
  {
    assert a == (p + a)[|p|..] && b == (p + b)[|p|..];
  }

  lemma SameMiddle(p: bytes, a: bytes, b: bytes, q: bytes)
    requires p + a + q == p + b + q
    ensures a == b
  {
    assert |a| == |b|;
    assert a == (p + a + q)[|p|..|p| + |a|] && b == (p + b + q)[|p|..|p| + |b|];
  }

  lemma {:induction false} SameChoicesOfList(elem: Ty, vs: seq<Val>, i: nat, omit: Omit, omit': Omit, path: seq<nat>)
    requires i <= |vs| && forall k | 0 <= k < |vs| :: HasType(elem, vs[k]) && Fits(elem, vs[k])
    requires WellFormed(elem)
    requires WriteList(elem, vs, i, omit, path) == WriteList(elem, vs, i, omit', path)
    ensures forall k | i <= k < |vs| :: SameChoices(elem, vs[k], omit, omit', path + [k])
    decreases elem, 2, |vs| - i
  {
    hide Write, SameChoices, Fits, WellFormed;
    if i < |vs| {
      SameSplit(elem, 0, vs[i], omit, omit', path + [i], WriteList(elem, vs, i + 1, omit, path),
                WriteList(elem, vs, i + 1, omit', path));
      SameChoicesOfBytes(elem, 0, vs[i], omit, omit', path + [i]);
      SameChoicesOfList(elem, vs, i + 1, omit, omit', path);
    }
  }

  /** A writer that leaves a field out and one that writes it never agree: what follows in the place of
      the field has a greater tag. */
  lemma LeftOutOrWritten(fs: seq<Field>, vs: seq<Val>, i: nat, omit: Omit, omit': Omit, path: seq<nat>)
    requires i < |fs| == |vs| && forall k | 0 <= k < |fs| :: HasType(fs[k].ty, vs[k])
    requires WellFormed(Struct(fs))
    requires Omitted(fs[i], vs[i], omit, path) && !Omitted(fs[i], vs[i], omit', path)
    ensures WriteFields(fs, vs, i, omit, path) != WriteFields(fs, vs, i, omit', path)
  {
    hide Write, Omitted, ReadHead, HasType;
    var f := fs[i];
    var b := WriteFields(fs, vs, i + 1, omit, path);
    FieldsAreBeyond(fs, vs, i + 1, omit, path, [], f.tag);
    assert b + [] == b;
    ReadHeadOfWrite(f.ty, f.tag, vs[i], omit', path + [f.tag], WriteFields(fs, vs, i + 1, omit', path));
    assert WriteFields(fs, vs, i, omit, path) == b;
  }

  lemma {:induction false} SameChoicesOfFields(fs: seq<Field>, vs: seq<Val>, i: nat, omit: Omit, omit': Omit,
                                               path: seq<nat>)
    requires i <= |fs| == |vs| && forall k | 0 <= k < |fs| :: HasType(fs[k].ty, vs[k]) && Fits(fs[k].ty, vs[k])
    requires WellFormed(Struct(fs))
    requires WriteFields(fs, vs, i, omit, path) == WriteFields(fs, vs, i, omit', path)
    ensures SameFieldChoices(fs, vs, i, omit, omit', path)
    decreases Struct(fs), 0, |fs| - i
  {
    hide Write, Omitted, Fits, SameChoices;
    if i < |fs| {
      var f := fs[i];
      var tail, tail' := WriteFields(fs, vs, i + 1, omit, path), WriteFields(fs, vs, i + 1, omit', path);
      if Omitted(f, vs[i], omit, path) != Omitted(f, vs[i], omit', path) {
        if Omitted(f, vs[i], omit, path) {
          LeftOutOrWritten(fs, vs, i, omit, omit', path);
        } else {
          LeftOutOrWritten(fs, vs, i, omit', omit, path);
        }
        assert false;
      } else if Omitted(f, vs[i], omit, path) {
        SamePrefix([], tail, tail');
      } else {
        SameSplit(f.ty, f.tag, vs[i], omit, omit', path + [f.tag], tail, tail');
        SameChoicesOfBytes(f.ty, f.tag, vs[i], omit, omit', path + [f.tag]);
      }
      SameChoicesOfFields(fs, vs, i + 1, omit, omit', path);
    }
  }

  /** Two writers encode a fitting value to the same bytes if and only if they make the same choices. */
  lemma SameEncoding(ty: Ty, v: Val, omit: Omit, omit': Omit)
    requires ty.Struct? && WellFormed(ty) && HasType(ty, v) && Fits(ty, v)
    ensures Encode(ty, v, omit) == Encode(ty, v, omit') <==> SameChoices(ty, v, omit, omit', [])
  {
    hide WriteFields, SameFieldChoices, WellFormed;
    if Encode(ty, v, omit) == Encode(ty, v, omit') {
      SameChoicesOfFields(ty.fields, v.fs, 0, omit, omit', []);
    }
    if SameChoices(ty, v, omit, omit', []) {
      SameFieldBytes(ty.fields, v.fs, 0, omit, omit', []);
    }
  }

  /** A schema without optional fields leaves a writer no choice. */
  ghost predicate AllRequired(ty: Ty) {
    match ty
    case List(elem) => AllRequired(elem)
    case Struct(fs) => forall i | 0 <= i < |fs| :: fs[i].required && AllRequired(fs[i].ty)
    case _ => true
  }

  lemma {:induction false} NoChoice(ty: Ty, v: Val, omit: Omit, omit': Omit, path: seq<nat>)
    requires HasType(ty, v) && AllRequired(ty)
    ensures SameChoices(ty, v, omit, omit', path)
  {
    match ty {
      case List(elem) =>
        forall i | 0 <= i < |v.vs|
          ensures SameChoices(elem, v.vs[i], omit, omit', path + [i])
        {
          NoChoice(elem, v.vs[i], omit, omit', path + [i]);
        }
      case Struct(fs) =>
        forall k | 0 <= k < |fs|
          ensures SameFieldChoice(fs[k], v.fs[k], omit, omit', path)
        {
          NoChoice(fs[k].ty, v.fs[k], omit, omit', path + [fs[k].tag]);
        }
      case _ =>
    }
  }
}
