/**
 The bytes that are hashed and sent: their layout, field by field, and whether they depend on which
 defaults a writer leaves out.
 */
module HashedBytes {
  import opened Base
  import opened TarsWire
  import opened TarsBytes
  import opened TarsCodec
  import opened TarsCanonical
  import opened Records
  import opened RecordCodec

  // ------------------------------------------------------------ layout

  function Concat(parts: seq<bytes>): bytes {
    if parts == [] then [] else parts[0] + Concat(parts[1..])
  }

  /** What each field of a record contributes. */
  function Parts(fs: seq<Field>, vs: seq<Val>, omit: Omit, path: seq<nat>): (parts: seq<bytes>)
    requires |fs| == |vs| && forall k | 0 <= k < |fs| :: HasType(fs[k].ty, vs[k])
    ensures |parts| == |fs|
  {
    seq(|fs|, k requires 0 <= k < |fs| => WriteField(fs[k], vs[k], omit, path))
  }

  lemma {:induction false} FieldsAreParts(fs: seq<Field>, vs: seq<Val>, i: nat, omit: Omit, path: seq<nat>)
    requires i <= |fs| == |vs| && forall k | 0 <= k < |fs| :: HasType(fs[k].ty, vs[k])
    ensures WriteFields(fs, vs, i, omit, path) == Concat(Parts(fs, vs, omit, path)[i..])
    decreases |fs| - i
  {
    hide WriteField, HasType;
    if i < |fs| {
      FieldsAreParts(fs, vs, i + 1, omit, path);
      var rest := Parts(fs, vs, omit, path)[i..];
      assert rest[0] == WriteField(fs[i], vs[i], omit, path) && rest[1..] == Parts(fs, vs, omit, path)[i + 1..];
    }
  }

  /** A record is laid out as parts, whole or between the marks of a nested structure, if each field
      contributes its part. */
  lemma Layout(ty: Ty, v: Val, omit: Omit, path: seq<nat>, parts: seq<bytes>)
    requires ty.Struct? && HasType(ty, v) && |parts| == |v.fs|
    requires forall k | 0 <= k < |parts| :: PartIs(ty, v, omit, path, k, parts[k])
    ensures path == [] ==> Encode(ty, v, omit) == Concat(parts)
    ensures forall tag :: Write(ty, tag, v, omit, path) == Lead(10, tag) + Concat(parts) + [11]
  {
    hide WriteField;
    FieldsAreParts(ty.fields, v.fs, 0, omit, path);
    assert forall k | 0 <= k < |parts| :: PartIs(ty, v, omit, path, k, parts[k]);
    assert Parts(ty.fields, v.fs, omit, path)[0..] == parts;
    forall tag
      ensures Write(ty, tag, v, omit, path) == Lead(10, tag) + Concat(parts) + [11]
    {
      NestedBytes(ty, tag, v, omit, path);
    }
  }

  ghost predicate PartIs(ty: Ty, v: Val, omit: Omit, path: seq<nat>, k: nat, part: bytes)
    requires ty.Struct? && HasType(ty, v) && k < |v.fs|
  {
    WriteField(ty.fields[k], v.fs[k], omit, path) == part
  }

  function OptionalText(b: bytes, tag: byte, omit: Omit, path: seq<nat>): bytes {
    if b == [] && omit(path + [tag]) then [] else WriteText(b, tag)
  }

  function OptionalBlob(b: bytes, tag: byte, omit: Omit, path: seq<nat>): bytes {
    if b == [] && omit(path + [tag]) then [] else WriteBlob(b, tag)
  }

  function OptionalInt(n: int64, tag: byte, omit: Omit, path: seq<nat>): bytes {
    if n == 0 && omit(path + [tag]) then [] else WriteInt(n, tag)
  }

  /** A nested record or a list. */
  function Optional(ty: Ty, v: Val, tag: byte, omit: Omit, path: seq<nat>): bytes
    requires HasType(ty, v)
  {
    if v == Default(ty) && omit(path + [tag]) then [] else Write(ty, tag, v, omit, path + [tag])
  }

  /** The part of any field. */
  lemma FieldPart(ty: Ty, v: Val, omit: Omit, path: seq<nat>, k: nat)
    requires ty.Struct? && HasType(ty, v) && k < |v.fs|
    ensures var (f, w) := (ty.fields[k], v.fs[k]);
      && HasType(f.ty, w)
      && PartIs(ty, v, omit, path, k,
                if f.required then Write(f.ty, f.tag, w, omit, path + [f.tag])
                else Optional(f.ty, w, f.tag, omit, path))
  {
  }

  function IntPart(f: Field, n: int64, omit: Omit, path: seq<nat>): bytes {
    if f.required then WriteInt(n, f.tag) else OptionalInt(n, f.tag, omit, path)
  }

  function TextPart(f: Field, b: bytes, omit: Omit, path: seq<nat>): bytes {
    if f.required then WriteText(b, f.tag) else OptionalText(b, f.tag, omit, path)
  }

  function BlobPart(f: Field, b: bytes, omit: Omit, path: seq<nat>): bytes {
    if f.required then WriteBlob(b, f.tag) else OptionalBlob(b, f.tag, omit, path)
  }

  /** The part of a field of a simple type. */
  lemma SimplePart(ty: Ty, v: Val, omit: Omit, path: seq<nat>, k: nat)
    requires ty.Struct? && HasType(ty, v) && k < |v.fs|
    ensures var (f, w) := (ty.fields[k], v.fs[k]);
      && (f.ty.I32? || f.ty.I64? || f.ty.U32? ==> w.VInt? && PartIs(ty, v, omit, path, k, IntPart(f, w.n, omit, path)))
      && (f.ty.Text? ==> w.VBytes? && PartIs(ty, v, omit, path, k, TextPart(f, w.b, omit, path)))
      && (f.ty.Blob? ==> w.VBytes? && PartIs(ty, v, omit, path, k, BlobPart(f, w.b, omit, path)))
  {
    hide WriteInt, WriteText, WriteBlob, WriteField;
    FieldPart(ty, v, omit, path, k);
  }

  /** The bytes that are hashed for a transaction. */
  lemma TransactionDataLayout(d: TransactionData, omit: Omit)
    ensures EncodeTransactionData(d, omit) == Concat([
      WriteInt(d.version, 1), WriteText(d.chainID, 2), WriteText(d.groupID, 3), WriteInt(d.blockLimit, 4),
      WriteText(d.nonce, 5), OptionalText(d.to, 6, omit, []), WriteBlob(d.input, 7)])
  {
    hide HasType, Write, WriteInt, WriteText, WriteBlob, WriteField, Encode, Concat;
    var v := d.ToVal();
    forall k | 0 <= k < 7 {
      SimplePart(TRANSACTION_DATA, v, omit, [], k);
    }
    Layout(TRANSACTION_DATA, v, omit, [], [
      WriteInt(d.version, 1), WriteText(d.chainID, 2), WriteText(d.groupID, 3), WriteInt(d.blockLimit, 4),
      WriteText(d.nonce, 5), OptionalText(d.to, 6, omit, []), WriteBlob(d.input, 7)]);
  }

  /** A whole transaction: the sender comes last, although declared fourth. */
  lemma TransactionLayout(t: Transaction, omit: Omit)
    ensures EncodeTransaction(t, omit) == Concat([
      Optional(TRANSACTION_DATA, t.data.ToVal(), 1, omit, []), OptionalBlob(t.dataHash, 2, omit, []),
      OptionalBlob(t.signature, 3, omit, []), OptionalInt(t.importTime, 4, omit, []),
      OptionalInt(t.attribute, 5, omit, []), OptionalText(t.source, 6, omit, []), OptionalBlob(t.sender, 7, omit, [])])
  {
    hide HasType, Write, WriteInt, WriteText, WriteBlob, WriteField, Encode, Concat, Optional,
      TransactionData.ToVal;
    var v := t.ToVal();
    FieldPart(TRANSACTION, v, omit, [], 0);
    forall k | 0 <= k < 7 {
      SimplePart(TRANSACTION, v, omit, [], k);
    }
    Layout(TRANSACTION, v, omit, [], [
      Optional(TRANSACTION_DATA, t.data.ToVal(), 1, omit, []), OptionalBlob(t.dataHash, 2, omit, []),
      OptionalBlob(t.signature, 3, omit, []), OptionalInt(t.importTime, 4, omit, []),
      OptionalInt(t.attribute, 5, omit, []), OptionalText(t.source, 6, omit, []), OptionalBlob(t.sender, 7, omit, [])]);
  }

  /** The bytes that are hashed for a receipt. */
  lemma ReceiptDataLayout(d: ReceiptData, omit: Omit)
    ensures EncodeReceiptData(d, omit) == Concat([
      WriteInt(d.version, 1), WriteText(d.gasUsed, 2), OptionalText(d.contractAddress, 3, omit, []),
      WriteInt(d.status, 4), OptionalBlob(d.output, 5, omit, []),
      Optional(List(LOG_ENTRY), FromLogEntries(d.logEntries), 6, omit, []), WriteInt(d.blockNumber, 7)])
  {
    hide HasType, Write, WriteInt, WriteText, WriteBlob, WriteField, Encode, Concat, Optional,
      FromLogEntries;
    var v := d.ToVal();
    FieldPart(RECEIPT_DATA, v, omit, [], 5);
    forall k | 0 <= k < 7 {
      SimplePart(RECEIPT_DATA, v, omit, [], k);
    }
    Layout(RECEIPT_DATA, v, omit, [], [
      WriteInt(d.version, 1), WriteText(d.gasUsed, 2), OptionalText(d.contractAddress, 3, omit, []),
      WriteInt(d.status, 4), OptionalBlob(d.output, 5, omit, []),
      Optional(List(LOG_ENTRY), FromLogEntries(d.logEntries), 6, omit, []), WriteInt(d.blockNumber, 7)]);
  }

  lemma LogEntryLayout(e: LogEntry, tag: byte, omit: Omit, path: seq<nat>)
    ensures Write(LOG_ENTRY, tag, e.ToVal(), omit, path) == Lead(10, tag) + Concat([
      OptionalText(e.address, 1, omit, path), Optional(List(Blob), FromBlobs(e.topic), 2, omit, path),
      OptionalBlob(e.data, 3, omit, path)]) + [11]
  {
    hide HasType, Write, WriteInt, WriteText, WriteBlob, WriteField, Encode, Concat, Optional, FromBlobs;
    var v := e.ToVal();
    FieldPart(LOG_ENTRY, v, omit, path, 1);
    forall k | 0 <= k < 3 {
      SimplePart(LOG_ENTRY, v, omit, path, k);
    }
    Layout(LOG_ENTRY, v, omit, path, [
      OptionalText(e.address, 1, omit, path), Optional(List(Blob), FromBlobs(e.topic), 2, omit, path),
      OptionalBlob(e.data, 3, omit, path)]);
  }

  lemma ReceiptLayout(r: Receipt, omit: Omit)
    ensures EncodeReceipt(r, omit) == Concat([
      Optional(RECEIPT_DATA, r.data.ToVal(), 1, omit, []), OptionalBlob(r.dataHash, 2, omit, [])])
  {
    hide HasType, Write, WriteInt, WriteText, WriteBlob, WriteField, Encode, Concat, Optional,
      ReceiptData.ToVal;
    var v := r.ToVal();
    FieldPart(RECEIPT, v, omit, [], 0);
    forall k | 0 <= k < 2 {
      SimplePart(RECEIPT, v, omit, [], k);
    }
    Layout(RECEIPT, v, omit, [], [
      Optional(RECEIPT_DATA, r.data.ToVal(), 1, omit, []), OptionalBlob(r.dataHash, 2, omit, [])]);
  }

  lemma MetaDataLayout(m: MetaData, tag: byte, omit: Omit, path: seq<nat>)
    ensures Write(META_DATA, tag, m.ToVal(), omit, path) == Lead(10, tag) + Concat([
      OptionalBlob(m.hash, 1, omit, path), OptionalText(m.to, 2, omit, path), OptionalText(m.source, 3, omit, path),
      OptionalInt(m.attribute, 4, omit, path)]) + [11]
  {
    hide HasType, Write, WriteInt, WriteText, WriteBlob, WriteField, Encode, Concat;
    var v := m.ToVal();
    forall k | 0 <= k < 4 {
      SimplePart(META_DATA, v, omit, path, k);
    }
    Layout(META_DATA, v, omit, path, [
      OptionalBlob(m.hash, 1, omit, path), OptionalText(m.to, 2, omit, path), OptionalText(m.source, 3, omit, path),
      OptionalInt(m.attribute, 4, omit, path)]);
  }

  lemma ParentInfoLayout(p: ParentInfo, tag: byte, omit: Omit, path: seq<nat>)
    ensures Write(PARENT_INFO, tag, p.ToVal(), omit, path) == Lead(10, tag) + Concat([
      WriteInt(p.blockNumber, 1), WriteBlob(p.blockHash, 2)]) + [11]
  {
    hide HasType, Write, WriteInt, WriteText, WriteBlob, WriteField, Encode, Concat;
    var v := p.ToVal();
    forall k | 0 <= k < 2 {
      SimplePart(PARENT_INFO, v, omit, path, k);
    }
    Layout(PARENT_INFO, v, omit, path, [
      WriteInt(p.blockNumber, 1), WriteBlob(p.blockHash, 2)]);
  }

  lemma SignatureLayout(s: Signature, tag: byte, omit: Omit, path: seq<nat>)
    ensures Write(SIGNATURE, tag, s.ToVal(), omit, path) == Lead(10, tag) + Concat([
      WriteInt(s.sealerIndex, 1), WriteBlob(s.signature, 2)]) + [11]
  {
    hide HasType, Write, WriteInt, WriteText, WriteBlob, WriteField, Encode, Concat;
    var v := s.ToVal();
    forall k | 0 <= k < 2 {
      SimplePart(SIGNATURE, v, omit, path, k);
    }
    Layout(SIGNATURE, v, omit, path, [
      WriteInt(s.sealerIndex, 1), WriteBlob(s.signature, 2)]);
  }

  /** The bytes that are hashed for a header: tags 2 to 13, none left out. */
  lemma HeaderDataLayout(d: HeaderData, omit: Omit)
    ensures EncodeHeaderData(d, omit) == Concat([
      WriteInt(d.version, 2), Write(List(PARENT_INFO), 3, FromParents(d.parentInfo), omit, [3]),
      WriteBlob(d.txsRoot, 4), WriteBlob(d.receiptRoot, 5), WriteBlob(d.stateRoot, 6), WriteInt(d.blockNumber, 7),
      WriteText(d.gasUsed, 8), WriteInt(d.timestamp, 9), WriteInt(d.sealer, 10),
      Write(List(Blob), 11, FromBlobs(d.sealerList), omit, [11]), WriteBlob(d.extraData, 12),
      Write(List(I64), 13, FromLongs(d.consensusWeights), omit, [13])])
  {
    hide HasType, Write, WriteInt, WriteText, WriteBlob, WriteField, Encode, Concat, FromParents,
      FromBlobs, FromLongs;
    var v := d.ToVal();
    assert [] + [3 as nat] == [3] && [] + [11 as nat] == [11] && [] + [13 as nat] == [13];
    FieldPart(HEADER_DATA, v, omit, [], 1);
    FieldPart(HEADER_DATA, v, omit, [], 9);
    FieldPart(HEADER_DATA, v, omit, [], 11);
    forall k | 0 <= k < 12 {
      SimplePart(HEADER_DATA, v, omit, [], k);
    }
    Layout(HEADER_DATA, v, omit, [], [
      WriteInt(d.version, 2), Write(List(PARENT_INFO), 3, FromParents(d.parentInfo), omit, [3]),
      WriteBlob(d.txsRoot, 4), WriteBlob(d.receiptRoot, 5), WriteBlob(d.stateRoot, 6), WriteInt(d.blockNumber, 7),
      WriteText(d.gasUsed, 8), WriteInt(d.timestamp, 9), WriteInt(d.sealer, 10),
      Write(List(Blob), 11, FromBlobs(d.sealerList), omit, [11]), WriteBlob(d.extraData, 12),
      Write(List(I64), 13, FromLongs(d.consensusWeights), omit, [13])]);
  }

  lemma HeaderLayout(h: Header, omit: Omit)
    ensures EncodeHeader(h, omit) == Concat([
      Optional(HEADER_DATA, h.data.ToVal(), 1, omit, []), OptionalBlob(h.dataHash, 2, omit, []),
      Optional(List(SIGNATURE), FromSignatures(h.signatureList), 3, omit, [])])
  {
    hide HasType, Write, WriteInt, WriteText, WriteBlob, WriteField, Encode, Concat, Optional,
      HeaderData.ToVal, FromSignatures;
    var v := h.ToVal();
    FieldPart(HEADER, v, omit, [], 0);
    FieldPart(HEADER, v, omit, [], 2);
    forall k | 0 <= k < 3 {
      SimplePart(HEADER, v, omit, [], k);
    }
    Layout(HEADER, v, omit, [], [
      Optional(HEADER_DATA, h.data.ToVal(), 1, omit, []), OptionalBlob(h.dataHash, 2, omit, []),
      Optional(List(SIGNATURE), FromSignatures(h.signatureList), 3, omit, [])]);
  }

  /** A block: the header is field 3, the texts of the nonces are field 8. */
  lemma BlockLayout(b: Block, omit: Omit)
    ensures EncodeBlock(b, omit) == Concat([
      OptionalInt(b.version, 1, omit, []), OptionalInt(b.kind, 2, omit, []),
      Optional(HEADER, b.blockHeader.ToVal(), 3, omit, []),
      Optional(List(TRANSACTION), FromTransactions(b.transactions), 4, omit, []),
      Optional(List(RECEIPT), FromReceipts(b.receipts), 5, omit, []),
      Optional(List(META_DATA), FromMetaDatas(b.transactionsMetaData), 6, omit, []),
      Optional(List(Blob), FromBlobs(b.receiptsHash), 7, omit, []),
      Optional(List(Text), FromBlobs(b.nonceList), 8, omit, [])])
  {
    hide HasType, Write, WriteInt, WriteText, WriteBlob, WriteField, Encode, Concat, Optional,
      Header.ToVal, FromTransactions, FromReceipts, FromMetaDatas, FromBlobs;
    var v := b.ToVal();
    FieldPart(BLOCK, v, omit, [], 2);
    FieldPart(BLOCK, v, omit, [], 3);
    FieldPart(BLOCK, v, omit, [], 4);
    FieldPart(BLOCK, v, omit, [], 5);
    FieldPart(BLOCK, v, omit, [], 6);
    FieldPart(BLOCK, v, omit, [], 7);
    forall k | 0 <= k < 8 {
      SimplePart(BLOCK, v, omit, [], k);
    }
    Layout(BLOCK, v, omit, [], [
      OptionalInt(b.version, 1, omit, []), OptionalInt(b.kind, 2, omit, []),
      Optional(HEADER, b.blockHeader.ToVal(), 3, omit, []),
      Optional(List(TRANSACTION), FromTransactions(b.transactions), 4, omit, []),
      Optional(List(RECEIPT), FromReceipts(b.receipts), 5, omit, []),
      Optional(List(META_DATA), FromMetaDatas(b.transactionsMetaData), 6, omit, []),
      Optional(List(Blob), FromBlobs(b.receiptsHash), 7, omit, []),
      Optional(List(Text), FromBlobs(b.nonceList), 8, omit, [])]);
  }

  /** For instance: version 1, chain "c", group "g", block limit 300, nonce "7", an empty recipient that the
      writer leaves out, and the two bytes 1 and 2 of input. */
  lemma TransactionExample(omit: Omit)
    requires omit([6])
    ensures EncodeTransactionData(TransactionData(1, [99], [103], 300, [55], [], [1, 2]), omit) ==
      [0x10, 1, 0x26, 1, 99, 0x36, 1, 103, 0x41, 1, 44, 0x56, 1, 55, 0x7D, 0, 0, 2, 1, 2]
  {
    hide WriteInt, WriteText, WriteBlob, WriteSize, EncodeTransactionData, Concat;
    var chain, group, nonce, input: bytes := [99], [103], [55], [1, 2];
    TransactionDataLayout(TransactionData(1, chain, group, 300, nonce, [], input), omit);
    assert [] + [6 as nat] == [6];
    IntegerBytes(1, 1);
    TextBytes(chain, 2);
    TextBytes(group, 3);
    IntegerBytes(300, 4);
    TextBytes(nonce, 5);
    BlobBytes(input, 7);
    SizeBytes(2);
    assert WriteInt(1, 1) + WriteText(chain, 2) + WriteText(group, 3) == [0x10, 1, 0x26, 1, 99, 0x36, 1, 103];
    ConcatSeven(WriteInt(1, 1), WriteText(chain, 2), WriteText(group, 3), WriteInt(300, 4), WriteText(nonce, 5), [],
                WriteBlob(input, 7));
  }

  lemma ConcatSeven(a: bytes, b: bytes, c: bytes, d: bytes, e: bytes, f: bytes, g: bytes)
    ensures Concat([a, b, c, d, e, f, g]) == a + b + c + d + e + f + g
  {
    assert Concat([g]) == g;
    assert Concat([e, f, g]) == e + (f + g);
    assert Concat([c, d, e, f, g]) == c + (d + (e + (f + g)));
  }

  // ------------------------------------------------------------ do two writers agree?

  /** The bytes hashed for a header do not depend on the writer: every field is required, at every depth. */
  lemma HeaderBytesAreCanonical(d: HeaderData, omit: Omit, omit': Omit)
    ensures EncodeHeaderData(d, omit) == EncodeHeaderData(d, omit')
  {
    hide HasType, HeaderData.ToVal, WriteFields, SameFieldChoices;
    var v := d.ToVal();
    assert AllRequired(PARENT_INFO);
    assert AllRequired(HEADER_DATA);
    NoChoice(HEADER_DATA, v, omit, omit', []);
    FieldsTyped(HEADER_DATA, v);
    SameFieldBytes(HEADER_DATA.fields, v.fs, 0, omit, omit', []);
  }

  /** The writers make the same choice at field k and inside it. */
  ghost predicate ChoiceAt(ty: Ty, v: Val, k: nat, omit: Omit, omit': Omit, path: seq<nat>)
    requires ty.Struct? && HasType(ty, v) && k < |v.fs|
  {
    SameFieldChoice(ty.fields[k], v.fs[k], omit, omit', path)
  }

  lemma ChoicesOfFields(ty: Ty, v: Val, omit: Omit, omit': Omit, path: seq<nat>)
    requires ty.Struct? && HasType(ty, v)
    ensures SameChoices(ty, v, omit, omit', path) <==>
      forall k | 0 <= k < |v.fs| :: ChoiceAt(ty, v, k, omit, omit', path)
  {
    hide SameFieldChoice;
    if forall k | 0 <= k < |v.fs| :: ChoiceAt(ty, v, k, omit, omit', path) {
      forall k | 0 <= k < |ty.fields|
        ensures SameFieldChoice(ty.fields[k], v.fs[k], omit, omit', path)
      {
        assert ChoiceAt(ty, v, k, omit, omit', path);
      }
    }
  }

  /** A writer has a choice at an optional field that holds its default, and else only inside it. */
  lemma FieldChoice(ty: Ty, v: Val, k: nat, omit: Omit, omit': Omit, path: seq<nat>)
    requires ty.Struct? && HasType(ty, v) && k < |v.fs|
    ensures var (f, w) := (ty.fields[k], v.fs[k]);
      && HasType(f.ty, w)
      && (f.required || w != Default(f.ty) ==>
            (ChoiceAt(ty, v, k, omit, omit', path) <==> SameChoices(f.ty, w, omit, omit', path + [f.tag])))
      && (!f.required && w == Default(f.ty) && SameChoices(f.ty, w, omit, omit', path + [f.tag]) ==>
            (ChoiceAt(ty, v, k, omit, omit', path) <==> omit(path + [f.tag]) == omit'(path + [f.tag])))
  {
  }

  /** A simple value has nothing inside, so there the choice at the field is all. */
  lemma SimpleChoice(ty: Ty, v: Val, k: nat, omit: Omit, omit': Omit, path: seq<nat>)
    requires ty.Struct? && HasType(ty, v) && k < |v.fs|
    requires ty.fields[k].ty in {I32, I64, Text, Blob}
    ensures ChoiceAt(ty, v, k, omit, omit', path) <==>
      ty.fields[k].required || v.fs[k] !in {VInt(0), VBytes([])}
      || omit(path + [ty.fields[k].tag]) == omit'(path + [ty.fields[k].tag])
  {
    var f, w := ty.fields[k], v.fs[k];
    FieldChoice(ty, v, k, omit, omit', path);
    assert SameChoices(f.ty, w, omit, omit', path + [f.tag]);
    assert w == Default(f.ty) <==> w in {VInt(0), VBytes([])};
  }

  /** Those hashed for a transaction do, in one case: an empty recipient may be written or left out. */
  lemma TransactionBytesAreCanonical(d: TransactionData, omit: Omit, omit': Omit)
    requires DataFits(d)
    ensures EncodeTransactionData(d, omit) == EncodeTransactionData(d, omit') <==>
      d.to != [] || omit([6]) == omit'([6])
  {
    hide HasType, Encode, DataFits, SameChoices, ChoiceAt;
    var T, v := TRANSACTION_DATA, d.ToVal();
    TransactionWellFormed();
    DataFitsVal(d);
    SameEncoding(T, v, omit, omit');
    ChoicesOfFields(T, v, omit, omit', []);
    forall k | 0 <= k < 7
      ensures ChoiceAt(T, v, k, omit, omit', []) <==> k != 5 || d.to != [] || omit([6]) == omit'([6])
    {
      SimpleChoice(T, v, k, omit, omit', []);
      assert [] + [6 as nat] == [6];
    }
    assert ChoiceAt(T, v, 5, omit, omit', []) <==> d.to != [] || omit([6]) == omit'([6]);
  }

  /** The choices inside a log entry, all of whose fields are optional. */
  predicate SameLogChoices(e: LogEntry, omit: Omit, omit': Omit, path: seq<nat>) {
    && (e.address != [] || omit(path + [1]) == omit'(path + [1]))
    && (e.topic != [] || omit(path + [2]) == omit'(path + [2]))
    && (e.data != [] || omit(path + [3]) == omit'(path + [3]))
  }

  lemma LogChoices(e: LogEntry, omit: Omit, omit': Omit, path: seq<nat>)
    ensures SameChoices(LOG_ENTRY, e.ToVal(), omit, omit', path) <==> SameLogChoices(e, omit, omit', path)
  {
    hide HasType, SameFieldChoices, ChoiceAt, FromBlobs;
    var T, v := LOG_ENTRY, e.ToVal();
    ChoicesOfFields(T, v, omit, omit', path);
    SimpleChoice(T, v, 0, omit, omit', path);
    FieldChoice(T, v, 1, omit, omit', path);
    SimpleChoice(T, v, 2, omit, omit', path);
    assert FromBlobs(e.topic) == VList([]) <==> e.topic == [];
    assert ChoiceAt(T, v, 1, omit, omit', path) <==> e.topic != [] || omit(path + [2]) == omit'(path + [2]);
  }

  lemma LogListChoices(es: seq<LogEntry>, omit: Omit, omit': Omit, path: seq<nat>)
    ensures SameChoices(List(LOG_ENTRY), FromLogEntries(es), omit, omit', path) <==>
      forall i | 0 <= i < |es| :: SameLogChoices(es[i], omit, omit', path + [i])
  {
    hide HasType, SameLogChoices, LogEntry.ToVal;
    var vs := FromLogEntries(es).vs;
    forall i | 0 <= i < |es|
      ensures SameChoices(LOG_ENTRY, vs[i], omit, omit', path + [i]) <==> SameLogChoices(es[i], omit, omit', path + [i])
    {
      LogChoices(es[i], omit, omit', path + [i]);
    }
  }

  ghost predicate SameReceiptChoices(d: ReceiptData, omit: Omit, omit': Omit) {
    && (d.contractAddress != [] || omit([3]) == omit'([3]))
    && (d.output != [] || omit([5]) == omit'([5]))
    && (d.logEntries != [] || omit([6]) == omit'([6]))
    && (forall i | 0 <= i < |d.logEntries| :: SameLogChoices(d.logEntries[i], omit, omit', [6, i]))
  }

  lemma LogsChoice(d: ReceiptData, omit: Omit, omit': Omit)
    ensures d.ToVal().VStruct? && |d.ToVal().fs| == 7
    ensures ChoiceAt(RECEIPT_DATA, d.ToVal(), 5, omit, omit', []) <==>
      if d.logEntries == [] then omit([6]) == omit'([6])
      else forall i | 0 <= i < |d.logEntries| :: SameLogChoices(d.logEntries[i], omit, omit', [6, i])
  {
    hide HasType, ChoiceAt, SameChoices, SameLogChoices, LogEntry.ToVal;
    FieldChoice(RECEIPT_DATA, d.ToVal(), 5, omit, omit', []);
    assert [] + [6 as nat] == [6];
    LogListChoices(d.logEntries, omit, omit', [6]);
    assert forall i | 0 <= i < |d.logEntries| :: [6 as nat] + [i] == [6, i];
    assert FromLogEntries(d.logEntries) == VList([]) <==> d.logEntries == [];
  }

  /** Those hashed for a receipt depend on the writer where the contract address, the output, the list of
      log entries, or a field of a log entry is empty, and only there. */
  lemma ReceiptBytesAreCanonical(d: ReceiptData, omit: Omit, omit': Omit)
    requires ReceiptDataFits(d)
    ensures EncodeReceiptData(d, omit) == EncodeReceiptData(d, omit') <==> SameReceiptChoices(d, omit, omit')
  {
    hide HasType, Encode, ReceiptDataFits, SameChoices, ChoiceAt, SameLogChoices, FromLogEntries;
    var T, v := RECEIPT_DATA, d.ToVal();
    ReceiptWellFormed();
    ReceiptDataFitsVal(d);
    SameEncoding(T, v, omit, omit');
    ChoicesOfFields(T, v, omit, omit', []);
    LogsChoice(d, omit, omit');
    forall k | 0 <= k < 7 && k != 5
      ensures ChoiceAt(T, v, k, omit, omit', []) <==>
        && (k == 2 ==> d.contractAddress != [] || omit([3]) == omit'([3]))
        && (k == 4 ==> d.output != [] || omit([5]) == omit'([5]))
    {
      SimpleChoice(T, v, k, omit, omit', []);
      assert [] + [3 as nat] == [3] && [] + [5 as nat] == [5];
    }
    assert ChoiceAt(T, v, 2, omit, omit', []) && ChoiceAt(T, v, 4, omit, omit', []) <==>
      (d.contractAddress != [] || omit([3]) == omit'([3])) && (d.output != [] || omit([5]) == omit'([5]));
  }
}

/** Nodes with the same hash function whose writers leave out different defaults. */
module BetweenNodes {
  import opened Base
  import opened Environment
  import opened Records
  import opened RecordCodec
  import opened HashedBytes
  import HeaderState
  import TransactionState
  import ReceiptState

  /** A header memo that is right for one node is right for all. */
  lemma HeaderMemoTravels(env: Env, env': Env, h: Header)
    requires env.hash == env'.hash
    ensures HeaderState.MemoCoherent(env, h) <==> HeaderState.MemoCoherent(env', h)
  {
    hide EncodeHeaderData;
    HeaderBytesAreCanonical(h.data, env.omit, env'.omit);
  }

  /** A filled transaction memo that is right for one node is right for another exactly if the recipient
      is not empty or both writers treat an empty one alike, unless the hash collides on what they write. */
  lemma TransactionMemoTravels(env: Env, env': Env, t: Transaction)
    requires env.hash == env'.hash && DataFits(t.data)
    requires TransactionState.MemoCoherent(env, t) && t.dataHash != []
    requires var here, there := TransactionState.DataBytes(env, t), TransactionState.DataBytes(env', t);
      env.hash(here) == env.hash(there) ==> here == there
    ensures TransactionState.MemoCoherent(env', t) <==> t.data.to != [] || env.omit([6]) == env'.omit([6])
  {
    hide EncodeTransactionData, DataFits;
    TransactionBytesAreCanonical(t.data, env.omit, env'.omit);
  }

  /** Likewise a receipt memo, exactly if both writers treat the empty optional fields of the receipt and
      of its log entries alike. */
  lemma ReceiptMemoTravels(env: Env, env': Env, r: Receipt)
    requires env.hash == env'.hash && ReceiptDataFits(r.data)
    requires ReceiptState.ReceiptMemoCoherent(env, r) && r.dataHash != []
    requires var here, there := EncodeReceiptData(r.data, env.omit), EncodeReceiptData(r.data, env'.omit);
      env.hash(here) == env.hash(there) ==> here == there
    ensures ReceiptState.ReceiptMemoCoherent(env', r) <==> SameReceiptChoices(r.data, env.omit, env'.omit)
  {
    hide EncodeReceiptData, ReceiptDataFits, SameReceiptChoices;
    ReceiptBytesAreCanonical(r.data, env.omit, env'.omit);
  }
}
