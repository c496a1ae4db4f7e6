/**
 The codec of whole records: what encode and decode of the wrapper classes compute. Everything is
 stated for every writer, that is, for every choice of the default-valued optional fields it
 leaves out.
 */
module RecordCodec {
  import opened Base
  import opened TarsWire
  import opened TarsCodec
  import opened Records

  // ------------------------------------------------------------ one level of a schema at a time

  lemma ScalarsWellFormed()
    ensures WellFormed(I32) && WellFormed(U32) && WellFormed(I64) && WellFormed(Text) && WellFormed(Blob)
    ensures forall e: Ty :: WellFormed(List(e)) == WellFormed(e)
  {
  }

  lemma StructWellFormed(fs: seq<Field>)
    requires forall i, j | 0 <= i < j < |fs| :: fs[i].tag < fs[j].tag
    requires forall i | 0 <= i < |fs| :: WellFormed(fs[i].ty)
    ensures WellFormed(Struct(fs))
  {
  }

  lemma TransactionWellFormed()
    ensures WellFormed(TRANSACTION_DATA) && WellFormed(TRANSACTION)
  {
    hide WellFormed;
    ScalarsWellFormed();
    StructWellFormed(TRANSACTION_DATA.fields);
    StructWellFormed(TRANSACTION.fields);
  }

  lemma ReceiptWellFormed()
    ensures WellFormed(RECEIPT_DATA) && WellFormed(RECEIPT)
  {
    hide WellFormed;
    ScalarsWellFormed();
    StructWellFormed(LOG_ENTRY.fields);
    StructWellFormed(RECEIPT_DATA.fields);
    StructWellFormed(RECEIPT.fields);
  }

  lemma HeaderWellFormed()
    ensures WellFormed(HEADER_DATA) && WellFormed(HEADER)
  {
    hide WellFormed;
    ScalarsWellFormed();
    StructWellFormed(PARENT_INFO.fields);
    StructWellFormed(SIGNATURE.fields);
    StructWellFormed(HEADER_DATA.fields);
    StructWellFormed(HEADER.fields);
  }

  lemma BlockWellFormed()
    ensures WellFormed(BLOCK)
  {
    TransactionWellFormed();
    ReceiptWellFormed();
    HeaderWellFormed();
    hide WellFormed;
    ScalarsWellFormed();
    StructWellFormed(META_DATA.fields);
    StructWellFormed(BLOCK.fields);
  }

  lemma FitsStruct(ty: Ty, fs: seq<Val>)
    requires ty.Struct? && HasType(ty, VStruct(fs))
    ensures Fits(ty, VStruct(fs)) <==> forall i | 0 <= i < |fs| :: FieldFits(ty, fs, i)
  {
    if forall i | 0 <= i < |fs| :: FieldFits(ty, fs, i) {
      forall i | 0 <= i < |fs|
        ensures Fits(ty.fields[i].ty, fs[i])
      {
        assert FieldFits(ty, fs, i);
      }
    }
  }

  ghost predicate FieldFits(ty: Ty, fs: seq<Val>, i: nat)
    requires ty.Struct? && HasType(ty, VStruct(fs)) && i < |fs|
  {
    Fits(ty.fields[i].ty, fs[i])
  }

  lemma SimpleFieldFits(ty: Ty, fs: seq<Val>, i: nat)
    requires ty.Struct? && HasType(ty, VStruct(fs)) && i < |fs|
    ensures var t := ty.fields[i].ty;
      && (t.I32? || t.I64? || t.U32? ==> FieldFits(ty, fs, i))
      && (t.Text? ==> fs[i].VBytes? && (FieldFits(ty, fs, i) <==> |fs[i].b| < 0x1_0000_0000))
      && (t.Blob? ==> fs[i].VBytes? && (FieldFits(ty, fs, i) <==> |fs[i].b| < 0x8000_0000))
  {
  }

  predicate BlobsFit(bs: seq<bytes>) {
    |bs| < 0x8000_0000 && forall i | 0 <= i < |bs| :: |bs[i]| < 0x8000_0000
  }

  lemma BlobsFitVal(bs: seq<bytes>)
    ensures Fits(List(Blob), FromBlobs(bs)) <==> BlobsFit(bs)
  {
    ListFits(Blob, FromBlobs(bs).vs);
    assert forall i | 0 <= i < |bs| :: ElementFits(Blob, FromBlobs(bs).vs, i) <==> |bs[i]| < 0x8000_0000;
  }

  lemma ListFits(elem: Ty, vs: seq<Val>)
    requires HasType(List(elem), VList(vs))
    ensures Fits(List(elem), VList(vs)) <==>
      |vs| < 0x8000_0000 && forall i | 0 <= i < |vs| :: ElementFits(elem, vs, i)
  {
    if forall i | 0 <= i < |vs| :: ElementFits(elem, vs, i) {
      forall i | 0 <= i < |vs|
        ensures Fits(elem, vs[i])
      {
        assert ElementFits(elem, vs, i);
      }
    }
  }

  ghost predicate ElementFits(elem: Ty, vs: seq<Val>, i: nat)
    requires HasType(List(elem), VList(vs)) && i < |vs|
  {
    Fits(elem, vs[i])
  }

  // ------------------------------------------------------------ records after resetDefautlt

  const DEFAULT_TRANSACTION_DATA := TransactionData(0, [], [], 0, [], [], [])
  const DEFAULT_TRANSACTION := Transaction(DEFAULT_TRANSACTION_DATA, [], [], 0, 0, [], [])
  const DEFAULT_RECEIPT_DATA := ReceiptData(0, [], [], 0, [], [], 0)
  const DEFAULT_RECEIPT := Receipt(DEFAULT_RECEIPT_DATA, [])
  const DEFAULT_HEADER_DATA := HeaderData(0, [], [], [], [], 0, [], 0, 0, [], [], [])
  const DEFAULT_HEADER := Header(DEFAULT_HEADER_DATA, [], [])
  const DEFAULT_BLOCK := Block(0, 0, DEFAULT_HEADER, [], [], [], [], [])

  // ------------------------------------------------------------ transactions

  function EncodeTransactionData(d: TransactionData, omit: Omit): bytes {
    Encode(TRANSACTION_DATA, d.ToVal(), omit)
  }

  function EncodeTransaction(t: Transaction, omit: Omit): bytes {
    Encode(TRANSACTION, t.ToVal(), omit)
  }

  function DecodeTransaction(b: bytes): Result<Transaction> {
    var v :- Decode(TRANSACTION, b);
    Ok(Transaction.From(v))
  }

  predicate DataFits(d: TransactionData) {
    && |d.chainID| < 0x1_0000_0000 && |d.groupID| < 0x1_0000_0000 && |d.nonce| < 0x1_0000_0000
    && |d.to| < 0x1_0000_0000 && |d.input| < 0x8000_0000
  }

  /** Every string and byte vector of the transaction is short enough for its length field. */
  predicate TransactionFits(t: Transaction) {
    && DataFits(t.data) && |t.dataHash| < 0x8000_0000 && |t.signature| < 0x8000_0000
    && |t.source| < 0x1_0000_0000 && |t.sender| < 0x8000_0000
  }

  lemma DataFitsVal(d: TransactionData)
    ensures Fits(TRANSACTION_DATA, d.ToVal()) <==> DataFits(d)
  {
    hide HasType, Fits;
    var T, fs := TRANSACTION_DATA, d.ToVal().fs;
    assert VStruct(fs) == d.ToVal();
    FitsStruct(T, fs);
    SimpleFieldFits(T, fs, 0);
    SimpleFieldFits(T, fs, 1);
    SimpleFieldFits(T, fs, 2);
    SimpleFieldFits(T, fs, 3);
    SimpleFieldFits(T, fs, 4);
    SimpleFieldFits(T, fs, 5);
    SimpleFieldFits(T, fs, 6);
  }

  lemma TransactionFitsVal(t: Transaction)
    ensures Fits(TRANSACTION, t.ToVal()) <==> TransactionFits(t)
  {
    hide HasType, Fits, TransactionData.ToVal, DataFits;
    DataFitsVal(t.data);
    var T, fs := TRANSACTION, t.ToVal().fs;
    assert VStruct(fs) == t.ToVal();
    FitsStruct(T, fs);
    assert FieldFits(T, fs, 0) <==> DataFits(t.data);
    SimpleFieldFits(T, fs, 1);
    SimpleFieldFits(T, fs, 2);
    SimpleFieldFits(T, fs, 3);
    SimpleFieldFits(T, fs, 4);
    SimpleFieldFits(T, fs, 5);
    SimpleFieldFits(T, fs, 6);
  }

  /** Decoding an encoded transaction gives it back exactly when its lengths fit. */
  lemma TransactionRoundTrip(t: Transaction, omit: Omit)
    ensures DecodeTransaction(EncodeTransaction(t, omit)) == Ok(t) <==> TransactionFits(t)
  {
    hide HasType, Encode, Decode, Transaction.ToVal, Transaction.From, TransactionFits;
    TransactionWellFormed();
    TransactionFitsVal(t);
    DecodeOfEncode(TRANSACTION, t.ToVal(), omit);
    TransactionForth(t);
    var r := Decode(TRANSACTION, EncodeTransaction(t, omit));
    if r.Ok? {
      TransactionBack(r.value);
    }
  }

  /** A decoded transaction always fits, so it can be encoded again. */
  lemma DecodedTransactionFits(b: bytes)
    requires DecodeTransaction(b).Ok?
    ensures TransactionFits(DecodeTransaction(b).value)
  {
    hide HasType, Decode, Transaction.ToVal, Transaction.From, TransactionFits;
    TransactionBack(Decode(TRANSACTION, b).value);
    TransactionFitsVal(DecodeTransaction(b).value);
  }

  lemma TransactionDataInjective(d: TransactionData, d': TransactionData, omit: Omit)
    requires DataFits(d) && DataFits(d')
    requires EncodeTransactionData(d, omit) == EncodeTransactionData(d', omit)
    ensures d == d'
  {
    hide HasType, Encode, TransactionData.ToVal, TransactionData.From, DataFits;
    TransactionWellFormed();
    DataFitsVal(d);
    DataFitsVal(d');
    EncodeInjective(TRANSACTION_DATA, d.ToVal(), d'.ToVal(), omit, omit);
    TransactionDataForth(d);
    TransactionDataForth(d');
  }

  /** An empty buffer is never the encoding of transaction data: the version is always written. */
  lemma TransactionDataNonEmpty(d: TransactionData, omit: Omit)
    ensures EncodeTransactionData(d, omit) != []
  {
    hide TransactionData.ToVal, WriteFields, HasType;
    FieldsTyped(TRANSACTION_DATA, d.ToVal());
    WrittenFieldShows(TRANSACTION_DATA.fields, d.ToVal().fs, 0, 0, omit, []);
  }

  /** Nor is it the encoding of a transaction whose hash is filled in. */
  lemma HashedTransactionNonEmpty(t: Transaction, omit: Omit)
    requires t.dataHash != []
    ensures EncodeTransaction(t, omit) != []
  {
    assert t.ToVal().fs[1] == VBytes(t.dataHash);
    hide Transaction.ToVal, WriteFields, HasType;
    FieldsTyped(TRANSACTION, t.ToVal());
    WrittenFieldShows(TRANSACTION.fields, t.ToVal().fs, 0, 1, omit, []);
  }

  lemma FieldsTyped(ty: Ty, v: Val)
    requires ty.Struct? && HasType(ty, v)
    ensures v.VStruct? && |v.fs| == |ty.fields| && forall i | 0 <= i < |v.fs| :: HasType(ty.fields[i].ty, v.fs[i])
  {
  }

  // ------------------------------------------------------------ receipts

  function EncodeReceiptData(d: ReceiptData, omit: Omit): bytes {
    Encode(RECEIPT_DATA, d.ToVal(), omit)
  }

  function EncodeReceipt(r: Receipt, omit: Omit): bytes {
    Encode(RECEIPT, r.ToVal(), omit)
  }

  function DecodeReceipt(b: bytes): Result<Receipt> {
    var v :- Decode(RECEIPT, b);
    Ok(Receipt.From(v))
  }

  predicate LogFits(e: LogEntry) {
    |e.address| < 0x1_0000_0000 && BlobsFit(e.topic) && |e.data| < 0x8000_0000
  }

  predicate LogsFit(es: seq<LogEntry>) {
    |es| < 0x8000_0000 && forall i | 0 <= i < |es| :: LogFits(es[i])
  }

  predicate ReceiptDataFits(d: ReceiptData) {
    && |d.gasUsed| < 0x1_0000_0000 && |d.contractAddress| < 0x1_0000_0000 && |d.output| < 0x8000_0000
    && LogsFit(d.logEntries)
  }

  /** Every list, string and byte vector of the receipt is short enough for its length field. */
  predicate ReceiptFits(r: Receipt) {
    ReceiptDataFits(r.data) && |r.dataHash| < 0x8000_0000
  }

  lemma LogFitsVal(e: LogEntry)
    ensures Fits(LOG_ENTRY, e.ToVal()) <==> LogFits(e)
  {
    hide HasType, BlobsFit, FromBlobs;
    var T, fs := LOG_ENTRY, e.ToVal().fs;
    assert VStruct(fs) == e.ToVal();
    FitsStruct(T, fs);
    BlobsFitVal(e.topic);
    assert FieldFits(T, fs, 0) <==> |e.address| < 0x1_0000_0000;
    assert FieldFits(T, fs, 1) <==> BlobsFit(e.topic);
    assert FieldFits(T, fs, 2) <==> |e.data| < 0x8000_0000;
  }

  lemma LogsFitVal(es: seq<LogEntry>)
    ensures Fits(List(LOG_ENTRY), FromLogEntries(es)) <==> LogsFit(es)
  {
    hide HasType, LogFits, LogEntry.ToVal;
    var vs := FromLogEntries(es).vs;
    ListFits(LOG_ENTRY, vs);
    forall i | 0 <= i < |es|
      ensures ElementFits(LOG_ENTRY, vs, i) <==> LogFits(es[i])
    {
      LogFitsVal(es[i]);
    }
  }

  lemma ReceiptDataFitsVal(d: ReceiptData)
    ensures Fits(RECEIPT_DATA, d.ToVal()) <==> ReceiptDataFits(d)
  {
    hide HasType, Fits, LogsFit, FromLogEntries;
    var T, fs := RECEIPT_DATA, d.ToVal().fs;
    assert VStruct(fs) == d.ToVal();
    FitsStruct(T, fs);
    LogsFitVal(d.logEntries);
    assert FieldFits(T, fs, 5) <==> LogsFit(d.logEntries);
    SimpleFieldFits(T, fs, 0);
    SimpleFieldFits(T, fs, 1);
    SimpleFieldFits(T, fs, 2);
    SimpleFieldFits(T, fs, 3);
    SimpleFieldFits(T, fs, 4);
    SimpleFieldFits(T, fs, 6);
  }

  lemma ReceiptFitsVal(r: Receipt)
    ensures Fits(RECEIPT, r.ToVal()) <==> ReceiptFits(r)
  {
    hide HasType, ReceiptData.ToVal, ReceiptDataFits;
    ReceiptDataFitsVal(r.data);
    var T, fs := RECEIPT, r.ToVal().fs;
    assert VStruct(fs) == r.ToVal();
    FitsStruct(T, fs);
    assert FieldFits(T, fs, 0) <==> ReceiptDataFits(r.data);
    assert FieldFits(T, fs, 1) <==> |r.dataHash| < 0x8000_0000;
  }

  lemma ReceiptRoundTrip(r: Receipt, omit: Omit)
    ensures DecodeReceipt(EncodeReceipt(r, omit)) == Ok(r) <==> ReceiptFits(r)
  {
    hide HasType, Encode, Decode, Receipt.ToVal, Receipt.From, Fits, ReceiptFits;
    ReceiptWellFormed();
    ReceiptFitsVal(r);
    DecodeOfEncode(RECEIPT, r.ToVal(), omit);
    ReceiptForth(r);
    var d := Decode(RECEIPT, EncodeReceipt(r, omit));
    if d.Ok? {
      ReceiptBack(d.value);
    }
  }

  lemma DecodedReceiptFits(b: bytes)
    requires DecodeReceipt(b).Ok?
    ensures ReceiptFits(DecodeReceipt(b).value)
  {
    hide HasType, Decode, Receipt.ToVal, Receipt.From, ReceiptFits;
    ReceiptBack(Decode(RECEIPT, b).value);
    ReceiptFitsVal(DecodeReceipt(b).value);
  }

  lemma ReceiptDataInjective(d: ReceiptData, d': ReceiptData, omit: Omit)
    requires ReceiptDataFits(d) && ReceiptDataFits(d')
    requires EncodeReceiptData(d, omit) == EncodeReceiptData(d', omit)
    ensures d == d'
  {
    hide HasType, Encode, ReceiptData.ToVal, ReceiptData.From, ReceiptDataFits;
    ReceiptWellFormed();
    ReceiptDataFitsVal(d);
    ReceiptDataFitsVal(d');
    EncodeInjective(RECEIPT_DATA, d.ToVal(), d'.ToVal(), omit, omit);
    ReceiptDataForth(d);
    ReceiptDataForth(d');
  }

  // ------------------------------------------------------------ headers

  function EncodeHeaderData(d: HeaderData, omit: Omit): bytes {
    Encode(HEADER_DATA, d.ToVal(), omit)
  }

  function EncodeHeader(h: Header, omit: Omit): bytes {
    Encode(HEADER, h.ToVal(), omit)
  }

  function DecodeHeader(b: bytes): Result<Header> {
    var v :- Decode(HEADER, b);
    Ok(Header.From(v))
  }

  predicate ParentsFit(ps: seq<ParentInfo>) {
    |ps| < 0x8000_0000 && forall i | 0 <= i < |ps| :: |ps[i].blockHash| < 0x8000_0000
  }

  predicate SignaturesFit(ss: seq<Signature>) {
    |ss| < 0x8000_0000 && forall i | 0 <= i < |ss| :: |ss[i].signature| < 0x8000_0000
  }

  predicate HeaderDataFits(d: HeaderData) {
    && ParentsFit(d.parentInfo) && |d.txsRoot| < 0x8000_0000 && |d.receiptRoot| < 0x8000_0000
    && |d.stateRoot| < 0x8000_0000 && |d.gasUsed| < 0x1_0000_0000 && BlobsFit(d.sealerList)
    && |d.extraData| < 0x8000_0000 && |d.consensusWeights| < 0x8000_0000
  }

  /** Every list, string and byte vector of the header is short enough for its length field. */
  predicate HeaderFits(h: Header) {
    HeaderDataFits(h.data) && |h.dataHash| < 0x8000_0000 && SignaturesFit(h.signatureList)
  }

  lemma PairFits(v: Val)
    requires HasType(PARENT_INFO, v)
    ensures HasType(SIGNATURE, v)
    ensures v.fs[1].VBytes?
    ensures Fits(PARENT_INFO, v) <==> |v.fs[1].b| < 0x8000_0000
    ensures Fits(SIGNATURE, v) <==> |v.fs[1].b| < 0x8000_0000
  {
    assert PARENT_INFO == SIGNATURE;
    FitsStruct(PARENT_INFO, v.fs);
    assert FieldFits(PARENT_INFO, v.fs, 0);
    assert FieldFits(PARENT_INFO, v.fs, 1) <==> |v.fs[1].b| < 0x8000_0000;
  }

  lemma PairListsFit(ps: seq<ParentInfo>, ss: seq<Signature>)
    ensures Fits(List(PARENT_INFO), FromParents(ps)) <==> ParentsFit(ps)
    ensures Fits(List(SIGNATURE), FromSignatures(ss)) <==> SignaturesFit(ss)
  {
    hide HasType;
    assert PARENT_INFO == SIGNATURE;
    var vs, ws := FromParents(ps).vs, FromSignatures(ss).vs;
    ListFits(PARENT_INFO, vs);
    ListFits(SIGNATURE, ws);
    forall i | 0 <= i < |ps|
      ensures ElementFits(PARENT_INFO, vs, i) <==> |ps[i].blockHash| < 0x8000_0000
    {
      PairFits(vs[i]);
    }
    forall i | 0 <= i < |ss|
      ensures ElementFits(SIGNATURE, ws, i) <==> |ss[i].signature| < 0x8000_0000
    {
      PairFits(ws[i]);
    }
  }

  lemma HeaderDataFitsVal(d: HeaderData)
    ensures Fits(HEADER_DATA, d.ToVal()) <==> HeaderDataFits(d)
  {
    hide HasType, Fits, ParentsFit, BlobsFit, FromParents, FromBlobs, FromLongs;
    var T, fs := HEADER_DATA, d.ToVal().fs;
    assert VStruct(fs) == d.ToVal();
    FitsStruct(T, fs);
    PairListsFit(d.parentInfo, []);
    BlobsFitVal(d.sealerList);
    LongsFitVal(d.consensusWeights);
    SimpleFieldFits(T, fs, 0);
    SimpleFieldFits(T, fs, 2);
    SimpleFieldFits(T, fs, 3);
    SimpleFieldFits(T, fs, 4);
    SimpleFieldFits(T, fs, 5);
    SimpleFieldFits(T, fs, 6);
    SimpleFieldFits(T, fs, 7);
    SimpleFieldFits(T, fs, 8);
    SimpleFieldFits(T, fs, 10);
    assert FieldFits(T, fs, 1) <==> ParentsFit(d.parentInfo);
    assert FieldFits(T, fs, 9) <==> BlobsFit(d.sealerList);
    assert FieldFits(T, fs, 11) <==> |d.consensusWeights| < 0x8000_0000;
  }

  lemma LongsFitVal(ns: seq<int64>)
    ensures Fits(List(I64), FromLongs(ns)) <==> |ns| < 0x8000_0000
  {
    ListFits(I64, FromLongs(ns).vs);
    assert forall i | 0 <= i < |ns| :: ElementFits(I64, FromLongs(ns).vs, i);
  }

  lemma HeaderFitsVal(h: Header)
    ensures Fits(HEADER, h.ToVal()) <==> HeaderFits(h)
  {
    hide HasType, HeaderData.ToVal, HeaderDataFits, SignaturesFit, FromSignatures;
    HeaderDataFitsVal(h.data);
    PairListsFit([], h.signatureList);
    var T, fs := HEADER, h.ToVal().fs;
    assert VStruct(fs) == h.ToVal();
    FitsStruct(T, fs);
    assert FieldFits(T, fs, 0) <==> HeaderDataFits(h.data);
    assert FieldFits(T, fs, 1) <==> |h.dataHash| < 0x8000_0000;
    assert FieldFits(T, fs, 2) <==> SignaturesFit(h.signatureList);
  }

  lemma HeaderRoundTrip(h: Header, omit: Omit)
    ensures DecodeHeader(EncodeHeader(h, omit)) == Ok(h) <==> HeaderFits(h)
  {
    hide HasType, Encode, Decode, Header.ToVal, Header.From, Fits, HeaderFits;
    HeaderWellFormed();
    HeaderFitsVal(h);
    DecodeOfEncode(HEADER, h.ToVal(), omit);
    HeaderForth(h);
    var d := Decode(HEADER, EncodeHeader(h, omit));
    if d.Ok? {
      HeaderBack(d.value);
    }
  }

  lemma DecodedHeaderFits(b: bytes)
    requires DecodeHeader(b).Ok?
    ensures HeaderFits(DecodeHeader(b).value)
  {
    hide HasType, Decode, Header.ToVal, Header.From, HeaderFits;
    HeaderBack(Decode(HEADER, b).value);
    HeaderFitsVal(DecodeHeader(b).value);
  }

  lemma HeaderDataInjective(d: HeaderData, d': HeaderData, omit: Omit)
    requires HeaderDataFits(d) && HeaderDataFits(d')
    requires EncodeHeaderData(d, omit) == EncodeHeaderData(d', omit)
    ensures d == d'
  {
    hide HasType, Encode, HeaderData.ToVal, HeaderData.From, Fits, HeaderDataFits;
    HeaderWellFormed();
    HeaderDataFitsVal(d);
    HeaderDataFitsVal(d');
    EncodeInjective(HEADER_DATA, d.ToVal(), d'.ToVal(), omit, omit);
    HeaderDataForth(d);
    HeaderDataForth(d');
  }

  // ------------------------------------------------------------ blocks

  function EncodeBlock(b: Block, omit: Omit): bytes {
    Encode(BLOCK, b.ToVal(), omit)
  }

  function DecodeBlock(b: bytes): Result<Block> {
    var v :- Decode(BLOCK, b);
    Ok(Block.From(v))
  }

  /** All list sizes and vector lengths, at every depth, are below 2^31 and all string lengths
      below 2^32. */
  ghost predicate BlockFits(b: Block) {
    Fits(BLOCK, b.ToVal())
  }

  /** A block of any size and shape comes back from its encoding exactly when its lengths fit. */
  lemma BlockRoundTrip(b: Block, omit: Omit)
    ensures DecodeBlock(EncodeBlock(b, omit)) == Ok(b) <==> BlockFits(b)
  {
    hide HasType, Encode, Decode, Block.ToVal, Block.From, Fits;
    BlockWellFormed();
    DecodeOfEncode(BLOCK, b.ToVal(), omit);
    BlockForth(b);
    var d := Decode(BLOCK, EncodeBlock(b, omit));
    if d.Ok? {
      BlockBack(d.value);
    }
  }

  // ------------------------------------------------------------ defaults and empty input

  /** The default of a structure is that of each field. */
  lemma DefaultOf(ty: Ty, fs: seq<Val>)
    requires ty.Struct? && |fs| == |ty.fields| && forall i | 0 <= i < |fs| :: fs[i] == Default(ty.fields[i].ty)
    ensures Default(ty) == VStruct(fs)
  {
    assert Default(ty).fs == fs;
  }

  lemma SimpleDefaults(elem: Ty)
    ensures Default(I32) == Default(I64) == VInt(0)
    ensures Default(Text) == Default(Blob) == VBytes([])
    ensures Default(List(elem)) == VList([])
  {
  }

  lemma DefaultTransactionData()
    ensures DEFAULT_TRANSACTION_DATA.ToVal() == Default(TRANSACTION_DATA)
  {
    hide HasType, Default;
    SimpleDefaults(Blob);
    DefaultOf(TRANSACTION_DATA, DEFAULT_TRANSACTION_DATA.ToVal().fs);
  }

  lemma DefaultReceiptData()
    ensures DEFAULT_RECEIPT_DATA.ToVal() == Default(RECEIPT_DATA)
  {
    hide HasType, Default;
    SimpleDefaults(LOG_ENTRY);
    DefaultOf(RECEIPT_DATA, DEFAULT_RECEIPT_DATA.ToVal().fs);
  }

  lemma DefaultHeaderData()
    ensures DEFAULT_HEADER_DATA.ToVal() == Default(HEADER_DATA)
  {
    hide HasType, Default;
    SimpleDefaults(PARENT_INFO);
    SimpleDefaults(Blob);
    SimpleDefaults(I64);
    DefaultOf(HEADER_DATA, DEFAULT_HEADER_DATA.ToVal().fs);
  }

  /** The records after resetDefautlt hold the defaults of their schemas, at every depth. */
  lemma DefaultRecords()
    ensures DEFAULT_TRANSACTION.ToVal() == Default(TRANSACTION)
    ensures DEFAULT_RECEIPT.ToVal() == Default(RECEIPT)
    ensures DEFAULT_HEADER.ToVal() == Default(HEADER)
  {
    hide HasType, Default, TransactionData.ToVal, ReceiptData.ToVal, HeaderData.ToVal;
    DefaultTransactionData();
    DefaultReceiptData();
    DefaultHeaderData();
    SimpleDefaults(SIGNATURE);
    DefaultOf(TRANSACTION, DEFAULT_TRANSACTION.ToVal().fs);
    DefaultOf(RECEIPT, DEFAULT_RECEIPT.ToVal().fs);
    DefaultOf(HEADER, DEFAULT_HEADER.ToVal().fs);
  }

  lemma {:induction false} ReadFieldsOfNothing(fs: seq<Field>, i: nat)
    requires i <= |fs| && forall k | 0 <= k < |fs| :: !fs[k].required
    ensures ReadFields(fs, i, []) == Ok((Default(Struct(fs)).fs[i..], []))
    decreases |fs| - i
  {
    var ds := Default(Struct(fs)).fs;
    if i == |fs| {
      assert ds[i..] == [];
    } else {
      assert ds[i] == Default(fs[i].ty);
      assert ReadField(fs[i], []) == Ok((ds[i], []));
      hide ReadField, Default;
      ReadFieldsOfNothing(fs, i + 1);
      FirstAndRest(ds, i);
    }
  }

  /** A record of optional fields decodes from nothing at all, to its defaults. */
  lemma DecodeOfNothing(ty: Ty)
    requires ty.Struct? && forall k | 0 <= k < |ty.fields| :: !ty.fields[k].required
    ensures Decode(ty, []) == Ok(Default(ty))
  {
    ReadFieldsOfNothing(ty.fields, 0);
    assert Default(ty).fs[0..] == Default(ty).fs;
  }

  lemma BlockDecodesFromNothing()
    ensures DecodeBlock([]) == Ok(DEFAULT_BLOCK)
    ensures DEFAULT_BLOCK.receiptsHash == DEFAULT_BLOCK.nonceList == []
  {
    hide HasType, Decode, Default, Header.ToVal, Block.From;
    DefaultRecords();
    SimpleDefaults(TRANSACTION);
    SimpleDefaults(RECEIPT);
    SimpleDefaults(META_DATA);
    SimpleDefaults(Blob);
    SimpleDefaults(Text);
    DefaultOf(BLOCK, DEFAULT_BLOCK.ToVal().fs);
    DecodeOfNothing(BLOCK);
    BlockForth(DEFAULT_BLOCK);
  }

  lemma TransactionDecodesFromNothing()
    ensures DecodeTransaction([]) == Ok(DEFAULT_TRANSACTION)
  {
    hide HasType, Decode, Default, Transaction.ToVal, Transaction.From;
    DefaultRecords();
    DecodeOfNothing(TRANSACTION);
    TransactionForth(DEFAULT_TRANSACTION);
  }

  lemma HeaderDecodesFromNothing()
    ensures DecodeHeader([]) == Ok(DEFAULT_HEADER)
  {
    hide HasType, Decode, Default, Header.ToVal, Header.From;
    DefaultRecords();
    DecodeOfNothing(HEADER);
    HeaderForth(DEFAULT_HEADER);
  }

  lemma ReceiptDecodesFromNothing()
    ensures DecodeReceipt([]) == Ok(DEFAULT_RECEIPT)
  {
    hide HasType, Decode, Default, Receipt.ToVal, Receipt.From;
    DefaultRecords();
    DecodeOfNothing(RECEIPT);
    ReceiptForth(DEFAULT_RECEIPT);
  }
}
