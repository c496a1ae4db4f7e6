/**
 The records of the .tars schemas: their fields, their schemas with fields in ascending tag order
 (the order the stream requires, whatever the order of declaration), and their codec.
 */
module Records {
  import opened Base
  import opened TarsWire
  import opened TarsCodec

  // ------------------------------------------------------------ lists of simple values

  function FromBlobs(bs: seq<bytes>): (v: Val)
    ensures HasType(List(Blob), v) && HasType(List(Text), v)
    ensures ToBlobs(v) == bs
  {
    VList(seq(|bs|, i requires 0 <= i < |bs| => VBytes(bs[i])))
  }

  function ToBlobs(v: Val): seq<bytes>
    requires HasType(List(Blob), v) || HasType(List(Text), v)
  {
    assert forall i | 0 <= i < |v.vs| :: HasType(Blob, v.vs[i]) || HasType(Text, v.vs[i]);
    seq(|v.vs|, i requires 0 <= i < |v.vs| => v.vs[i].b)
  }

  function FromLongs(ns: seq<int64>): (v: Val)
    ensures HasType(List(I64), v)
    ensures ToLongs(v) == ns
  {
    VList(seq(|ns|, i requires 0 <= i < |ns| => VInt(ns[i])))
  }

  function ToLongs(v: Val): seq<int64>
    requires HasType(List(I64), v)
  {
    assert forall i | 0 <= i < |v.vs| :: HasType(I64, v.vs[i]);
    seq(|v.vs|, i requires 0 <= i < |v.vs| => v.vs[i].n)
  }

  lemma ListsBack(v: Val)
    ensures HasType(List(Blob), v) || HasType(List(Text), v) ==> FromBlobs(ToBlobs(v)) == v
    ensures HasType(List(I64), v) ==> FromLongs(ToLongs(v)) == v
  {
    if HasType(List(Blob), v) {
      assert forall i | 0 <= i < |v.vs| :: HasType(Blob, v.vs[i]);
      assert FromBlobs(ToBlobs(v)).vs == v.vs;
    }
    if HasType(List(Text), v) {
      assert forall i | 0 <= i < |v.vs| :: HasType(Text, v.vs[i]);
      assert FromBlobs(ToBlobs(v)).vs == v.vs;
    }
    if HasType(List(I64), v) {
      assert forall i | 0 <= i < |v.vs| :: HasType(I64, v.vs[i]);
      assert FromLongs(ToLongs(v)).vs == v.vs;
    }
  }

  // ------------------------------------------------------------ building and reading typed values

  function I32Val(n: int32): (v: Val)
    ensures HasType(I32, v) && v == VInt(n)
  {
    VInt(n)
  }

  function U32Val(n: uint32): (v: Val)
    ensures HasType(U32, v) && v == VInt(n)
  {
    VInt(n)
  }

  function I64Val(n: int64): (v: Val)
    ensures HasType(I64, v) && v == VInt(n)
  {
    VInt(n)
  }

  function BytesVal(b: bytes): (v: Val)
    ensures HasType(Text, v) && HasType(Blob, v) && v == VBytes(b)
  {
    VBytes(b)
  }

  function StructVal(ty: Ty, fs: seq<Val>): (v: Val)
    requires ty.Struct? && |fs| == |ty.fields| && forall i | 0 <= i < |fs| :: HasType(ty.fields[i].ty, fs[i])
    ensures HasType(ty, v) && v == VStruct(fs)
  {
    VStruct(fs)
  }

  function FieldAt(ty: Ty, v: Val, i: nat): (f: Val)
    requires ty.Struct? && HasType(ty, v) && i < |ty.fields|
    ensures HasType(ty.fields[i].ty, f) && f == v.fs[i]
  {
    v.fs[i]
  }

  function I32At(ty: Ty, v: Val, i: nat): (n: int32)
    requires ty.Struct? && HasType(ty, v) && i < |ty.fields| && ty.fields[i].ty == I32
    ensures VInt(n) == v.fs[i]
  {
    FieldAt(ty, v, i).n
  }

  function U32At(ty: Ty, v: Val, i: nat): (n: uint32)
    requires ty.Struct? && HasType(ty, v) && i < |ty.fields| && ty.fields[i].ty == U32
    ensures VInt(n) == v.fs[i]
  {
    FieldAt(ty, v, i).n
  }

  function I64At(ty: Ty, v: Val, i: nat): (n: int64)
    requires ty.Struct? && HasType(ty, v) && i < |ty.fields| && ty.fields[i].ty == I64
    ensures VInt(n) == v.fs[i]
  {
    FieldAt(ty, v, i).n
  }

  function BytesAt(ty: Ty, v: Val, i: nat): (b: bytes)
    requires ty.Struct? && HasType(ty, v) && i < |ty.fields| && ty.fields[i].ty in {Text, Blob}
    ensures VBytes(b) == v.fs[i]
  {
    FieldAt(ty, v, i).b
  }

  function ElementAt(elem: Ty, v: Val, i: nat): (e: Val)
    requires HasType(List(elem), v) && i < |v.vs|
    ensures HasType(elem, e) && e == v.vs[i]
  {
    v.vs[i]
  }

  lemma SameLength(ty: Ty, v: Val)
    requires ty.Struct? && HasType(ty, v)
    ensures v.VStruct? && |v.fs| == |ty.fields|
  {
  }

  // ------------------------------------------------------------ Transaction.tars

  const TRANSACTION_DATA: Ty := Struct([
    Field(1, true, I32), Field(2, true, Text), Field(3, true, Text), Field(4, true, I64),
    Field(5, true, Text), Field(6, false, Text), Field(7, true, Blob)])

  datatype TransactionData = TransactionData(
    version: int32, chainID: bytes, groupID: bytes, blockLimit: int64, nonce: bytes, to: bytes, input: bytes)
  {
    function ToVal(): (v: Val)
      ensures HasType(TRANSACTION_DATA, v)
    {
      hide HasType;
      StructVal(TRANSACTION_DATA, [I32Val(version), BytesVal(chainID), BytesVal(groupID), I64Val(blockLimit),
                                   BytesVal(nonce), BytesVal(to), BytesVal(input)])
    }

    static function From(v: Val): TransactionData
      requires HasType(TRANSACTION_DATA, v)
    {
      hide HasType;
      var T := TRANSACTION_DATA;
      TransactionData(I32At(T, v, 0), BytesAt(T, v, 1), BytesAt(T, v, 2), I64At(T, v, 3), BytesAt(T, v, 4),
                      BytesAt(T, v, 5), BytesAt(T, v, 6))
    }
  }

  // The schema declares the sender, tag 7, before tag 4; the stream carries it last.
  const TRANSACTION: Ty := Struct([
    Field(1, false, TRANSACTION_DATA), Field(2, false, Blob), Field(3, false, Blob), Field(4, false, I64),
    Field(5, false, I32), Field(6, false, Text), Field(7, false, Blob)])

  datatype Transaction = Transaction(
    data: TransactionData, dataHash: bytes, signature: bytes, importTime: int64, attribute: int32, source: bytes,
    sender: bytes)
  {
    function ToVal(): (v: Val)
      ensures HasType(TRANSACTION, v)
    {
      hide HasType, TransactionData.From, TransactionData.ToVal;
      StructVal(TRANSACTION, [data.ToVal(), BytesVal(dataHash), BytesVal(signature), I64Val(importTime),
                              I32Val(attribute), BytesVal(source), BytesVal(sender)])
    }

    static function From(v: Val): Transaction
      requires HasType(TRANSACTION, v)
    {
      hide HasType, TransactionData.From;
      var T := TRANSACTION;
      Transaction(TransactionData.From(FieldAt(T, v, 0)), BytesAt(T, v, 1), BytesAt(T, v, 2), I64At(T, v, 3),
                  I32At(T, v, 4), BytesAt(T, v, 5), BytesAt(T, v, 6))
    }
  }

  lemma TransactionDataForth(d: TransactionData)
    ensures TransactionData.From(d.ToVal()) == d
  {
    hide HasType;
  }

  lemma TransactionDataBack(v: Val)
    requires HasType(TRANSACTION_DATA, v)
    ensures TransactionData.From(v).ToVal() == v
  {
    assert TransactionData.From(v).ToVal().fs == v.fs;
  }

  lemma TransactionForth(t: Transaction)
    ensures Transaction.From(t.ToVal()) == t
  {
    hide HasType, TransactionData.From, TransactionData.ToVal;
    TransactionDataForth(t.data);
  }

  lemma TransactionBack(v: Val)
    requires HasType(TRANSACTION, v)
    ensures Transaction.From(v).ToVal() == v
  {
    hide HasType, TransactionData.ToVal, TransactionData.From;
    TransactionDataBack(FieldAt(TRANSACTION, v, 0));
    assert Transaction.From(v).ToVal().fs == v.fs by { SameLength(TRANSACTION, v); }
  }

  // ------------------------------------------------------------ TransactionReceipt.tars

  const LOG_ENTRY: Ty := Struct([Field(1, false, Text), Field(2, false, List(Blob)), Field(3, false, Blob)])

  datatype LogEntry = LogEntry(address: bytes, topic: seq<bytes>, data: bytes)
  {
    function ToVal(): (v: Val)
      ensures HasType(LOG_ENTRY, v)
      ensures From(v) == this
    {
      hide HasType, ToBlobs, FromBlobs;
      StructVal(LOG_ENTRY, [BytesVal(address), FromBlobs(topic), BytesVal(data)])
    }

    static function From(v: Val): LogEntry
      requires HasType(LOG_ENTRY, v)
    {
      hide HasType, ToBlobs;
      var T := LOG_ENTRY;
      LogEntry(BytesAt(T, v, 0), ToBlobs(FieldAt(T, v, 1)), BytesAt(T, v, 2))
    }
  }

  lemma LogEntryBack(v: Val)
    requires HasType(LOG_ENTRY, v)
    ensures LogEntry.From(v).ToVal() == v
  {
    hide HasType;
    ListsBack(FieldAt(LOG_ENTRY, v, 1));
    assert LogEntry.From(v).ToVal().fs == v.fs by { SameLength(LOG_ENTRY, v); }
  }

  function FromLogEntries(es: seq<LogEntry>): (v: Val)
    ensures HasType(List(LOG_ENTRY), v)
    ensures ToLogEntries(v) == es
  {
    VList(seq(|es|, i requires 0 <= i < |es| => es[i].ToVal()))
  }

  function ToLogEntries(v: Val): seq<LogEntry>
    requires HasType(List(LOG_ENTRY), v)
  {
    seq(|v.vs|, i requires 0 <= i < |v.vs| => LogEntry.From(ElementAt(LOG_ENTRY, v, i)))
  }

  lemma LogEntriesBack(v: Val)
    requires HasType(List(LOG_ENTRY), v)
    ensures FromLogEntries(ToLogEntries(v)) == v
  {
    forall i | 0 <= i < |v.vs| {
      LogEntryBack(ElementAt(LOG_ENTRY, v, i));
    }
    assert FromLogEntries(ToLogEntries(v)).vs == v.vs;
  }

  const RECEIPT_DATA: Ty := Struct([
    Field(1, true, I32), Field(2, true, Text), Field(3, false, Text), Field(4, true, I32), Field(5, false, Blob),
    Field(6, false, List(LOG_ENTRY)), Field(7, true, I64)])

  datatype ReceiptData = ReceiptData(
    version: int32, gasUsed: bytes, contractAddress: bytes, status: int32, output: bytes, logEntries: seq<LogEntry>,
    blockNumber: int64)
  {
    function ToVal(): (v: Val)
      ensures HasType(RECEIPT_DATA, v)
    {
      hide HasType, ToLogEntries, FromLogEntries;
      StructVal(RECEIPT_DATA, [I32Val(version), BytesVal(gasUsed), BytesVal(contractAddress), I32Val(status),
                               BytesVal(output), FromLogEntries(logEntries), I64Val(blockNumber)])
    }

    static function From(v: Val): ReceiptData
      requires HasType(RECEIPT_DATA, v)
    {
      hide HasType, ToLogEntries;
      var T := RECEIPT_DATA;
      ReceiptData(I32At(T, v, 0), BytesAt(T, v, 1), BytesAt(T, v, 2), I32At(T, v, 3), BytesAt(T, v, 4),
                  ToLogEntries(FieldAt(T, v, 5)), I64At(T, v, 6))
    }
  }

  lemma ReceiptDataForth(d: ReceiptData)
    ensures ReceiptData.From(d.ToVal()) == d
  {
    hide HasType, ToLogEntries, FromLogEntries;
  }

  lemma ReceiptDataBack(v: Val)
    requires HasType(RECEIPT_DATA, v)
    ensures ReceiptData.From(v).ToVal() == v
  {
    hide HasType, ToLogEntries, FromLogEntries;
    LogEntriesBack(FieldAt(RECEIPT_DATA, v, 5));
    assert ReceiptData.From(v).ToVal().fs == v.fs by { SameLength(RECEIPT_DATA, v); }
  }

  const RECEIPT: Ty := Struct([Field(1, false, RECEIPT_DATA), Field(2, false, Blob)])

  datatype Receipt = Receipt(data: ReceiptData, dataHash: bytes)
  {
    function ToVal(): (v: Val)
      ensures HasType(RECEIPT, v)
    {
      hide HasType, ReceiptData.From, ReceiptData.ToVal;
      StructVal(RECEIPT, [data.ToVal(), BytesVal(dataHash)])
    }

    static function From(v: Val): Receipt
      requires HasType(RECEIPT, v)
    {
      hide HasType, ReceiptData.From;
      var T := RECEIPT;
      Receipt(ReceiptData.From(FieldAt(T, v, 0)), BytesAt(T, v, 1))
    }
  }

  lemma ReceiptForth(r: Receipt)
    ensures Receipt.From(r.ToVal()) == r
  {
    hide HasType, ReceiptData.From, ReceiptData.ToVal;
    ReceiptDataForth(r.data);
  }

  lemma ReceiptBack(v: Val)
    requires HasType(RECEIPT, v)
    ensures Receipt.From(v).ToVal() == v
  {
    hide HasType, ReceiptData.ToVal, ReceiptData.From;
    ReceiptDataBack(FieldAt(RECEIPT, v, 0));
    assert Receipt.From(v).ToVal().fs == v.fs by { SameLength(RECEIPT, v); }
  }

  // ------------------------------------------------------------ TransactionMetaData.tars

  const META_DATA: Ty := Struct([
    Field(1, false, Blob), Field(2, false, Text), Field(3, false, Text), Field(4, false, U32)])

  datatype MetaData = MetaData(hash: bytes, to: bytes, source: bytes, attribute: uint32)
  {
    function ToVal(): (v: Val)
      ensures HasType(META_DATA, v)
      ensures From(v) == this
    {
      hide HasType;
      StructVal(META_DATA, [BytesVal(hash), BytesVal(to), BytesVal(source), U32Val(attribute)])
    }

    static function From(v: Val): MetaData
      requires HasType(META_DATA, v)
    {
      hide HasType;
      var T := META_DATA;
      MetaData(BytesAt(T, v, 0), BytesAt(T, v, 1), BytesAt(T, v, 2), U32At(T, v, 3))
    }
  }

  lemma MetaDataBack(v: Val)
    requires HasType(META_DATA, v)
    ensures MetaData.From(v).ToVal() == v
  {
    hide HasType;
    assert MetaData.From(v).ToVal().fs == v.fs by { SameLength(META_DATA, v); }
  }

  // ------------------------------------------------------------ Block.tars

  const PARENT_INFO: Ty := Struct([Field(1, true, I64), Field(2, true, Blob)])

  datatype ParentInfo = ParentInfo(blockNumber: int64, blockHash: bytes)
  {
    function ToVal(): (v: Val)
      ensures HasType(PARENT_INFO, v)
      ensures From(v) == this
    {
      hide HasType;
      StructVal(PARENT_INFO, [I64Val(blockNumber), BytesVal(blockHash)])
    }

    static function From(v: Val): ParentInfo
      requires HasType(PARENT_INFO, v)
    {
      hide HasType;
      ParentInfo(I64At(PARENT_INFO, v, 0), BytesAt(PARENT_INFO, v, 1))
    }
  }

  const SIGNATURE: Ty := Struct([Field(1, true, I64), Field(2, true, Blob)])

  datatype Signature = Signature(sealerIndex: int64, signature: bytes)
  {
    function ToVal(): (v: Val)
      ensures HasType(SIGNATURE, v)
      ensures From(v) == this
    {
      hide HasType;
      StructVal(SIGNATURE, [I64Val(sealerIndex), BytesVal(signature)])
    }

    static function From(v: Val): Signature
      requires HasType(SIGNATURE, v)
    {
      hide HasType;
      Signature(I64At(SIGNATURE, v, 0), BytesAt(SIGNATURE, v, 1))
    }
  }

  lemma PairsBack(v: Val)
    requires HasType(PARENT_INFO, v)
    ensures ParentInfo.From(v).ToVal() == v
    ensures HasType(SIGNATURE, v) && Signature.From(v).ToVal() == v
  {
    hide HasType;
    assert PARENT_INFO == SIGNATURE;
    assert ParentInfo.From(v).ToVal().fs == v.fs by { SameLength(PARENT_INFO, v); }
    assert Signature.From(v).ToVal().fs == v.fs;
  }

  function FromParents(ps: seq<ParentInfo>): (v: Val)
    ensures HasType(List(PARENT_INFO), v)
    ensures ToParents(v) == ps
  {
    VList(seq(|ps|, i requires 0 <= i < |ps| => ps[i].ToVal()))
  }

  function ToParents(v: Val): seq<ParentInfo>
    requires HasType(List(PARENT_INFO), v)
  {
    seq(|v.vs|, i requires 0 <= i < |v.vs| => ParentInfo.From(ElementAt(PARENT_INFO, v, i)))
  }

  function FromSignatures(ss: seq<Signature>): (v: Val)
    ensures HasType(List(SIGNATURE), v)
    ensures ToSignatures(v) == ss
  {
    VList(seq(|ss|, i requires 0 <= i < |ss| => ss[i].ToVal()))
  }

  function ToSignatures(v: Val): seq<Signature>
    requires HasType(List(SIGNATURE), v)
  {
    seq(|v.vs|, i requires 0 <= i < |v.vs| => Signature.From(ElementAt(SIGNATURE, v, i)))
  }

  lemma PairListsBack(v: Val)
    requires HasType(List(PARENT_INFO), v)
    ensures FromParents(ToParents(v)) == v
    ensures HasType(List(SIGNATURE), v) && FromSignatures(ToSignatures(v)) == v
  {
    assert PARENT_INFO == SIGNATURE;
    forall i | 0 <= i < |v.vs| {
      PairsBack(ElementAt(PARENT_INFO, v, i));
    }
    assert FromParents(ToParents(v)).vs == v.vs;
    assert FromSignatures(ToSignatures(v)).vs == v.vs;
  }

  const HEADER_DATA: Ty := Struct([
    Field(2, true, I32), Field(3, true, List(PARENT_INFO)), Field(4, true, Blob), Field(5, true, Blob),
    Field(6, true, Blob), Field(7, true, I64), Field(8, true, Text), Field(9, true, I64), Field(10, true, I64),
    Field(11, true, List(Blob)), Field(12, true, Blob), Field(13, true, List(I64))])

  datatype HeaderData = HeaderData(
    version: int32, parentInfo: seq<ParentInfo>, txsRoot: bytes, receiptRoot: bytes, stateRoot: bytes,
    blockNumber: int64, gasUsed: bytes, timestamp: int64, sealer: int64, sealerList: seq<bytes>, extraData: bytes,
    consensusWeights: seq<int64>)
  {
    function ToVal(): (v: Val)
      ensures HasType(HEADER_DATA, v)
    {
      hide HasType, ToParents, FromParents, ToBlobs, FromBlobs, ToLongs, FromLongs;
      StructVal(HEADER_DATA, [I32Val(version), FromParents(parentInfo), BytesVal(txsRoot), BytesVal(receiptRoot),
                              BytesVal(stateRoot), I64Val(blockNumber), BytesVal(gasUsed), I64Val(timestamp),
                              I64Val(sealer), FromBlobs(sealerList), BytesVal(extraData),
                              FromLongs(consensusWeights)])
    }

    static function From(v: Val): HeaderData
      requires HasType(HEADER_DATA, v)
    {
      hide HasType, ToParents, ToBlobs, ToLongs;
      var T := HEADER_DATA;
      HeaderData(I32At(T, v, 0), ToParents(FieldAt(T, v, 1)), BytesAt(T, v, 2), BytesAt(T, v, 3), BytesAt(T, v, 4),
                 I64At(T, v, 5), BytesAt(T, v, 6), I64At(T, v, 7), I64At(T, v, 8), ToBlobs(FieldAt(T, v, 9)),
                 BytesAt(T, v, 10), ToLongs(FieldAt(T, v, 11)))
    }
  }

  lemma HeaderDataForth(d: HeaderData)
    ensures HeaderData.From(d.ToVal()) == d
  {
    hide HasType, ToParents, FromParents, ToBlobs, FromBlobs, ToLongs, FromLongs;
  }

  lemma HeaderDataBack(v: Val)
    requires HasType(HEADER_DATA, v)
    ensures HeaderData.From(v).ToVal() == v
  {
    hide HasType, ToParents, FromParents, ToBlobs, FromBlobs, ToLongs, FromLongs;
    PairListsBack(FieldAt(HEADER_DATA, v, 1));
    ListsBack(FieldAt(HEADER_DATA, v, 9));
    ListsBack(FieldAt(HEADER_DATA, v, 11));
    assert HeaderData.From(v).ToVal().fs == v.fs by { SameLength(HEADER_DATA, v); }
  }

  const HEADER: Ty := Struct([Field(1, false, HEADER_DATA), Field(2, false, Blob), Field(3, false, List(SIGNATURE))])

  datatype Header = Header(data: HeaderData, dataHash: bytes, signatureList: seq<Signature>)
  {
    function ToVal(): (v: Val)
      ensures HasType(HEADER, v)
    {
      hide HasType, HeaderData.From, HeaderData.ToVal, ToSignatures, FromSignatures;
      StructVal(HEADER, [data.ToVal(), BytesVal(dataHash), FromSignatures(signatureList)])
    }

    static function From(v: Val): Header
      requires HasType(HEADER, v)
    {
      hide HasType, HeaderData.From, ToSignatures;
      var T := HEADER;
      Header(HeaderData.From(FieldAt(T, v, 0)), BytesAt(T, v, 1), ToSignatures(FieldAt(T, v, 2)))
    }
  }

  lemma HeaderForth(h: Header)
    ensures Header.From(h.ToVal()) == h
  {
    hide HasType, HeaderData.From, HeaderData.ToVal, ToSignatures, FromSignatures;
    HeaderDataForth(h.data);
  }

  lemma HeaderBack(v: Val)
    requires HasType(HEADER, v)
    ensures Header.From(v).ToVal() == v
  {
    hide HasType, HeaderData.From, HeaderData.ToVal, ToSignatures, FromSignatures;
    HeaderDataBack(FieldAt(HEADER, v, 0));
    assert PARENT_INFO == SIGNATURE;
    PairListsBack(FieldAt(HEADER, v, 2));
    assert Header.From(v).ToVal().fs == v.fs by { SameLength(HEADER, v); }
  }

  function FromTransactions(ts: seq<Transaction>): (v: Val)
    ensures HasType(List(TRANSACTION), v)
  {
    VList(seq(|ts|, i requires 0 <= i < |ts| => ts[i].ToVal()))
  }

  function ToTransactions(v: Val): seq<Transaction>
    requires HasType(List(TRANSACTION), v)
  {
    seq(|v.vs|, i requires 0 <= i < |v.vs| => Transaction.From(ElementAt(TRANSACTION, v, i)))
  }

  function FromReceipts(rs: seq<Receipt>): (v: Val)
    ensures HasType(List(RECEIPT), v)
  {
    VList(seq(|rs|, i requires 0 <= i < |rs| => rs[i].ToVal()))
  }

  function ToReceipts(v: Val): seq<Receipt>
    requires HasType(List(RECEIPT), v)
  {
    seq(|v.vs|, i requires 0 <= i < |v.vs| => Receipt.From(ElementAt(RECEIPT, v, i)))
  }

  function FromMetaDatas(ms: seq<MetaData>): (v: Val)
    ensures HasType(List(META_DATA), v)
    ensures ToMetaDatas(v) == ms
  {
    VList(seq(|ms|, i requires 0 <= i < |ms| => ms[i].ToVal()))
  }

  function ToMetaDatas(v: Val): seq<MetaData>
    requires HasType(List(META_DATA), v)
  {
    seq(|v.vs|, i requires 0 <= i < |v.vs| => MetaData.From(ElementAt(META_DATA, v, i)))
  }

  lemma RecordListsForth(ts: seq<Transaction>, rs: seq<Receipt>)
    ensures ToTransactions(FromTransactions(ts)) == ts
    ensures ToReceipts(FromReceipts(rs)) == rs
  {
    hide Transaction.From, Transaction.ToVal, Receipt.From, Receipt.ToVal, HasType;
    forall i | 0 <= i < |ts| {
      TransactionForth(ts[i]);
    }
    forall i | 0 <= i < |rs| {
      ReceiptForth(rs[i]);
    }
  }

  lemma RecordListsBack(v: Val)
    ensures HasType(List(TRANSACTION), v) ==> FromTransactions(ToTransactions(v)) == v
    ensures HasType(List(RECEIPT), v) ==> FromReceipts(ToReceipts(v)) == v
    ensures HasType(List(META_DATA), v) ==> FromMetaDatas(ToMetaDatas(v)) == v
  {
    hide Transaction.From, Transaction.ToVal, Receipt.From, Receipt.ToVal, MetaData.From, MetaData.ToVal;
    if HasType(List(TRANSACTION), v) {
      forall i | 0 <= i < |v.vs| {
        TransactionBack(ElementAt(TRANSACTION, v, i));
      }
      assert FromTransactions(ToTransactions(v)).vs == v.vs;
    }
    if HasType(List(RECEIPT), v) {
      forall i | 0 <= i < |v.vs| {
        ReceiptBack(ElementAt(RECEIPT, v, i));
      }
      assert FromReceipts(ToReceipts(v)).vs == v.vs;
    }
    if HasType(List(META_DATA), v) {
      forall i | 0 <= i < |v.vs| {
        MetaDataBack(ElementAt(META_DATA, v, i));
      }
      assert FromMetaDatas(ToMetaDatas(v)).vs == v.vs;
    }
  }

  const BLOCK: Ty := Struct([
    Field(1, false, I32), Field(2, false, I32), Field(3, false, HEADER), Field(4, false, List(TRANSACTION)),
    Field(5, false, List(RECEIPT)), Field(6, false, List(META_DATA)), Field(7, false, List(Blob)),
    Field(8, false, List(Text))])

  datatype Block = Block(
    version: int32, kind: int32, blockHeader: Header, transactions: seq<Transaction>, receipts: seq<Receipt>,
    transactionsMetaData: seq<MetaData>, receiptsHash: seq<bytes>, nonceList: seq<bytes>)
  {
    function ToVal(): (v: Val)
      ensures HasType(BLOCK, v)
    {
      hide HasType, Header.From, Header.ToVal, ToTransactions, FromTransactions, ToReceipts, FromReceipts,
        ToMetaDatas, FromMetaDatas, ToBlobs, FromBlobs;
      StructVal(BLOCK, [I32Val(version), I32Val(kind), blockHeader.ToVal(), FromTransactions(transactions),
                        FromReceipts(receipts), FromMetaDatas(transactionsMetaData), FromBlobs(receiptsHash),
                        FromBlobs(nonceList)])
    }

    static function From(v: Val): Block
      requires HasType(BLOCK, v)
    {
      hide HasType, Header.From, ToTransactions, ToReceipts, ToMetaDatas, ToBlobs;
      var T := BLOCK;
      Block(I32At(T, v, 0), I32At(T, v, 1), Header.From(FieldAt(T, v, 2)), ToTransactions(FieldAt(T, v, 3)),
            ToReceipts(FieldAt(T, v, 4)), ToMetaDatas(FieldAt(T, v, 5)), ToBlobs(FieldAt(T, v, 6)),
            ToBlobs(FieldAt(T, v, 7)))
    }
  }

  lemma BlockForth(b: Block)
    ensures Block.From(b.ToVal()) == b
  {
    hide HasType, Header.From, Header.ToVal, ToTransactions, FromTransactions, ToReceipts, FromReceipts, ToMetaDatas,
      FromMetaDatas, ToBlobs, FromBlobs;
    HeaderForth(b.blockHeader);
    RecordListsForth(b.transactions, b.receipts);
  }

  lemma BlockBack(v: Val)
    requires HasType(BLOCK, v)
    ensures Block.From(v).ToVal() == v
  {
    hide HasType, Header.From, Header.ToVal, ToTransactions, FromTransactions, ToReceipts, FromReceipts, ToMetaDatas,
      FromMetaDatas, ToBlobs, FromBlobs;
    HeaderBack(FieldAt(BLOCK, v, 2));
    RecordListsBack(FieldAt(BLOCK, v, 3));
    RecordListsBack(FieldAt(BLOCK, v, 4));
    RecordListsBack(FieldAt(BLOCK, v, 5));
    ListsBack(FieldAt(BLOCK, v, 6));
    ListsBack(FieldAt(BLOCK, v, 7));
    assert Block.From(v).ToVal().fs == v.fs by { SameLength(BLOCK, v); }
  }
}
