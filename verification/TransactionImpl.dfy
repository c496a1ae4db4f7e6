/** The transaction wrapper and its factory. */
module TransactionImplementation {
  import opened Base
  import opened Decimal
  import opened Environment
  import opened Records
  import opened RecordCodec
  import opened SharedRecords
  import opened TransactionState
  import opened RecordStreams

  class TransactionImpl {
    const env: Env
    const inner: TransactionRef
    var buffer: bytes
    var dataBuffer: bytes
    var nonceCache: u256

    /** The state the state machine speaks about. */
    ghost function State(): TxState
      requires inner.Live()
      reads this, inner.Home()
    {
      TxState(inner.Get(), buffer, dataBuffer, nonceCache)
    }

    /** The getter is kept, not called: the element it denotes need not exist yet. */
    constructor (env: Env, inner: TransactionRef)
      ensures this.env == env && this.inner == inner
      ensures buffer == [] && dataBuffer == [] && nonceCache == 0
    {
      this.env, this.inner := env, inner;
      buffer, dataBuffer, nonceCache := [], [], 0;
    }

    /** After a failed decode the buffer is already replaced and the record is undefined. */
    method Decode(input: bytes) returns (ok: bool)
      requires inner.Live()
      modifies this, inner.Home()
      ensures inner.Live() && inner.OnlyThis()
      ensures ok <==> DecodeTransaction(input).Ok?
      ensures ok ==> State() == Step(env, old(State()), TxOp.Decode(input))
      ensures ok ==> buffer == input && inner.Get() == DecodeTransaction(input).value
      ensures !ok ==> buffer == input && dataBuffer == old(dataBuffer) && nonceCache == old(nonceCache)
    {
      hide DecodeTransaction;
      buffer := input;
      var r := DecodeTransaction(buffer);
      ok := r.Ok?;
      inner.Put(if ok then r.value else DEFAULT_TRANSACTION);
    }

    method Encode(onlyHashFields: bool) returns (encoded: bytes)
      requires inner.Live()
      modifies this, inner.Home()
      ensures inner.Live() && inner.OnlyThis()
      ensures State() == Step(env, old(State()), TxOp.Encode(onlyHashFields))
      ensures encoded == EncodeResult(env, old(State()), onlyHashFields)
      ensures var data := if old(dataBuffer) != [] then old(dataBuffer)
          else EncodeTransactionData(old(inner.Get().data), env.omit);
        && dataBuffer == data
        && (onlyHashFields ==> encoded == data && inner.Get() == old(inner.Get()))
        && (!onlyHashFields && old(buffer) != [] ==> encoded == old(buffer) && inner.Get() == old(inner.Get()))
        && (!onlyHashFields && old(buffer) == [] ==>
              && inner.Get() == old(inner.Get()).(dataHash := env.hash(data))
              && encoded == buffer == EncodeTransaction(inner.Get(), env.omit))
    {
      hide EncodeTransactionData, EncodeTransaction;
      if dataBuffer == [] {
        dataBuffer := WriteTransactionData(env, inner.Get().data);
      }
      if onlyHashFields {
        return dataBuffer;
      }
      if buffer == [] {
        var hash := env.hash(dataBuffer);
        inner.Put(inner.Get().(dataHash := hash));
        buffer := WriteTransaction(env, inner.Get());
      }
      encoded := buffer;
    }

    method TakeEncoded() returns (encoded: bytes)
      requires inner.Live()
      modifies `buffer
      ensures inner.Live() && State() == Step(env, old(State()), TxOp.TakeEncoded)
      ensures encoded == old(buffer)
      ensures buffer == []
    {
      encoded, buffer := buffer, [];
    }

    method Hash() returns (hash: H256)
      requires inner.Live()
      requires inner.Get().dataHash == [] || |inner.Get().dataHash| >= 32
      modifies this, inner.Home()
      ensures inner.Live() && inner.OnlyThis()
      ensures State() == Step(env, old(State()), TxOp.Hash)
      ensures hash == HashResult(env, old(State()))
      ensures old(inner.Get().dataHash) != [] ==>
        hash == old(inner.Get().dataHash)[..32] && inner.Get() == old(inner.Get()) && dataBuffer == old(dataBuffer)
      ensures old(inner.Get().dataHash) == [] ==>
        && dataBuffer == (if old(dataBuffer) != [] then old(dataBuffer)
                          else EncodeTransactionData(old(inner.Get().data), env.omit))
        && hash == env.hash(dataBuffer) && inner.Get() == old(inner.Get()).(dataHash := hash)
    {
      hide EncodeTransactionData, EncodeTransaction;
      if inner.Get().dataHash == [] {
        var data := Encode(true);
        hash := env.hash(data);
        inner.Put(inner.Get().(dataHash := hash));
      }
      hash := inner.Get().dataHash[..32];
    }

    /** No number is returned when the cast of the stored text throws. */
    method Nonce() returns (nonce: Option<u256>)
      requires inner.Live()
      modifies `nonceCache
      ensures inner.Live() && State() == Step(env, old(State()), TxOp.Nonce)
      ensures nonce == NonceResult(old(State()))
      ensures inner.Get().data.nonce == [] ==> nonce == Some(old(nonceCache))
      ensures forall n: u256 :: inner.Get().data.nonce == Print(n) ==> nonce == Some(n)
      ensures nonceCache == if nonce.Some? then nonce.value else old(nonceCache)
    {
      forall n: u256
        ensures Print(n) != [] && Parse(Print(n)) == Some(n)
      {
        ParseOfPrint(n);
      }
      if inner.Get().data.nonce != [] {
        var n := Parse(inner.Get().data.nonce);
        if n.None? {
          return None;
        }
        nonceCache := n.value;
      }
      nonce := Some(nonceCache);
    }

    method SetImportTime(time: int64)
      requires inner.Live()
      modifies inner.Home()
      ensures inner.Live() && inner.OnlyThis()
      ensures State() == Step(env, old(State()), TxOp.SetImportTime(time))
      ensures inner.Get() == old(inner.Get()).(importTime := time)
    {
      inner.Put(inner.Get().(importTime := time));
    }

    method ForceSender(sender: bytes)
      requires inner.Live()
      modifies inner.Home()
      ensures inner.Live() && inner.OnlyThis()
      ensures State() == Step(env, old(State()), TxOp.ForceSender(sender))
      ensures inner.Get() == old(inner.Get()).(sender := sender)
    {
      inner.Put(inner.Get().(sender := sender));
    }

    method SetSignatureData(signature: bytes)
      requires inner.Live()
      modifies inner.Home()
      ensures inner.Live() && inner.OnlyThis()
      ensures State() == Step(env, old(State()), TxOp.SetSignatureData(signature))
      ensures inner.Get() == old(inner.Get()).(signature := signature)
    {
      inner.Put(inner.Get().(signature := signature));
    }

    method SetAttribute(attribute: uint32)
      requires inner.Live()
      modifies inner.Home()
      ensures inner.Live() && inner.OnlyThis()
      ensures State() == Step(env, old(State()), TxOp.SetAttribute(attribute))
      ensures inner.Get() == old(inner.Get()).(attribute := inner.Get().attribute)
      ensures WrapUInt32(inner.Get().attribute) == attribute
    {
      inner.Put(inner.Get().(attribute := WrapInt32(attribute)));
    }

    method SetSource(source: bytes)
      requires inner.Live()
      modifies inner.Home()
      ensures inner.Live() && inner.OnlyThis()
      ensures State() == Step(env, old(State()), TxOp.SetSource(source))
      ensures inner.Get() == old(inner.Get()).(source := source)
    {
      inner.Put(inner.Get().(source := source));
    }

    method SetInner(t: Transaction)
      requires inner.Live()
      modifies inner.Home()
      ensures inner.Live() && inner.OnlyThis()
      ensures State() == Step(env, old(State()), TxOp.SetInner(t))
      ensures inner.Get() == t
    {
      inner.Put(t);
    }

    /** Both sides may fill their memo; they may wrap the same record or share a block. */
    method Equals(other: TransactionImpl) returns (equal: bool)
      requires inner.Live() && other.inner.Live() && other.env == env
      requires CacheInv(env, State()) && CacheInv(env, other.State())
      requires DataHash(env, State().rec) == DataHash(env, other.State().rec) ==>
        DataBytes(env, State().rec) == DataBytes(env, other.State().rec)
      modifies this, other, inner.Home(), other.inner.Home()
      ensures inner.Live() && other.inner.Live()
      ensures equal <==> inner.Get().data == other.inner.Get().data
      ensures inner.Get().data == old(inner.Get().data) && other.inner.Get().data == old(other.inner.Get().data)
    {
      hide CacheInv, EncodeTransactionData, FillHash, HashResult;
      ghost var s, t := State(), other.State();
      EqualityIsDataEquality(env, s, t);
      HashOfCoherent(env, s);
      HashOfCoherent(env, t);
      StepKeepsInv(env, s, TxOp.Hash);
      MemoFilledElsewhere(env, t);
      var left := Hash();
      assert inner != other.inner ==> other.inner.Get() == t.rec;
      ghost var t' := other.State();
      assert other != this ==> t' == t || t' == t.(rec := t.rec.(dataHash := DataHash(env, t.rec)));
      HashOfCoherent(env, t');
      var right := other.Hash();
      equal := left == right;
    }
  }

  // ------------------------------------------------------------ the factory

  /** Without the signature check; None when the input does not decode. */
  method CreateFromBytes(env: Env, input: bytes) returns (tx: TransactionImpl?)
    ensures tx != null <==> DecodeTransaction(input).Ok?
    ensures tx != null ==> fresh(tx) && fresh(tx.inner.Home()) && tx.env == env && tx.inner.Live()
    ensures tx != null ==> tx.State() == TxState(DecodeTransaction(input).value, input, [], 0)
  {
    hide DecodeTransaction;
    var cell := new TransactionCell(DEFAULT_TRANSACTION);
    var t := new TransactionImpl(env, OwnTransaction(cell));
    var ok := t.Decode(input);
    tx := if ok then t else null;
  }

  method Create(env: Env, version: int32, to: bytes, input: bytes, nonce: u256, blockLimit: int64, chainId: bytes,
                groupId: bytes, importTime: int64) returns (tx: TransactionImpl)
    ensures fresh(tx) && fresh(tx.inner.Home()) && tx.env == env && tx.inner.Live()
    ensures tx.State() == Wrap(Build(version, to, input, nonce, blockLimit, chainId, groupId, importTime))
    ensures var t := tx.inner.Get();
      && t.data.version == version && t.data.chainID == chainId && t.data.groupID == groupId
      && t.data.blockLimit == blockLimit && t.data.nonce == Print(nonce) && t.data.to == to && t.data.input == input
      && t.importTime == importTime && t.attribute == 0
      && t.dataHash == t.signature == t.source == t.sender == []
    ensures tx.buffer == [] && tx.dataBuffer == []
  {
    var cell := new TransactionCell(DEFAULT_TRANSACTION);
    tx := new TransactionImpl(env, OwnTransaction(cell));
    cell.rec := cell.rec.(data := cell.rec.data.(version := version));
    cell.rec := cell.rec.(data := cell.rec.data.(to := to));
    cell.rec := cell.rec.(data := cell.rec.data.(input := input));
    cell.rec := cell.rec.(data := cell.rec.data.(blockLimit := blockLimit));
    cell.rec := cell.rec.(data := cell.rec.data.(chainID := chainId));
    cell.rec := cell.rec.(data := cell.rec.data.(groupID := groupId));
    cell.rec := cell.rec.(data := cell.rec.data.(nonce := Print(nonce)));
    cell.rec := cell.rec.(importTime := importTime);
  }

  method CreateAndSign(env: Env, version: int32, to: bytes, input: bytes, nonce: u256, blockLimit: int64,
                       chainId: bytes, groupId: bytes, importTime: int64, key: bytes) returns (tx: TransactionImpl)
    ensures fresh(tx) && fresh(tx.inner.Home()) && tx.env == env && tx.inner.Live()
    ensures tx.State() ==
      BuildAndSign(env, Build(version, to, input, nonce, blockLimit, chainId, groupId, importTime), key)
    ensures var t := tx.inner.Get();
      && t.data == TransactionData(version, chainId, groupId, blockLimit, Print(nonce), to, input)
      && t.dataHash == env.hash(EncodeTransactionData(t.data, env.omit)) && t.signature == env.sign(key, t.dataHash)
      && t.importTime == importTime && t.attribute == 0 && t.source == t.sender == []
  {
    hide EncodeTransactionData, EncodeTransaction;
    tx := Create(env, version, to, input, nonce, blockLimit, chainId, groupId, importTime);
    var hash := tx.Hash();
    tx.inner.Put(tx.inner.Get().(signature := env.sign(key, hash)));
  }

  /** Sign, encode, decode on the heap: the receiver sees the signed hash, the signature and the nonce. */
  method SendAndReceive(env: Env, version: int32, to: bytes, input: bytes, nonce: u256, blockLimit: int64,
                        chainId: bytes, groupId: bytes, importTime: int64, key: bytes)
    returns (sent: TransactionImpl, received: TransactionImpl?)
    requires |to| < 0x1_0000_0000 && |input| < 0x8000_0000 && |chainId| < 0x1_0000_0000 && |groupId| < 0x1_0000_0000
    requires forall h :: |env.sign(key, h)| < 0x8000_0000
    ensures received != null && sent.inner.Live() && received.inner.Live()
    ensures received.inner.Get() == sent.inner.Get()
    ensures var signed := DataHash(env, sent.inner.Get());
      received.inner.Get().dataHash == signed && received.inner.Get().signature == env.sign(key, signed)
    ensures var t := received.inner.Get();
      && t.data.version == version && t.data.chainID == chainId && t.data.groupID == groupId
      && t.data.blockLimit == blockLimit && t.data.nonce == Print(nonce) && t.data.to == to && t.data.input == input
      && t.importTime == importTime && t.attribute == 0 && t.source == t.sender == []
      && t.dataHash == env.hash(EncodeTransactionData(t.data, env.omit))
  {
    hide EncodeTransactionData, EncodeTransaction, DecodeTransaction, FillHash, HashResult, CacheInv, Step;
    SignEncodeDecode(env, version, to, input, nonce, blockLimit, chainId, groupId, importTime, key);
    sent := CreateAndSign(env, version, to, input, nonce, blockLimit, chainId, groupId, importTime, key);
    var encoded := sent.Encode(false);
    received := CreateFromBytes(env, encoded);
  }
}
