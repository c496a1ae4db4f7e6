/**
 The state of a transaction wrapper, as a state machine: the record, the two encoding buffers and
 the nonce cache, what each operation does to them, and what holds of every run.
 */
module Environment {
  import opened Base
  import opened TarsCodec

  /** The framework's 32-byte value built from a pointer and a length. That class is not part of this
      model; of it is only assumed that it gives back 32 bytes as they are. */
  type HashReader = f: bytes -> H256 | KeepsHashes(f) witness Padded

  ghost predicate KeepsHashes(f: bytes -> H256) {
    forall h: H256 :: f(h) == h
  }

  function Padded(b: bytes): H256 {
    if |b| == 32 then b else ZERO_HASH
  }

  /** What the code takes from outside: the crypto suite, how topics of any length are read, which
      optional fields the generated writer leaves out, and how the stream grows its buffer. */
  datatype Env = Env(hash: bytes -> H256, sign: (bytes, H256) -> bytes, topic: HashReader, omit: Omit,
                     growth: nat -> nat)
}

module TransactionState {
  import opened Base
  import opened Decimal
  import opened Environment
  import opened Records
  import opened RecordCodec

  datatype TxState = TxState(rec: Transaction, buffer: bytes, dataBuffer: bytes, nonceCache: u256)

  datatype TxOp =
    | Encode(onlyHashFields: bool)
    | Hash
    | Nonce
    | TakeEncoded
    | SetImportTime(time: int64)
    | ForceSender(sender: bytes)
    | SetSignatureData(signature: bytes)
    | SetAttribute(attribute: uint32)
    | SetSource(source: bytes)
    | SetInner(inner: Transaction)
    | Decode(input: bytes)

  // ------------------------------------------------------------ operations

  function DataBytes(env: Env, t: Transaction): bytes {
    EncodeTransactionData(t.data, env.omit)
  }

  function DataHash(env: Env, t: Transaction): H256 {
    env.hash(DataBytes(env, t))
  }

  function WithDataBuffer(env: Env, s: TxState): TxState {
    if s.dataBuffer == [] then s.(dataBuffer := DataBytes(env, s.rec)) else s
  }

  function EncodeAll(env: Env, s: TxState): TxState {
    var s1 := WithDataBuffer(env, s);
    if s1.buffer == [] then
      var rec := s1.rec.(dataHash := env.hash(s1.dataBuffer));
      s1.(rec := rec, buffer := EncodeTransaction(rec, env.omit))
    else s1
  }

  function FillHash(env: Env, s: TxState): TxState {
    if s.rec.dataHash == [] then
      var s1 := WithDataBuffer(env, s);
      s1.(rec := s1.rec.(dataHash := env.hash(s1.dataBuffer)))
    else s
  }

  // An input that does not decode throws; every other call is accepted.
  predicate Accepted(op: TxOp) {
    op.Decode? ==> DecodeTransaction(op.input).Ok?
  }

  function Step(env: Env, s: TxState, op: TxOp): TxState
    requires Accepted(op)
  {
    match op
    case Encode(onlyHashFields) => if onlyHashFields then WithDataBuffer(env, s) else EncodeAll(env, s)
    case Hash => FillHash(env, s)
    case Nonce =>
      var n := Parse(s.rec.data.nonce);
      if s.rec.data.nonce != [] && n.Some? then s.(nonceCache := n.value) else s
    case TakeEncoded => s.(buffer := [])
    case SetImportTime(time) => s.(rec := s.rec.(importTime := time))
    case ForceSender(sender) => s.(rec := s.rec.(sender := sender))
    case SetSignatureData(signature) => s.(rec := s.rec.(signature := signature))
    case SetAttribute(attribute) => s.(rec := s.rec.(attribute := WrapInt32(attribute)))
    case SetSource(source) => s.(rec := s.rec.(source := source))
    case SetInner(inner) => s.(rec := inner)
    case Decode(input) => s.(rec := DecodeTransaction(input).value, buffer := input)
  }

  function Run(env: Env, s: TxState, ops: seq<TxOp>): TxState
    requires forall op | op in ops :: Accepted(op)
    decreases |ops|
  {
    if ops == [] then s else Run(env, Step(env, s, ops[0]), ops[1..])
  }

  /** What encode returns. */
  function EncodeResult(env: Env, s: TxState, onlyHashFields: bool): bytes {
    var s' := Step(env, s, Encode(onlyHashFields));
    if onlyHashFields then s'.dataBuffer else s'.buffer
  }

  /** The first 32 bytes of the stored hash, which must be there. */
  function HashResult(env: Env, s: TxState): H256
    requires s.rec.dataHash == [] || |s.rec.dataHash| >= 32
  {
    FillHash(env, s).rec.dataHash[..32]
  }

  /** None if the stored text is not a number. */
  function NonceResult(s: TxState): Option<u256> {
    if s.rec.data.nonce == [] then Some(s.nonceCache) else Parse(s.rec.data.nonce)
  }

  // ------------------------------------------------------------ the cache invariant

  ghost predicate MemoCoherent(env: Env, t: Transaction) {
    t.dataHash == [] || t.dataHash == DataHash(env, t)
  }

  ghost predicate BufferHolds(buffer: bytes, d: TransactionData) {
    DecodeTransaction(buffer).Ok? && DecodeTransaction(buffer).value.data == d
  }

  /** Each cache is empty or agrees with the data of the record. */
  ghost predicate CacheInv(env: Env, s: TxState) {
    && TransactionFits(s.rec)
    && MemoCoherent(env, s.rec)
    && (s.dataBuffer == [] || s.dataBuffer == DataBytes(env, s.rec))
    && (s.buffer == [] || BufferHolds(s.buffer, s.rec.data))
  }

  /** When a call keeps the invariant: setters need an argument whose length can be encoded, and
      the two calls that replace the record must not change the data under a filled cache. */
  ghost predicate Keeps(env: Env, s: TxState, op: TxOp)
    requires Accepted(op)
  {
    match op
    case ForceSender(sender) => |sender| < 0x8000_0000
    case SetSignatureData(signature) => |signature| < 0x8000_0000
    case SetSource(source) => |source| < 0x1_0000_0000
    case SetInner(inner) =>
      && TransactionFits(inner) && MemoCoherent(env, inner)
      && (s.dataBuffer != [] || s.buffer != [] ==> inner.data == s.rec.data)
    case Decode(input) =>
      var t := DecodeTransaction(input).value;
      MemoCoherent(env, t) && (s.dataBuffer != [] ==> t.data == s.rec.data)
    case _ => true
  }

  lemma EncodeAllKeeps(env: Env, s: TxState)
    requires CacheInv(env, s)
    ensures CacheInv(env, EncodeAll(env, s))
    ensures WithDataBuffer(env, s).dataBuffer == DataBytes(env, s.rec)
    ensures s.buffer == [] ==>
      var s' := EncodeAll(env, s);
      s'.buffer != [] && DecodeTransaction(s'.buffer) == Ok(s'.rec) && s'.rec == Hashed(env, s.rec)
  {
    hide EncodeTransaction, DecodeTransaction, EncodeTransactionData;
    if s.buffer == [] {
      var rec := s.rec.(dataHash := DataHash(env, s.rec));
      TransactionRoundTrip(rec, env.omit);
      HashedTransactionNonEmpty(rec, env.omit);
    }
  }

  /** The guard is exact. */
  lemma StepKeepsInv(env: Env, s: TxState, op: TxOp)
    requires CacheInv(env, s) && Accepted(op)
    ensures CacheInv(env, Step(env, s, op)) <==> Keeps(env, s, op)
  {
    hide EncodeTransaction, DecodeTransaction, EncodeTransactionData, DataFits;
    match op {
      case Encode(_) => EncodeAllKeeps(env, s);
      case SetInner(inner) =>
        if s.dataBuffer != [] && TransactionFits(inner) && s.dataBuffer == DataBytes(env, inner) {
          TransactionDataInjective(inner.data, s.rec.data, env.omit);
        }
      case Decode(input) =>
        var t := DecodeTransaction(input).value;
        DecodedTransactionFits(input);
        if s.dataBuffer != [] && s.dataBuffer == DataBytes(env, t) {
          TransactionDataInjective(t.data, s.rec.data, env.omit);
        }
      case _ =>
    }
  }

  // ------------------------------------------------------------ whole runs

  /** The invariant holds before, between and after the calls of a run. */
  ghost predicate InvThroughout(env: Env, s: TxState, ops: seq<TxOp>)
    requires forall op | op in ops :: Accepted(op)
    decreases |ops|
  {
    CacheInv(env, s) && (ops == [] || InvThroughout(env, Step(env, s, ops[0]), ops[1..]))
  }

  ghost predicate AllKeep(env: Env, s: TxState, ops: seq<TxOp>)
    requires forall op | op in ops :: Accepted(op)
    decreases |ops|
  {
    ops == [] || (Keeps(env, s, ops[0]) && AllKeep(env, Step(env, s, ops[0]), ops[1..]))
  }

  /** The caches agree with the record throughout a run exactly when every call meets its guard. */
  lemma {:induction false} RunKeepsInv(env: Env, s: TxState, ops: seq<TxOp>)
    requires CacheInv(env, s) && forall op | op in ops :: Accepted(op)
    ensures InvThroughout(env, s, ops) <==> AllKeep(env, s, ops)
    ensures AllKeep(env, s, ops) ==> CacheInv(env, Run(env, s, ops))
    decreases |ops|
  {
    if ops != [] {
      hide CacheInv, Keeps, Step;
      StepKeepsInv(env, s, ops[0]);
      var s' := Step(env, s, ops[0]);
      if CacheInv(env, s') {
        RunKeepsInv(env, s', ops[1..]);
      }
    }
  }

  /** Reading calls, and setters of the envelope with arguments short enough to encode. */
  predicate EnvelopeOp(op: TxOp) {
    match op
    case ForceSender(sender) => |sender| < 0x8000_0000
    case SetSignatureData(signature) => |signature| < 0x8000_0000
    case SetSource(source) => |source| < 0x1_0000_0000
    case SetInner(_) => false
    case Decode(_) => false
    case _ => true
  }

  /** Over any run of such calls the caches stay right, the data stays what it was, and every hash
      that is returned is the hash of that data. */
  lemma {:induction false} EnvelopeRun(env: Env, s: TxState, ops: seq<TxOp>)
    requires CacheInv(env, s)
    requires forall op | op in ops :: EnvelopeOp(op) && Accepted(op)
    ensures CacheInv(env, Run(env, s, ops))
    ensures Run(env, s, ops).rec.data == s.rec.data
    ensures HashResult(env, Run(env, s, ops)) == DataHash(env, s.rec)
    decreases |ops|
  {
    hide EncodeTransaction, DecodeTransaction, EncodeTransactionData, TransactionFits, BufferHolds;
    if ops == [] {
      EncodeAllKeeps(env, s);
      assert DataHash(env, s.rec)[..32] == DataHash(env, s.rec);
    } else {
      var s' := Step(env, s, ops[0]);
      StepKeepsInv(env, s, ops[0]);
      assert s'.rec.data == s.rec.data;
      EnvelopeRun(env, s', ops[1..]);
    }
  }

  // ------------------------------------------------------------ the full encoding

  /** The record with its hash filled in: what encode promises to send. */
  function Hashed(env: Env, t: Transaction): Transaction {
    t.(dataHash := DataHash(env, t))
  }

  /** What encode returns decodes to the record as it is now, hash included. */
  ghost predicate EncodesRecord(env: Env, s: TxState) {
    DecodeTransaction(EncodeResult(env, s, false)) == Ok(Hashed(env, s.rec))
  }

  /** Where the caches agree with the data, only a filled full buffer can be behind the record. */
  lemma EncodesRecordWhen(env: Env, s: TxState)
    requires CacheInv(env, s)
    ensures EncodesRecord(env, s) <==> s.buffer == [] || DecodeTransaction(s.buffer) == Ok(Hashed(env, s.rec))
  {
    hide EncodeTransaction, DecodeTransaction, EncodeTransactionData, TransactionFits;
    EncodeAllKeeps(env, s);
  }

  ghost predicate Fresh(env: Env, s: TxState) {
    CacheInv(env, s) && EncodesRecord(env, s)
  }

  /** While the full buffer is filled, setters must not change anything, and a record that is put in
      the place of the old one may differ from it only in its memo. */
  ghost predicate KeepsFresh(env: Env, s: TxState, op: TxOp)
    requires Accepted(op)
  {
    Keeps(env, s, op) &&
    match op
    case SetImportTime(time) => s.buffer == [] || s.rec.importTime == time
    case ForceSender(sender) => s.buffer == [] || s.rec.sender == sender
    case SetSignatureData(signature) => s.buffer == [] || s.rec.signature == signature
    case SetAttribute(attribute) => s.buffer == [] || s.rec.attribute == WrapInt32(attribute)
    case SetSource(source) => s.buffer == [] || s.rec.source == source
    case SetInner(inner) => s.buffer == [] || inner == s.rec.(dataHash := inner.dataHash)
    case Decode(input) => input == [] || DecodeTransaction(input).value.dataHash != []
    case _ => true
  }

  /** The guard is exact: encode returns the record after a call if and only if it meets the guard. */
  lemma StepKeepsFresh(env: Env, s: TxState, op: TxOp)
    requires Fresh(env, s) && Accepted(op)
    ensures Fresh(env, Step(env, s, op)) <==> KeepsFresh(env, s, op)
    ensures Keeps(env, s, op) ==> (EncodesRecord(env, Step(env, s, op)) <==> KeepsFresh(env, s, op))
  {
    hide EncodeTransaction, DecodeTransaction, EncodeTransactionData, CacheInv, Keeps, EncodesRecord;
    StepKeepsInv(env, s, op);
    EncodesRecordWhen(env, s);
    EncodeAllKeeps(env, s);
    var s' := Step(env, s, op);
    if CacheInv(env, s') {
      EncodesRecordWhen(env, s');
      if op.Decode? {
        assert s'.rec.dataHash == [] || s'.rec.dataHash == DataHash(env, s'.rec) by { InvMeansCoherent(env, s'); }
      }
    }
  }

  lemma InvMeansCoherent(env: Env, s: TxState)
    requires CacheInv(env, s)
    ensures MemoCoherent(env, s.rec)
  {
  }

  /** Encode would return the record before, between and after the calls of a run. */
  ghost predicate FreshThroughout(env: Env, s: TxState, ops: seq<TxOp>)
    requires forall op | op in ops :: Accepted(op)
    decreases |ops|
  {
    Fresh(env, s) && (ops == [] || FreshThroughout(env, Step(env, s, ops[0]), ops[1..]))
  }

  ghost predicate AllKeepFresh(env: Env, s: TxState, ops: seq<TxOp>)
    requires forall op | op in ops :: Accepted(op)
    decreases |ops|
  {
    ops == [] || (KeepsFresh(env, s, ops[0]) && AllKeepFresh(env, Step(env, s, ops[0]), ops[1..]))
  }

  lemma {:induction false} RunKeepsFresh(env: Env, s: TxState, ops: seq<TxOp>)
    requires Fresh(env, s) && forall op | op in ops :: Accepted(op)
    ensures FreshThroughout(env, s, ops) <==> AllKeepFresh(env, s, ops)
    ensures AllKeepFresh(env, s, ops) ==> Fresh(env, Run(env, s, ops))
    decreases |ops|
  {
    hide Fresh, KeepsFresh, Step;
    if ops != [] {
      StepKeepsFresh(env, s, ops[0]);
      var s' := Step(env, s, ops[0]);
      if Fresh(env, s') {
        RunKeepsFresh(env, s', ops[1..]);
      }
    }
  }

  /** Encoding a fresh state fills the memo and gives bytes that decode to the record; encoding
      again, at once or after the buffer was taken, gives the same record. */
  lemma FullEncoding(env: Env, s: TxState)
    requires Fresh(env, s)
    ensures var s' := Step(env, s, Encode(false));
      && Fresh(env, s')
      && s'.rec.data == s.rec.data && Hashed(env, s'.rec) == Hashed(env, s.rec)
      && (s.buffer == [] ==> s'.rec == Hashed(env, s.rec))
      && DecodeTransaction(EncodeResult(env, s, false)) == Ok(Hashed(env, s.rec))
      && EncodeResult(env, s', false) == EncodeResult(env, s, false)
      && DecodeTransaction(EncodeResult(env, Step(env, s', TakeEncoded), false)) == Ok(Hashed(env, s.rec))
  {
    hide EncodeTransaction, DecodeTransaction, EncodeTransactionData, CacheInv;
    EncodeAllKeeps(env, s);
    EncodesRecordWhen(env, s);
    StepKeepsFresh(env, s, Encode(false));
    var s' := EncodeAll(env, s);
    StepKeepsFresh(env, s', TakeEncoded);
    assert EncodesRecord(env, Step(env, s', TakeEncoded));
  }

  /** No setter comes between filling the full buffer and taking it. */
  predicate Quiet(ops: seq<TxOp>, filled: bool)
    decreases |ops|
  {
    ops == [] || (EnvelopeOp(ops[0]) && match ops[0]
      case Encode(onlyHashFields) => Quiet(ops[1..], filled || !onlyHashFields)
      case TakeEncoded => Quiet(ops[1..], false)
      case Hash => Quiet(ops[1..], filled)
      case Nonce => Quiet(ops[1..], filled)
      case _ => !filled && Quiet(ops[1..], filled))
  }

  lemma {:induction false} QuietRun(env: Env, s: TxState, ops: seq<TxOp>)
    requires Fresh(env, s) && Quiet(ops, s.buffer != []) && forall op | op in ops :: Accepted(op)
    ensures AllKeepFresh(env, s, ops)
    decreases |ops|
  {
    hide EncodeTransaction, DecodeTransaction, EncodeTransactionData, CacheInv;
    if ops != [] {
      if ops[0].Encode? {
        EncodeAllKeeps(env, s);
      }
      StepKeepsFresh(env, s, ops[0]);
      QuietRun(env, Step(env, s, ops[0]), ops[1..]);
    }
  }

  /** From a factory object, after any quiet run, the full encoding decodes to the record as it is
      then, with the hash of its data filled in. */
  lemma FactoryRunEncodes(env: Env, t: Transaction, ops: seq<TxOp>)
    requires TransactionFits(t) && MemoCoherent(env, t)
    requires Quiet(ops, false) && forall op | op in ops :: Accepted(op)
    ensures EncodesRecord(env, Run(env, Wrap(t), ops))
  {
    hide EncodesRecord, TransactionFits;
    EncodesRecordWhen(env, Wrap(t));
    QuietRun(env, Wrap(t), ops);
    RunKeepsFresh(env, Wrap(t), ops);
  }

  predicate SetsEnvelope(op: TxOp) {
    op.SetImportTime? || op.ForceSender? || op.SetSignatureData? || op.SetAttribute? || op.SetSource?
  }

  /** Any envelope setter that changes the record after the full buffer was filled is missing from
      the full encoding. */
  lemma SetterAfterEncodeIsLost(env: Env, s: TxState, op: TxOp)
    requires Fresh(env, s) && s.buffer != []
    requires SetsEnvelope(op) && Step(env, s, op).rec != s.rec
    ensures var s' := Step(env, s, op);
      DecodeTransaction(EncodeResult(env, s', false)) == Ok(Hashed(env, s.rec)) && !EncodesRecord(env, s')
  {
    hide EncodeTransaction, DecodeTransaction, EncodeTransactionData, CacheInv;
    EncodesRecordWhen(env, s);
  }

  /** What an envelope setter was given. */
  ghost predicate Carries(before: Transaction, op: TxOp, after: Transaction)
    requires SetsEnvelope(op)
  {
    match op
    case SetImportTime(time) => after == before.(importTime := time)
    case ForceSender(sender) => after == before.(sender := sender)
    case SetSignatureData(signature) => after == before.(signature := signature)
    case SetAttribute(attribute) =>
      after == before.(attribute := after.attribute) && (after.attribute - attribute) % 0x1_0000_0000 == 0
    case SetSource(source) => after == before.(source := source)
  }

  /** Once the full buffer is empty or has been taken, what an envelope setter was given is in what encode
      returns next, and nothing else has changed there. */
  lemma SetterIsSent(env: Env, s: TxState, op: TxOp)
    requires Fresh(env, s) && SetsEnvelope(op) && EnvelopeOp(op)
    ensures s.buffer == [] ==>
      var r := DecodeTransaction(EncodeResult(env, Step(env, s, op), false));
      r.Ok? && Carries(Hashed(env, s.rec), op, r.value)
    ensures var r := DecodeTransaction(EncodeResult(env, Step(env, Step(env, s, TakeEncoded), op), false));
      r.Ok? && Carries(Hashed(env, s.rec), op, r.value)
  {
    hide EncodeTransaction, DecodeTransaction, EncodeTransactionData, CacheInv, EncodeResult, Hashed, Carries;
    CacheWithoutBuffer(env, s);
    SetterOnEmptyIsSent(env, s.(buffer := []), op);
    assert s.buffer == [] ==> s == s.(buffer := []);
  }

  lemma CacheWithoutBuffer(env: Env, s: TxState)
    requires CacheInv(env, s)
    ensures CacheInv(env, s.(buffer := []))
  {
  }

  lemma SetterOnEmptyIsSent(env: Env, s: TxState, op: TxOp)
    requires CacheInv(env, s) && s.buffer == [] && SetsEnvelope(op) && EnvelopeOp(op)
    ensures var r := DecodeTransaction(EncodeResult(env, Step(env, s, op), false));
      r.Ok? && Carries(Hashed(env, s.rec), op, r.value)
  {
    hide EncodeTransaction, DecodeTransaction, EncodeTransactionData, CacheInv;
    StepKeepsInv(env, s, op);
    EncodesRecordWhen(env, Step(env, s, op));
  }

  // ------------------------------------------------------------ equality

  /** The wrappers' equality compares hashes, so where the hash does not collide it compares data. */
  lemma EqualityIsDataEquality(env: Env, s: TxState, t: TxState)
    requires CacheInv(env, s) && CacheInv(env, t)
    requires DataHash(env, s.rec) == DataHash(env, t.rec) ==> DataBytes(env, s.rec) == DataBytes(env, t.rec)
    ensures HashResult(env, s) == HashResult(env, t) <==> s.rec.data == t.rec.data
  {
    hide EncodeTransactionData, DataFits;
    HashOfCoherent(env, s);
    HashOfCoherent(env, t);
    if DataBytes(env, s.rec) == DataBytes(env, t.rec) {
      TransactionDataInjective(s.rec.data, t.rec.data, env.omit);
    }
  }

  lemma HashOfCoherent(env: Env, s: TxState)
    requires CacheInv(env, s)
    ensures s.rec.dataHash == [] || |s.rec.dataHash| == 32
    ensures HashResult(env, s) == DataHash(env, s.rec)
    ensures FillHash(env, s).rec == s.rec.(dataHash := DataHash(env, s.rec))
  {
    hide EncodeTransactionData;
    EncodeAllKeeps(env, s);
    assert DataHash(env, s.rec)[..32] == DataHash(env, s.rec);
  }

  /** Another wrapper of the same record may fill its memo. */
  lemma MemoFilledElsewhere(env: Env, s: TxState)
    requires CacheInv(env, s)
    ensures CacheInv(env, s.(rec := s.rec.(dataHash := DataHash(env, s.rec))))
  {
  }

  // ------------------------------------------------------------ the factory

  function Wrap(t: Transaction): TxState {
    TxState(t, [], [], 0)
  }

  function Build(version: int32, to: bytes, input: bytes, nonce: u256, blockLimit: int64, chainId: bytes,
                 groupId: bytes, importTime: int64): Transaction
  {
    Transaction(TransactionData(version, chainId, groupId, blockLimit, Print(nonce), to, input), [], [], importTime, 0,
                [], [])
  }

  /** The state after createTransaction with a key pair. */
  function BuildAndSign(env: Env, t: Transaction, key: bytes): TxState
    requires t.dataHash == []
  {
    var s := FillHash(env, Wrap(t));
    s.(rec := s.rec.(signature := env.sign(key, HashResult(env, Wrap(t)))))
  }

  /** What was signed is the hash of the transaction that decodes from the full encoding, and the
      decoded transaction carries that signature and the nonce it was built with. */
  lemma SignEncodeDecode(env: Env, version: int32, to: bytes, input: bytes, nonce: u256, blockLimit: int64,
                         chainId: bytes, groupId: bytes, importTime: int64, key: bytes)
    requires |to| < 0x1_0000_0000 && |input| < 0x8000_0000 && |chainId| < 0x1_0000_0000 && |groupId| < 0x1_0000_0000
    requires forall h :: |env.sign(key, h)| < 0x8000_0000
    ensures var t := Build(version, to, input, nonce, blockLimit, chainId, groupId, importTime);
      var signed := HashResult(env, Wrap(t));
      var encoded := EncodeResult(env, BuildAndSign(env, t, key), false);
      && signed == DataHash(env, t)
      && DecodeTransaction(encoded).Ok?
      && var d := TxState(DecodeTransaction(encoded).value, encoded, [], 0);
        && d.rec == t.(dataHash := signed, signature := env.sign(key, signed))
        && d.rec == Step(env, BuildAndSign(env, t, key), Encode(false)).rec
        && HashResult(env, d) == signed
        && NonceResult(d) == Some(nonce)
        && Fresh(env, d)
        && d.rec.data.version == version && d.rec.data.chainID == chainId && d.rec.data.groupID == groupId
        && d.rec.data.blockLimit == blockLimit && d.rec.data.to == to && d.rec.data.input == input
        && d.rec.importTime == importTime && d.rec.attribute == 0 && d.rec.source == d.rec.sender == []
        && signed == env.hash(EncodeTransactionData(d.rec.data, env.omit))
        && d.rec.dataHash == signed && d.rec.signature == env.sign(key, signed)
  {
    var t := Build(version, to, input, nonce, blockLimit, chainId, groupId, importTime);
    U256Length(nonce);
    ParseOfPrint(nonce);
    hide Print, Parse, EncodeTransaction, DecodeTransaction, EncodeTransactionData;
    var s := BuildAndSign(env, t, key);
    assert DataHash(env, t)[..32] == DataHash(env, t);
    assert CacheInv(env, s);
    EncodesRecordWhen(env, s);
    FullEncoding(env, s);
  }
}
