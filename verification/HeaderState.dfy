/**
 A block header and the views through which it is used, as a state machine: one shared record, and
 one private parent list cache per view.
 */
module HeaderState {
  import opened Base
  import opened Decimal
  import opened Environment
  import opened TarsCodec
  import opened Records
  import opened RecordCodec

  // The framework's forms of parent infos and signatures.
  datatype ParentView = ParentView(blockNumber: int64, blockHash: H256)
  datatype SignatureView = SignatureView(index: int64, signature: bytes)

  datatype HeaderOp =
    | SetVersion(version: int32)
    | SetParentInfo(parents: seq<ParentView>)
    | SetTxsRoot(root: H256)
    | SetReceiptsRoot(root: H256)
    | SetStateRoot(root: H256)
    | SetNumber(number: int64)
    | SetGasUsed(gas: u256)
    | SetTimestamp(timestamp: int64)
    | SetSealer(sealer: int64)
    | SetSealerList(sealers: seq<bytes>)
    | SetExtraData(extra: bytes)
    | SetConsensusWeights(weights: seq<uint64>)
    | SetSignatureList(signatures: seq<SignatureView>)
    | SetInner(inner: Header)
    | Decode(input: bytes)
    | Clear
    | Hash
    | Encode
    | GetParentInfo

  // ------------------------------------------------------------ representation

  function StoreParents(ps: seq<ParentView>): (r: seq<ParentInfo>)
    ensures |r| == |ps|
  {
    seq(|ps|, i requires 0 <= i < |ps| => ParentInfo(ps[i].blockNumber, ps[i].blockHash))
  }

  function ReadParents(ps: seq<ParentInfo>): (r: seq<ParentView>)
    ensures |r| == |ps|
  {
    seq(|ps|, i requires 0 <= i < |ps| => ParentView(ps[i].blockNumber, AsHash(ps[i].blockHash)))
  }

  lemma ReadOfStoreParents(ps: seq<ParentView>)
    ensures ReadParents(StoreParents(ps)) == ps
  {
    assert forall i | 0 <= i < |ps| :: ps[i].blockHash[..32] == ps[i].blockHash;
  }

  function StoreSignatures(ss: seq<SignatureView>): (r: seq<Signature>)
    ensures |r| == |ss|
  {
    seq(|ss|, i requires 0 <= i < |ss| => Signature(ss[i].index, ss[i].signature))
  }

  function ReadSignatures(ss: seq<Signature>): (r: seq<SignatureView>)
    ensures |r| == |ss|
  {
    seq(|ss|, i requires 0 <= i < |ss| => SignatureView(ss[i].sealerIndex, ss[i].signature))
  }

  function StoreWeights(ws: seq<uint64>): (r: seq<int64>)
    ensures |r| == |ws|
  {
    seq(|ws|, i requires 0 <= i < |ws| => AsInt64(ws[i]))
  }

  function ReadWeights(ws: seq<int64>): (r: seq<uint64>)
    ensures |r| == |ws|
  {
    seq(|ws|, i requires 0 <= i < |ws| => AsUInt64(ws[i]))
  }

  // ------------------------------------------------------------ operations

  predicate Accepted(op: HeaderOp) {
    op.Decode? ==> DecodeHeader(op.input).Ok?
  }

  function WriteData(d: HeaderData, op: HeaderOp): HeaderData {
    match op
    case SetVersion(version) => d.(version := version)
    case SetParentInfo(parents) => d.(parentInfo := StoreParents(parents))
    case SetTxsRoot(root) => d.(txsRoot := root)
    case SetReceiptsRoot(root) => d.(receiptRoot := root)
    case SetStateRoot(root) => d.(stateRoot := root)
    case SetNumber(number) => d.(blockNumber := number)
    case SetGasUsed(gas) => d.(gasUsed := Print(gas))
    case SetTimestamp(timestamp) => d.(timestamp := timestamp)
    case SetSealer(sealer) => d.(sealer := sealer)
    case SetSealerList(sealers) => d.(sealerList := sealers)
    case SetExtraData(extra) => d.(extraData := extra)
    case SetConsensusWeights(weights) => d.(consensusWeights := StoreWeights(weights))
    case _ => d
  }

  function DataHash(env: Env, h: Header): H256 {
    env.hash(EncodeHeaderData(h.data, env.omit))
  }

  /** The effect of a call on the record, the same through every view. */
  function Write(env: Env, h: Header, op: HeaderOp): Header
    requires Accepted(op)
  {
    match op
    case SetSignatureList(signatures) => h.(signatureList := h.signatureList + StoreSignatures(signatures))
    case SetInner(inner) => inner
    case Decode(input) => DecodeHeader(input).value
    case Clear => DEFAULT_HEADER
    case Hash => if h.dataHash == [] then h.(dataHash := DataHash(env, h)) else h
    case _ => h.(data := WriteData(h.data, op))
  }

  /** The effect of a call on the cache of the view it is made through. */
  function WriteCache(cache: seq<ParentView>, h: Header, op: HeaderOp): seq<ParentView> {
    match op
    case SetParentInfo(_) => []
    case Clear => []
    case GetParentInfo => ParentsResult(cache, h)
    case _ => cache
  }

  function ParentsResult(cache: seq<ParentView>, h: Header): seq<ParentView> {
    if cache == [] then ReadParents(h.data.parentInfo) else cache
  }

  function HashResult(env: Env, h: Header): H256 {
    AsHash(Write(env, h, Hash).dataHash)
  }

  /** None if the stored text is not a number. */
  function GasUsedResult(h: Header): Option<u256> {
    ParseStored(h.data.gasUsed)
  }

  /** What the source demands of a call: input that decodes, and stored hashes long enough to read. */
  predicate Permitted(h: Header, op: HeaderOp) {
    && Accepted(op)
    && (op.Hash? ==> Readable(h.dataHash))
    && (op.GetParentInfo? ==> forall i | 0 <= i < |h.data.parentInfo| :: |h.data.parentInfo[i].blockHash| >= 32)
  }

  // ------------------------------------------------------------ many views of one header

  datatype Views = Views(rec: Header, caches: seq<seq<ParentView>>)

  /** A call through view `view`. */
  datatype Call = Call(view: nat, op: HeaderOp)

  predicate Possible(views: nat, c: Call) {
    c.view < views && Accepted(c.op)
  }

  predicate AllPossible(views: nat, calls: seq<Call>) {
    forall i | 0 <= i < |calls| :: Possible(views, calls[i])
  }

  predicate AllAccepted(ops: seq<HeaderOp>) {
    forall i | 0 <= i < |ops| :: Accepted(ops[i])
  }

  function Step(env: Env, s: Views, c: Call): (s': Views)
    requires Possible(|s.caches|, c)
    ensures |s'.caches| == |s.caches|
  {
    Views(Write(env, s.rec, c.op), s.caches[c.view := WriteCache(s.caches[c.view], s.rec, c.op)])
  }

  function Run(env: Env, s: Views, calls: seq<Call>): (s': Views)
    requires AllPossible(|s.caches|, calls)
    ensures |s'.caches| == |s.caches|
    decreases |calls|
  {
    if calls == [] then s else Run(env, Step(env, s, calls[0]), calls[1..])
  }

  /** The record after a sequence of operations made through a single view. */
  function WriteAll(env: Env, h: Header, ops: seq<HeaderOp>): Header
    requires AllAccepted(ops)
    decreases |ops|
  {
    if ops == [] then h else WriteAll(env, Write(env, h, ops[0]), ops[1..])
  }

  function Ops(calls: seq<Call>): (ops: seq<HeaderOp>)
    ensures |ops| == |calls|
  {
    seq(|calls|, i requires 0 <= i < |calls| => calls[i].op)
  }

  /** Whatever the interleaving of views, the record is what the same calls through one view make
      of it: no view ever works on a copy. */
  lemma {:induction false} ViewsShareTheRecord(env: Env, s: Views, calls: seq<Call>)
    requires AllPossible(|s.caches|, calls)
    ensures AllAccepted(Ops(calls))
    ensures Run(env, s, calls).rec == WriteAll(env, s.rec, Ops(calls))
    decreases |calls|
  {
    hide Write, WriteCache;
    if calls != [] {
      assert Ops(calls)[1..] == Ops(calls[1..]);
      assert Accepted(calls[0].op);
      ViewsShareTheRecord(env, Step(env, s, calls[0]), calls[1..]);
    }
  }

  /** The data fields, by position in the schema, that a call may change. */
  function Touched(op: HeaderOp): set<nat> {
    match op
    case SetVersion(_) => {0}
    case SetParentInfo(_) => {1}
    case SetTxsRoot(_) => {2}
    case SetReceiptsRoot(_) => {3}
    case SetStateRoot(_) => {4}
    case SetNumber(_) => {5}
    case SetGasUsed(_) => {6}
    case SetTimestamp(_) => {7}
    case SetSealer(_) => {8}
    case SetSealerList(_) => {9}
    case SetExtraData(_) => {10}
    case SetConsensusWeights(_) => {11}
    case SetInner(_) => {0, 1, 2, 3, 4, 5, 6, 7, 8, 9, 10, 11}
    case Decode(_) => {0, 1, 2, 3, 4, 5, 6, 7, 8, 9, 10, 11}
    case Clear => {0, 1, 2, 3, 4, 5, 6, 7, 8, 9, 10, 11}
    case _ => {}
  }

  function DataField(h: Header, i: nat): Val
    requires i < 12
  {
    h.data.ToVal().fs[i]
  }

  lemma FieldValues(d: HeaderData)
    ensures d.ToVal().fs == [VInt(d.version), FromParents(d.parentInfo), VBytes(d.txsRoot), VBytes(d.receiptRoot),
                             VBytes(d.stateRoot), VInt(d.blockNumber), VBytes(d.gasUsed), VInt(d.timestamp),
                             VInt(d.sealer), FromBlobs(d.sealerList), VBytes(d.extraData),
                             FromLongs(d.consensusWeights)]
  {
    hide FromParents, FromBlobs, FromLongs, HasType;
  }

  lemma UntouchedByWriteData(d: HeaderData, op: HeaderOp, i: nat)
    requires i < 12 && i !in Touched(op)
    ensures WriteData(d, op).ToVal().fs[i] == d.ToVal().fs[i]
  {
    FieldValues(d);
    FieldValues(WriteData(d, op));
    hide FromParents, FromBlobs, FromLongs, HeaderData.ToVal, Print, StoreParents, StoreWeights, HasType;
  }

  lemma UntouchedKept(env: Env, h: Header, op: HeaderOp, i: nat)
    requires Accepted(op) && i < 12 && i !in Touched(op)
    ensures DataField(Write(env, h, op), i) == DataField(h, i)
  {
    hide HeaderData.ToVal, EncodeHeaderData, DecodeHeader, StoreSignatures, HasType;
    UntouchedByWriteData(h.data, op, i);
    assert Write(env, h, op).data == WriteData(h.data, op);
  }

  /** After any interleaving, a field holds what the last call that touches it, through whichever
      view, has written. */
  lemma {:induction false} LastWriteSeen(env: Env, s: Views, calls: seq<Call>, last: nat, i: nat)
    requires AllPossible(|s.caches|, calls)
    requires i < 12 && last < |calls|
    requires forall k | last < k < |calls| :: i !in Touched(calls[k].op)
    ensures AllPossible(|s.caches|, calls[..last])
    ensures DataField(Run(env, s, calls).rec, i)
      == DataField(Write(env, Run(env, s, calls[..last]).rec, calls[last].op), i)
    decreases |calls|
  {
    hide Write, WriteCache, DataField, Touched;
    var n := |calls| - 1;
    RunLast(env, s, calls);
    if last < n {
      var init := calls[..n];
      LastWriteSeen(env, s, init, last, i);
      assert init[..last] == calls[..last];
      UntouchedKept(env, Run(env, s, init).rec, calls[n].op, i);
    }
  }

  lemma {:induction false} RunLast(env: Env, s: Views, calls: seq<Call>)
    requires calls != [] && AllPossible(|s.caches|, calls)
    ensures var n := |calls| - 1;
      && AllPossible(|s.caches|, calls[..n])
      && Possible(|s.caches|, calls[n])
      && Run(env, s, calls) == Step(env, Run(env, s, calls[..n]), calls[n])
    decreases |calls|
  {
    hide Write, WriteCache;
    var n := |calls| - 1;
    if n == 0 {
      assert calls[..0] == [] && calls[1..] == [];
    } else {
      var s', rest := Step(env, s, calls[0]), calls[1..];
      RunLast(env, s', rest);
      assert calls[..n][1..] == rest[..n - 1];
      assert calls[..n][0] == calls[0];
    }
  }

  predicate SetsData(op: HeaderOp) {
    op.SetVersion? || op.SetParentInfo? || op.SetTxsRoot? || op.SetReceiptsRoot? || op.SetStateRoot? || op.SetNumber?
    || op.SetGasUsed? || op.SetTimestamp? || op.SetSealer? || op.SetSealerList? || op.SetExtraData?
    || op.SetConsensusWeights?
  }

  predicate Replaces(op: HeaderOp) {
    op.SetInner? || op.Decode? || op.Clear?
  }

  /** The data hold what a setter was given, in the field its name says. */
  ghost predicate StoredBy(d: HeaderData, op: HeaderOp)
    requires SetsData(op)
  {
    match op
    case SetVersion(version) => d.version == version
    case SetParentInfo(parents) =>
      |d.parentInfo| == |parents| && forall i | 0 <= i < |parents| ::
        d.parentInfo[i].blockNumber == parents[i].blockNumber && d.parentInfo[i].blockHash == parents[i].blockHash
    case SetTxsRoot(root) => d.txsRoot == root
    case SetReceiptsRoot(root) => d.receiptRoot == root
    case SetStateRoot(root) => d.stateRoot == root
    case SetNumber(number) => d.blockNumber == number
    case SetGasUsed(gas) => d.gasUsed == Print(gas)
    case SetTimestamp(timestamp) => d.timestamp == timestamp
    case SetSealer(sealer) => d.sealer == sealer
    case SetSealerList(sealers) => d.sealerList == sealers
    case SetExtraData(extra) => d.extraData == extra
    case SetConsensusWeights(weights) =>
      |d.consensusWeights| == |weights| && forall i | 0 <= i < |weights| ::
        (d.consensusWeights[i] - weights[i]) % 0x1_0000_0000_0000_0000 == 0
  }

  /** A later call to the same setter, or one that replaces the record. */
  predicate Overwrites(later: HeaderOp, op: HeaderOp)
    requires SetsData(op)
  {
    Replaces(later) ||
    match op
    case SetVersion(_) => later.SetVersion?
    case SetParentInfo(_) => later.SetParentInfo?
    case SetTxsRoot(_) => later.SetTxsRoot?
    case SetReceiptsRoot(_) => later.SetReceiptsRoot?
    case SetStateRoot(_) => later.SetStateRoot?
    case SetNumber(_) => later.SetNumber?
    case SetGasUsed(_) => later.SetGasUsed?
    case SetTimestamp(_) => later.SetTimestamp?
    case SetSealer(_) => later.SetSealer?
    case SetSealerList(_) => later.SetSealerList?
    case SetExtraData(_) => later.SetExtraData?
    case SetConsensusWeights(_) => later.SetConsensusWeights?
  }

  lemma StoredAtOnce(env: Env, h: Header, op: HeaderOp)
    requires SetsData(op)
    ensures StoredBy(Write(env, h, op).data, op)
  {
    hide Print, EncodeHeaderData, DecodeHeader, AsInt64;
  }

  lemma StoredStays(env: Env, h: Header, op: HeaderOp, later: HeaderOp)
    requires SetsData(op) && StoredBy(h.data, op) && Accepted(later) && !Overwrites(later, op)
    ensures StoredBy(Write(env, h, later).data, op)
  {
    hide Print, EncodeHeaderData, DecodeHeader, StoreParents, StoreWeights, StoreSignatures;
  }

  /** Call `last` is a setter that no later call overwrites. */
  predicate LastSetter(calls: seq<Call>, last: nat) {
    && last < |calls| && SetsData(calls[last].op)
    && forall k | last < k < |calls| :: !Overwrites(calls[k].op, calls[last].op)
  }

  /** After any interleaving the record holds what each of the last setters was given, whichever view it
      came through. */
  lemma {:induction false} LastSetterSeen(env: Env, s: Views, calls: seq<Call>, last: nat)
    requires AllPossible(|s.caches|, calls) && LastSetter(calls, last)
    ensures StoredBy(Run(env, s, calls).rec.data, calls[last].op)
    decreases |calls|
  {
    hide Write, WriteCache, StoredBy, Overwrites, SetsData;
    var n := |calls| - 1;
    RunLast(env, s, calls);
    var init := Run(env, s, calls[..n]);
    if last < n {
      assert calls[..n][last] == calls[last];
      LastSetterSeen(env, s, calls[..n], last);
      StoredStays(env, init.rec, calls[last].op, calls[n].op);
    } else {
      StoredAtOnce(env, init.rec, calls[n].op);
    }
  }

  /** The data hold what every setter that was not overwritten was given. */
  ghost predicate LastSettersStored(d: HeaderData, calls: seq<Call>) {
    forall k: nat | LastSetter(calls, k) :: StoredBy(d, calls[k].op)
  }

  lemma LastSettersSeen(env: Env, s: Views, calls: seq<Call>)
    requires AllPossible(|s.caches|, calls)
    ensures LastSettersStored(Run(env, s, calls).rec.data, calls)
  {
    hide StoredBy, Overwrites, SetsData, Run;
    forall k: nat | LastSetter(calls, k)
      ensures StoredBy(Run(env, s, calls).rec.data, calls[k].op)
    {
      LastSetterSeen(env, s, calls, k);
    }
  }

  /** What a setter stores, the matching getter returns. */
  lemma GettersReadSetters(env: Env, h: Header, op: HeaderOp)
    requires Accepted(op)
    ensures op.SetParentInfo? ==> ParentsResult([], Write(env, h, op)) == op.parents
    ensures op.SetGasUsed? ==> GasUsedResult(Write(env, h, op)) == Some(op.gas)
    ensures op.SetConsensusWeights? ==> ReadWeights(Write(env, h, op).data.consensusWeights) == op.weights
    ensures op.SetTxsRoot? ==> AsHash(Write(env, h, op).data.txsRoot) == op.root
    ensures op.SetReceiptsRoot? ==> AsHash(Write(env, h, op).data.receiptRoot) == op.root
    ensures op.SetStateRoot? ==> AsHash(Write(env, h, op).data.stateRoot) == op.root
  {
    hide Print, Parse;
    match op {
      case SetParentInfo(parents) => ReadOfStoreParents(parents);
      case SetGasUsed(gas) => ParseOfPrint(gas); assert Print(gas) != [];
      case SetTxsRoot(root) => assert root[..32] == root;
      case SetReceiptsRoot(root) => assert root[..32] == root;
      case SetStateRoot(root) => assert root[..32] == root;
      case _ =>
    }
  }

  /** setSignatureList adds to what is there, so it sets the list only on a header without one. */
  lemma SignaturesAccumulate(env: Env, h: Header, ss: seq<SignatureView>)
    ensures ReadSignatures(Write(env, h, SetSignatureList(ss)).signatureList) == ReadSignatures(h.signatureList) + ss
    ensures ReadSignatures(Write(env, h, SetSignatureList(ss)).signatureList) == ss <==> h.signatureList == []
  {
    var r := ReadSignatures(Write(env, h, SetSignatureList(ss)).signatureList);
    assert r == ReadSignatures(h.signatureList) + ss;
    if r == ss {
      assert |r| == |h.signatureList| + |ss|;
    }
  }

  // ------------------------------------------------------------ the hash memo

  ghost predicate MemoCoherent(env: Env, h: Header) {
    h.dataHash == [] || h.dataHash == DataHash(env, h)
  }

  /** The header can be encoded, and its memo, if filled, is the hash of its data. */
  ghost predicate HeaderInv(env: Env, h: Header) {
    HeaderFits(h) && MemoCoherent(env, h)
  }

  /** What a call adds to the record is short enough for its length fields. */
  predicate ArgumentFits(h: Header, op: HeaderOp) {
    match op
    case SetParentInfo(parents) => |parents| < 0x8000_0000
    case SetSealerList(sealers) => BlobsFit(sealers)
    case SetExtraData(extra) => |extra| < 0x8000_0000
    case SetConsensusWeights(weights) => |weights| < 0x8000_0000
    case SetSignatureList(signatures) => SignaturesFit(h.signatureList + StoreSignatures(signatures))
    case _ => true
  }

  /** Setters of the data leave the memo alone, so with the memo filled they may only set what is
      there already; a call that replaces the record must bring a coherent memo. */
  ghost predicate KeepsHeader(env: Env, h: Header, op: HeaderOp)
    requires Accepted(op)
  {
    match op
    case SetInner(inner) => HeaderInv(env, inner)
    case Decode(input) => MemoCoherent(env, DecodeHeader(input).value)
    case Clear => true
    case _ => ArgumentFits(h, op) && (h.dataHash != [] ==> WriteData(h.data, op) == h.data)
  }

  /** The hash tells the data before a setter from the data after it. */
  ghost predicate NoCollision(env: Env, d: HeaderData, op: HeaderOp) {
    var before, after := EncodeHeaderData(d, env.omit), EncodeHeaderData(WriteData(d, op), env.omit);
    env.hash(before) == env.hash(after) ==> before == after
  }

  lemma WrittenFits(env: Env, h: Header, op: HeaderOp)
    requires HeaderFits(h) && Accepted(op)
    ensures op.SetInner? || op.Decode? || op.Clear? || (HeaderFits(Write(env, h, op)) <==> ArgumentFits(h, op))
    ensures op.Decode? ==> HeaderFits(Write(env, h, op))
  {
    hide DecodeHeader, EncodeHeaderData, Print;
    match op {
      case SetGasUsed(gas) => U256Length(gas);
      case Decode(input) => DecodedHeaderFits(input);
      case _ =>
    }
  }

  /** The guard is enough, and where the hash does not collide it is exact. */
  lemma StepKeepsHeader(env: Env, h: Header, op: HeaderOp)
    requires HeaderInv(env, h) && Accepted(op)
    ensures KeepsHeader(env, h, op) ==> HeaderInv(env, Write(env, h, op))
    ensures NoCollision(env, h.data, op) && HeaderInv(env, Write(env, h, op)) ==> KeepsHeader(env, h, op)
  {
    hide EncodeHeaderData, DecodeHeader, HeaderDataFits, ArgumentFits, Print, StoreParents, StoreWeights,
      StoreSignatures;
    WrittenFits(env, h, op);
    var h' := Write(env, h, op);
    if op.Clear? {
      assert HeaderFits(h') by { DefaultHeaderFits(); }
    } else if HeaderInv(env, h') && EncodeHeaderData(h.data, env.omit) == EncodeHeaderData(h'.data, env.omit) {
      HeaderDataInjective(h.data, h'.data, env.omit);
    }
  }

  lemma DefaultHeaderFits()
    ensures HeaderFits(DEFAULT_HEADER)
  {
  }

  /** The header stays encodable and its memo right before, between and after the calls of a run. */
  ghost predicate HeaderThroughout(env: Env, h: Header, ops: seq<HeaderOp>)
    requires AllAccepted(ops)
    decreases |ops|
  {
    HeaderInv(env, h) && (ops == [] || HeaderThroughout(env, Write(env, h, ops[0]), ops[1..]))
  }

  ghost predicate AllKeepHeader(env: Env, h: Header, ops: seq<HeaderOp>)
    requires AllAccepted(ops)
    decreases |ops|
  {
    ops == [] || (KeepsHeader(env, h, ops[0]) && AllKeepHeader(env, Write(env, h, ops[0]), ops[1..]))
  }

  ghost predicate NoCollisions(env: Env, h: Header, ops: seq<HeaderOp>)
    requires AllAccepted(ops)
    decreases |ops|
  {
    ops == [] || (NoCollision(env, h.data, ops[0]) && NoCollisions(env, Write(env, h, ops[0]), ops[1..]))
  }

  /** Over a run of calls that all meet the guard, hash returns the hash of the data as it is then and
      the encoding decodes to the header. Where the hash does not collide on the data before and after
      a setter of the run, no other run keeps the memo right. */
  lemma {:induction false} RunKeepsHeader(env: Env, h: Header, ops: seq<HeaderOp>)
    requires HeaderInv(env, h) && AllAccepted(ops)
    ensures AllKeepHeader(env, h, ops) ==> HeaderThroughout(env, h, ops)
    ensures NoCollisions(env, h, ops) && HeaderThroughout(env, h, ops) ==> AllKeepHeader(env, h, ops)
    ensures AllKeepHeader(env, h, ops) ==>
      var h' := WriteAll(env, h, ops);
      HashResult(env, h') == DataHash(env, h') && DecodeHeader(EncodeHeader(h', env.omit)) == Ok(h')
    decreases |ops|
  {
    hide HeaderInv, KeepsHeader, Write, NoCollision;
    if ops == [] {
      HashAndEncoding(env, h);
    } else {
      StepKeepsHeader(env, h, ops[0]);
      var h' := Write(env, h, ops[0]);
      if HeaderInv(env, h') {
        RunKeepsHeader(env, h', ops[1..]);
      } else {
        assert !HeaderThroughout(env, h', ops[1..]);
      }
    }
  }

  lemma HashAndEncoding(env: Env, h: Header)
    requires HeaderInv(env, h)
    ensures HashResult(env, h) == DataHash(env, h)
    ensures DecodeHeader(EncodeHeader(h, env.omit)) == Ok(h)
  {
    hide EncodeHeaderData, EncodeHeader, DecodeHeader, HeaderFits;
    HeaderRoundTrip(h, env.omit);
    assert DataHash(env, h)[..32] == DataHash(env, h);
  }

  /** No setter of the data comes between a hash and the next clear. */
  predicate Disciplined(ops: seq<HeaderOp>, hashed: bool)
    decreases |ops|
  {
    ops == [] || match ops[0]
      case Hash => Disciplined(ops[1..], true)
      case Clear => Disciplined(ops[1..], false)
      case SetInner(_) => false
      case Decode(_) => false
      case _ => (!hashed || Touched(ops[0]) == {}) && Disciplined(ops[1..], hashed)
  }

  /** In a disciplined run, every hash is the hash of the data as it is then. */
  lemma {:induction false} DisciplinedRun(env: Env, h: Header, ops: seq<HeaderOp>)
    requires MemoCoherent(env, h) && Disciplined(ops, h.dataHash != [])
    requires AllAccepted(ops)
    ensures MemoCoherent(env, WriteAll(env, h, ops))
    ensures HashResult(env, WriteAll(env, h, ops)) == DataHash(env, WriteAll(env, h, ops))
    decreases |ops|
  {
    hide EncodeHeaderData, DecodeHeader, Print, StoreParents, StoreWeights, StoreSignatures;
    if ops == [] {
      assert DataHash(env, h)[..32] == DataHash(env, h);
    } else {
      DisciplinedRun(env, Write(env, h, ops[0]), ops[1..]);
    }
  }

  /** Signing, encoding and reading never change what hash returns. */
  lemma {:induction false} HashIsStable(env: Env, h: Header, ops: seq<HeaderOp>)
    requires forall i | 0 <= i < |ops| ::
      ops[i].SetSignatureList? || ops[i].Encode? || ops[i].GetParentInfo? || ops[i].Hash?
    requires AllAccepted(ops)
    ensures HashResult(env, WriteAll(env, h, ops)) == HashResult(env, h)
    decreases |ops|
  {
    hide EncodeHeaderData, DecodeHeader;
    if ops != [] {
      var op := ops[0];
      HashIsStable(env, Write(env, h, op), ops[1..]);
    }
  }

  /** No call can change a hash that has been filled in, except by replacing or clearing the record. */
  lemma {:induction false} FilledMemoStays(env: Env, h: Header, ops: seq<HeaderOp>)
    requires h.dataHash != [] && AllAccepted(ops)
    requires forall i | 0 <= i < |ops| :: !ops[i].Clear? && !ops[i].SetInner? && !ops[i].Decode?
    ensures WriteAll(env, h, ops).dataHash == h.dataHash
    ensures HashResult(env, WriteAll(env, h, ops)) == HashResult(env, h)
    decreases |ops|
  {
    hide WriteData, EncodeHeaderData, DecodeHeader, StoreSignatures;
    if ops != [] {
      FilledMemoStays(env, Write(env, h, ops[0]), ops[1..]);
    }
  }

  /** A hash memo filled through one view is what every view returns, whatever is set through any of
      them afterwards. */
  lemma HashSharedByViews(env: Env, s: Views, view: nat, calls: seq<Call>)
    requires view < |s.caches| && AllPossible(|s.caches|, calls)
    requires forall i | 0 <= i < |calls| :: !calls[i].op.Clear? && !calls[i].op.SetInner? && !calls[i].op.Decode?
    ensures var hashed := Step(env, s, Call(view, Hash));
      && Run(env, hashed, calls).rec.dataHash == hashed.rec.dataHash != []
      && HashResult(env, Run(env, hashed, calls).rec) == HashResult(env, s.rec)
  {
    hide EncodeHeaderData, DecodeHeader, WriteAll, Run;
    var hashed := Step(env, s, Call(view, Hash));
    ViewsShareTheRecord(env, hashed, calls);
    FilledMemoStays(env, hashed.rec, Ops(calls));
  }

  /** Once hashed, a header whose data is then changed keeps returning the old hash, until clear. */
  lemma StaleAfterSetter(env: Env, h: Header, op: HeaderOp)
    requires MemoCoherent(env, h) && h.dataHash != [] && Touched(op) != {} && !op.SetInner? && !op.Decode? && !op.Clear?
    ensures HashResult(env, Write(env, h, op)) == DataHash(env, h)
  {
    hide EncodeHeaderData;
    assert DataHash(env, h)[..32] == DataHash(env, h);
  }

  // ------------------------------------------------------------ the parent list caches

  ghost predicate CacheCoherent(s: Views, k: nat)
    requires k < |s.caches|
  {
    s.caches[k] == [] || s.caches[k] == ReadParents(s.rec.data.parentInfo)
  }

  ghost predicate CachesCoherent(s: Views) {
    forall k | 0 <= k < |s.caches| :: CacheCoherent(s, k)
  }

  ghost predicate OthersHold(s: Views, view: nat, parents: seq<ParentView>) {
    forall k | 0 <= k < |s.caches| && k != view :: s.caches[k] == [] || s.caches[k] == parents
  }

  /** A new parent list is not announced to other views: their caches must be empty or hold it
      already. A call that replaces the record does not even clear its own view's cache. */
  ghost predicate KeepsCaches(s: Views, c: Call)
    requires Possible(|s.caches|, c)
  {
    match c.op
    case SetParentInfo(_) => OthersHold(s, c.view, c.op.parents)
    case Clear => OthersHold(s, c.view, [])
    case SetInner(_) => OthersHold(s, |s.caches|, ReadParents(c.op.inner.data.parentInfo))
    case Decode(_) => OthersHold(s, |s.caches|, ReadParents(DecodeHeader(c.op.input).value.data.parentInfo))
    case _ => true
  }

  lemma StepKeepsCaches(env: Env, s: Views, c: Call)
    requires CachesCoherent(s) && Possible(|s.caches|, c)
    ensures CachesCoherent(Step(env, s, c)) <==> KeepsCaches(s, c)
  {
    hide EncodeHeaderData, DecodeHeader, ReadParents, StoreParents, StoreWeights, StoreSignatures, Print;
    var s' := Step(env, s, c);
    if c.op.SetParentInfo? {
      ReadOfStoreParents(c.op.parents);
    }
    if CachesCoherent(s') {
      forall k | 0 <= k < |s.caches| && k != c.view
        ensures s.caches[k] == [] || s.caches[k] == ReadParents(s'.rec.data.parentInfo)
      {
        assert CacheCoherent(s', k);
      }
      assert CacheCoherent(s', c.view);
    }
    if KeepsCaches(s, c) {
      forall k | 0 <= k < |s.caches|
        ensures CacheCoherent(s', k)
      {
        assert CacheCoherent(s, k);
      }
    }
  }

  ghost predicate AllKeepCaches(env: Env, s: Views, calls: seq<Call>)
    requires AllPossible(|s.caches|, calls)
    decreases |calls|
  {
    calls == [] || (KeepsCaches(s, calls[0]) && AllKeepCaches(env, Step(env, s, calls[0]), calls[1..]))
  }

  /** The caches of all views are right before, between and after the calls of a run. */
  ghost predicate CachesThroughout(env: Env, s: Views, calls: seq<Call>)
    requires AllPossible(|s.caches|, calls)
    decreases |calls|
  {
    CachesCoherent(s) && (calls == [] || CachesThroughout(env, Step(env, s, calls[0]), calls[1..]))
  }

  /** Every view returns the parent list of the record. */
  ghost predicate ViewsShowParents(s: Views) {
    forall k | 0 <= k < |s.caches| :: ParentsResult(s.caches[k], s.rec) == ReadParents(s.rec.data.parentInfo)
  }

  lemma CoherentViewsShowParents(s: Views)
    requires CachesCoherent(s)
    ensures ViewsShowParents(s)
  {
    hide ReadParents;
    forall k | 0 <= k < |s.caches|
      ensures ParentsResult(s.caches[k], s.rec) == ReadParents(s.rec.data.parentInfo)
    {
      assert CacheCoherent(s, k);
    }
  }

  /** Exactly the runs whose calls all meet the guard; after such a run every view returns the parent
      list of the record. */
  lemma {:induction false} RunKeepsCaches(env: Env, s: Views, calls: seq<Call>)
    requires CachesCoherent(s) && AllPossible(|s.caches|, calls)
    ensures CachesThroughout(env, s, calls) <==> AllKeepCaches(env, s, calls)
    ensures AllKeepCaches(env, s, calls) ==> ViewsShowParents(Run(env, s, calls))
    decreases |calls|
  {
    hide Write, WriteCache, KeepsCaches, CachesCoherent, ViewsShowParents;
    CoherentViewsShowParents(s);
    if calls != [] {
      StepKeepsCaches(env, s, calls[0]);
      var s' := Step(env, s, calls[0]);
      if CachesCoherent(s') {
        RunKeepsCaches(env, s', calls[1..]);
      }
    }
  }

  /** A single view never disagrees with the record as long as the record is only changed through it
      and never replaced. */
  lemma {:induction false} SingleViewIsCoherent(env: Env, s: Views, calls: seq<Call>)
    requires |s.caches| == 1 && CachesCoherent(s) && AllPossible(|s.caches|, calls)
    requires forall i | 0 <= i < |calls| :: !calls[i].op.SetInner? && !calls[i].op.Decode?
    ensures AllKeepCaches(env, s, calls)
    decreases |calls|
  {
    hide Write, WriteCache;
    if calls != [] {
      StepKeepsCaches(env, s, calls[0]);
      SingleViewIsCoherent(env, Step(env, s, calls[0]), calls[1..]);
    }
  }

  /** Two views of one header: the first goes on returning the list it has read after the second
      has set another. */
  lemma OtherViewIsStale(env: Env, s: Views, parents: seq<ParentView>)
    requires |s.caches| == 2 && CachesCoherent(s)
    requires s.rec.data.parentInfo != [] && parents != ReadParents(s.rec.data.parentInfo)
    ensures var calls := [Call(0, GetParentInfo), Call(1, SetParentInfo(parents))];
      var s' := Run(env, s, calls);
      && ParentsResult(s'.caches[1], s'.rec) == parents
      && ParentsResult(s'.caches[0], s'.rec) == ReadParents(s.rec.data.parentInfo)
  {
    hide ReadParents, StoreParents;
    ReadOfStoreParents(parents);
    var c0, c1 := Call(0, GetParentInfo), Call(1, SetParentInfo(parents));
    assert CacheCoherent(s, 0) && CacheCoherent(s, 1);
    assert [c0, c1][1..] == [c1];
    assert Run(env, Step(env, s, c0), [c1]) == Step(env, Step(env, s, c0), c1);
  }

  /** A view that has read the parent list goes on returning it after a record with another list was
      put in place, even through that view itself. */
  lemma ReplacedUnderTheCache(env: Env, s: Views, inner: Header)
    requires |s.caches| == 1 && CachesCoherent(s)
    requires s.rec.data.parentInfo != [] && ReadParents(inner.data.parentInfo) != ReadParents(s.rec.data.parentInfo)
    ensures var calls := [Call(0, GetParentInfo), Call(0, SetInner(inner))];
      var s' := Run(env, s, calls);
      && ParentsResult(s'.caches[0], s'.rec) == ReadParents(s.rec.data.parentInfo)
      && ParentsResult([], s'.rec) == ReadParents(inner.data.parentInfo)
  {
    hide ReadParents;
    var c0, c1 := Call(0, GetParentInfo), Call(0, SetInner(inner));
    assert CacheCoherent(s, 0);
    assert [c0, c1][1..] == [c1];
    assert Run(env, Step(env, s, c0), [c1]) == Step(env, Step(env, s, c0), c1);
  }
}
