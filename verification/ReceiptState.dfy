/** The state of a receipt wrapper: the record and the list of log entries decoded from it. */
module ReceiptState {
  import opened Base
  import opened Decimal
  import opened Environment
  import opened Records
  import opened RecordCodec

  // The framework's form of a log entry.
  datatype LogView = LogView(address: bytes, topics: seq<H256>, data: bytes)

  datatype ReceiptOp =
    | GetLogEntries
    | SetLogEntries(logs: seq<LogView>)
    | GetHash
    | ReplaceInner(inner: Receipt)
    | DecodeFrom(input: bytes)

  datatype ReceiptView = ReceiptView(rec: Receipt, cache: seq<LogView>)

  // ------------------------------------------------------------ representation

  function StoreTopics(ts: seq<H256>): (r: seq<bytes>)
    ensures |r| == |ts| && forall i | 0 <= i < |r| :: |r[i]| == 32
  {
    seq(|ts|, i requires 0 <= i < |ts| => ts[i])
  }

  function ReadTopic(env: Env, t: bytes): H256 {
    env.topic(t)
  }

  function ReadTopics(env: Env, ts: seq<bytes>): (r: seq<H256>)
    ensures |r| == |ts|
  {
    seq(|ts|, i requires 0 <= i < |ts| => ReadTopic(env, ts[i]))
  }

  lemma ReadOfStoreTopics(env: Env, ts: seq<H256>)
    ensures ReadTopics(env, StoreTopics(ts)) == ts
  {
  }

  function StoreLog(l: LogView): LogEntry {
    LogEntry(l.address, StoreTopics(l.topics), l.data)
  }

  function ReadLog(env: Env, e: LogEntry): LogView {
    LogView(e.address, ReadTopics(env, e.topic), e.data)
  }

  function StoreLogs(ls: seq<LogView>): (r: seq<LogEntry>)
    ensures |r| == |ls|
  {
    seq(|ls|, i requires 0 <= i < |ls| => StoreLog(ls[i]))
  }

  function ReadLogs(env: Env, es: seq<LogEntry>): (r: seq<LogView>)
    ensures |r| == |es|
  {
    seq(|es|, i requires 0 <= i < |es| => ReadLog(env, es[i]))
  }

  /** Nested topic lists included, what was stored is read back. */
  lemma ReadOfStoreLogs(env: Env, ls: seq<LogView>)
    ensures ReadLogs(env, StoreLogs(ls)) == ls
  {
    forall i | 0 <= i < |ls|
      ensures ReadLog(env, StoreLog(ls[i])) == ls[i]
    {
      ReadOfStoreTopics(env, ls[i].topics);
    }
  }

  // ------------------------------------------------------------ operations

  predicate ReceiptAccepted(op: ReceiptOp) {
    op.DecodeFrom? ==> DecodeReceipt(op.input).Ok?
  }

  function ReceiptDataHash(env: Env, r: Receipt): H256 {
    env.hash(EncodeReceiptData(r.data, env.omit))
  }

  function FillReceiptHash(env: Env, r: Receipt): Receipt {
    if r.dataHash == [] then r.(dataHash := ReceiptDataHash(env, r)) else r
  }

  function ReceiptHashResult(env: Env, r: Receipt): H256 {
    AsHash(FillReceiptHash(env, r).dataHash)
  }

  function LogsResult(env: Env, s: ReceiptView): seq<LogView> {
    if s.cache == [] then ReadLogs(env, s.rec.data.logEntries) else s.cache
  }

  function ReceiptStep(env: Env, s: ReceiptView, op: ReceiptOp): ReceiptView
    requires ReceiptAccepted(op)
  {
    match op
    case GetLogEntries => s.(cache := LogsResult(env, s))
    case SetLogEntries(logs) => ReceiptView(s.rec.(data := WithLogs(s.rec.data, logs)), [])
    case GetHash => s.(rec := FillReceiptHash(env, s.rec))
    case ReplaceInner(inner) => s.(rec := inner)
    case DecodeFrom(input) => s.(rec := DecodeReceipt(input).value)
  }

  // ------------------------------------------------------------ coherence

  ghost predicate ReceiptMemoCoherent(env: Env, r: Receipt) {
    r.dataHash == [] || r.dataHash == ReceiptDataHash(env, r)
  }

  ghost predicate LogsCoherent(env: Env, s: ReceiptView) {
    s.cache == [] || s.cache == ReadLogs(env, s.rec.data.logEntries)
  }

  /** The receipt can be encoded, and memo and list cache agree with it. */
  ghost predicate ReceiptInv(env: Env, s: ReceiptView) {
    ReceiptFits(s.rec) && ReceiptMemoCoherent(env, s.rec) && LogsCoherent(env, s)
  }

  function WithLogs(d: ReceiptData, logs: seq<LogView>): ReceiptData {
    d.(logEntries := StoreLogs(logs))
  }

  /** New log entries drop the list cache but not the hash memo, so with the memo filled they must be
      those already stored; replacing the record drops neither. */
  ghost predicate ReceiptKeeps(env: Env, s: ReceiptView, op: ReceiptOp)
    requires ReceiptAccepted(op)
  {
    match op
    case SetLogEntries(logs) =>
      LogsFit(StoreLogs(logs)) && (s.rec.dataHash != [] ==> StoreLogs(logs) == s.rec.data.logEntries)
    case ReplaceInner(inner) =>
      && ReceiptFits(inner) && ReceiptMemoCoherent(env, inner)
      && (s.cache == [] || s.cache == ReadLogs(env, inner.data.logEntries))
    case DecodeFrom(input) =>
      var r := DecodeReceipt(input).value;
      ReceiptMemoCoherent(env, r) && (s.cache == [] || s.cache == ReadLogs(env, r.data.logEntries))
    case _ => true
  }

  /** The hash tells the data before new log entries from the data after them. */
  ghost predicate NoReceiptCollision(env: Env, d: ReceiptData, op: ReceiptOp) {
    op.SetLogEntries? ==>
      var before, after := EncodeReceiptData(d, env.omit), EncodeReceiptData(WithLogs(d, op.logs), env.omit);
      env.hash(before) == env.hash(after) ==> before == after
  }

  /** The guard is enough, and where the hash does not collide it is exact. */
  lemma ReceiptStepKeeps(env: Env, s: ReceiptView, op: ReceiptOp)
    requires ReceiptInv(env, s) && ReceiptAccepted(op)
    ensures ReceiptKeeps(env, s, op) ==> ReceiptInv(env, ReceiptStep(env, s, op))
    ensures NoReceiptCollision(env, s.rec.data, op) && ReceiptInv(env, ReceiptStep(env, s, op)) ==>
      ReceiptKeeps(env, s, op)
  {
    hide EncodeReceiptData, DecodeReceipt, ReadLogs, StoreLogs, LogsFit;
    var s' := ReceiptStep(env, s, op);
    if op.DecodeFrom? {
      DecodedReceiptFits(op.input);
    } else if op.SetLogEntries? && ReceiptInv(env, s') {
      if EncodeReceiptData(s.rec.data, env.omit) == EncodeReceiptData(s'.rec.data, env.omit) {
        ReceiptDataInjective(s.rec.data, s'.rec.data, env.omit);
      }
    }
  }

  predicate ReceiptOpsAccepted(ops: seq<ReceiptOp>) {
    forall i | 0 <= i < |ops| :: ReceiptAccepted(ops[i])
  }

  function ReceiptRun(env: Env, s: ReceiptView, ops: seq<ReceiptOp>): ReceiptView
    requires ReceiptOpsAccepted(ops)
    decreases |ops|
  {
    if ops == [] then s else ReceiptRun(env, ReceiptStep(env, s, ops[0]), ops[1..])
  }

  /** Receipt, memo and cache agree before, between and after the calls of a run. */
  ghost predicate ReceiptThroughout(env: Env, s: ReceiptView, ops: seq<ReceiptOp>)
    requires ReceiptOpsAccepted(ops)
    decreases |ops|
  {
    ReceiptInv(env, s) && (ops == [] || ReceiptThroughout(env, ReceiptStep(env, s, ops[0]), ops[1..]))
  }

  ghost predicate AllKeepReceipt(env: Env, s: ReceiptView, ops: seq<ReceiptOp>)
    requires ReceiptOpsAccepted(ops)
    decreases |ops|
  {
    ops == [] || (ReceiptKeeps(env, s, ops[0]) && AllKeepReceipt(env, ReceiptStep(env, s, ops[0]), ops[1..]))
  }

  ghost predicate NoReceiptCollisions(env: Env, s: ReceiptView, ops: seq<ReceiptOp>)
    requires ReceiptOpsAccepted(ops)
    decreases |ops|
  {
    ops == []
    || (NoReceiptCollision(env, s.rec.data, ops[0]) && NoReceiptCollisions(env, ReceiptStep(env, s, ops[0]), ops[1..]))
  }

  /** Over a run of calls that all meet the guard, hash returns the hash of the data as it is then and
      the encoding decodes to the receipt. Where the hash does not collide on the data before and after
      new log entries, no other run keeps memo and cache right. */
  lemma {:induction false} ReceiptRunKeeps(env: Env, s: ReceiptView, ops: seq<ReceiptOp>)
    requires ReceiptInv(env, s) && ReceiptOpsAccepted(ops)
    ensures AllKeepReceipt(env, s, ops) ==> ReceiptThroughout(env, s, ops)
    ensures NoReceiptCollisions(env, s, ops) && ReceiptThroughout(env, s, ops) ==> AllKeepReceipt(env, s, ops)
    ensures AllKeepReceipt(env, s, ops) ==>
      var r := ReceiptRun(env, s, ops).rec;
      ReceiptHashResult(env, r) == ReceiptDataHash(env, r) && DecodeReceipt(EncodeReceipt(r, env.omit)) == Ok(r)
    decreases |ops|
  {
    hide ReceiptInv, ReceiptKeeps, ReceiptStep, NoReceiptCollision;
    if ops == [] {
      ReceiptHashAndEncoding(env, s);
    } else {
      ReceiptStepKeeps(env, s, ops[0]);
      var s' := ReceiptStep(env, s, ops[0]);
      if ReceiptInv(env, s') {
        ReceiptRunKeeps(env, s', ops[1..]);
      } else {
        assert !ReceiptThroughout(env, s', ops[1..]);
      }
    }
  }

  /** The failing case: once hashed, a receipt with new log entries goes on returning the old hash. */
  lemma StaleAfterSetLogs(env: Env, s: ReceiptView, logs: seq<LogView>)
    requires ReceiptInv(env, s) && s.rec.dataHash != []
    ensures ReceiptHashResult(env, ReceiptStep(env, s, SetLogEntries(logs)).rec) == ReceiptDataHash(env, s.rec)
  {
    hide EncodeReceiptData, ReceiptFits;
    assert ReceiptDataHash(env, s.rec)[..32] == ReceiptDataHash(env, s.rec);
  }

  /** Likewise, log entries that have been read are returned after a record with others was put in place. */
  lemma ReplacedUnderTheCache(env: Env, s: ReceiptView, inner: Receipt)
    requires LogsCoherent(env, s) && s.rec.data.logEntries != []
    requires ReadLogs(env, inner.data.logEntries) != ReadLogs(env, s.rec.data.logEntries)
    ensures var s' := ReceiptStep(env, ReceiptStep(env, s, GetLogEntries), ReplaceInner(inner));
      LogsResult(env, s') == ReadLogs(env, s.rec.data.logEntries) && !LogsCoherent(env, s')
  {
    hide ReadLogs;
  }

  lemma ReceiptHashAndEncoding(env: Env, s: ReceiptView)
    requires ReceiptInv(env, s)
    ensures ReceiptHashResult(env, s.rec) == ReceiptDataHash(env, s.rec)
    ensures DecodeReceipt(EncodeReceipt(s.rec, env.omit)) == Ok(s.rec)
  {
    hide EncodeReceiptData, EncodeReceipt, DecodeReceipt, ReceiptFits;
    ReceiptRoundTrip(s.rec, env.omit);
    assert ReceiptDataHash(env, s.rec)[..32] == ReceiptDataHash(env, s.rec);
  }

  /** The log entries a run through one handle last set, if it set any. */
  function LastSet(initial: seq<LogView>, ops: seq<ReceiptOp>): seq<LogView>
    decreases |ops|
  {
    if ops == [] then initial
    else LastSet(if ops[0].SetLogEntries? then ops[0].logs else initial, ops[1..])
  }

  /** In every run of setters, getters and hashes the lazily built list is the last list set, and it
      is what the stored record decodes to. */
  lemma {:induction false} LogsAreLastSet(env: Env, s: ReceiptView, ops: seq<ReceiptOp>)
    requires LogsCoherent(env, s) && ReceiptOpsAccepted(ops)
    requires forall i | 0 <= i < |ops| :: !ops[i].ReplaceInner? && !ops[i].DecodeFrom?
    ensures var s' := ReceiptRun(env, s, ops);
      && LogsCoherent(env, s')
      && LogsResult(env, s') == ReadLogs(env, s'.rec.data.logEntries)
      && LogsResult(env, s') == LastSet(LogsResult(env, s), ops)
    decreases |ops|
  {
    hide EncodeReceiptData, ReadLogs, StoreLogs;
    if ops != [] {
      var s1 := ReceiptStep(env, s, ops[0]);
      if ops[0].SetLogEntries? {
        ReadOfStoreLogs(env, ops[0].logs);
      }
      LogsAreLastSet(env, s1, ops[1..]);
    }
  }

  // ------------------------------------------------------------ the factory

  function BuildReceipt(gas: u256, contractAddress: bytes, logs: seq<LogView>, status: int32, output: bytes,
                        blockNumber: int64): Receipt
  {
    Receipt(ReceiptData(0, Print(gas), contractAddress, status, output, StoreLogs(logs), blockNumber), [])
  }

  /** None if the stored text is not a number. */
  function ReceiptGasUsed(r: Receipt): Option<u256> {
    ParseStored(r.data.gasUsed)
  }

  /** A receipt keeps its gas, its log entries and its hash across encode and decode, hashed before
      or not. */
  lemma ReceiptTransport(env: Env, gas: u256, contractAddress: bytes, logs: seq<LogView>, status: int32, output: bytes,
                         blockNumber: int64, hashed: bool)
    requires var r := BuildReceipt(gas, contractAddress, logs, status, output, blockNumber);
      ReceiptFits(if hashed then FillReceiptHash(env, r) else r)
    ensures var r := BuildReceipt(gas, contractAddress, logs, status, output, blockNumber);
      var encoded := EncodeReceipt(if hashed then FillReceiptHash(env, r) else r, env.omit);
      && DecodeReceipt(encoded).Ok?
      && var d := DecodeReceipt(encoded).value;
        && ReceiptHashResult(env, d) == ReceiptDataHash(env, r)
        && ReceiptGasUsed(d) == Some(gas)
        && LogsResult(env, ReceiptView(d, [])) == logs
        && d.data == r.data
        && d.data.version == 0 && d.data.contractAddress == contractAddress && d.data.status == status
        && d.data.output == output && d.data.blockNumber == blockNumber
        && ReceiptHashResult(env, d) == env.hash(EncodeReceiptData(d.data, env.omit))
  {
    hide EncodeReceiptData, EncodeReceipt, DecodeReceipt, ReceiptFits, Print, Parse, ReadLogs, StoreLogs;
    var r := BuildReceipt(gas, contractAddress, logs, status, output, blockNumber);
    ReceiptRoundTrip(if hashed then FillReceiptHash(env, r) else r, env.omit);
    assert ReceiptDataHash(env, r)[..32] == ReceiptDataHash(env, r);
    ParseOfPrint(gas);
    assert Print(gas) != [];
    ReadOfStoreLogs(env, logs);
  }
}
