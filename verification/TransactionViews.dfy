/**
 A transaction of a block and the views through which it is used, as a state machine: one shared
 record, which the block may replace under its views, and private buffers per view.
 */
module TransactionViews {
  import opened Base
  import opened Environment
  import opened Records
  import opened RecordCodec
  import opened TransactionState

  datatype Caches = Caches(buffer: bytes, dataBuffer: bytes, nonceCache: u256)

  datatype TxViews = TxViews(rec: Transaction, caches: seq<Caches>)

  /** A call through a view, or setTransaction of the block. */
  datatype ViewCall = Through(view: nat, op: TxOp) | Replace(t: Transaction)

  /** The state a view is in. */
  function View(s: TxViews, k: nat): TxState
    requires k < |s.caches|
  {
    TxState(s.rec, s.caches[k].buffer, s.caches[k].dataBuffer, s.caches[k].nonceCache)
  }

  predicate Possible(views: nat, c: ViewCall) {
    c.Through? ==> c.view < views && Accepted(c.op)
  }

  predicate AllPossible(views: nat, calls: seq<ViewCall>) {
    forall i | 0 <= i < |calls| :: Possible(views, calls[i])
  }

  function ViewStep(env: Env, s: TxViews, c: ViewCall): (s': TxViews)
    requires Possible(|s.caches|, c)
    ensures |s'.caches| == |s.caches|
  {
    match c
    case Through(k, op) =>
      var v := Step(env, View(s, k), op);
      TxViews(v.rec, s.caches[k := Caches(v.buffer, v.dataBuffer, v.nonceCache)])
    case Replace(t) => s.(rec := t)
  }

  function ViewRun(env: Env, s: TxViews, calls: seq<ViewCall>): (s': TxViews)
    requires AllPossible(|s.caches|, calls)
    ensures |s'.caches| == |s.caches|
    decreases |calls|
  {
    if calls == [] then s else ViewRun(env, ViewStep(env, s, calls[0]), calls[1..])
  }

  /** To every other view a call is the replacement of the record. */
  lemma OtherViews(env: Env, s: TxViews, c: ViewCall, j: nat)
    requires Possible(|s.caches|, c) && j < |s.caches|
    ensures var s' := ViewStep(env, s, c);
      View(s', j) ==
        if c.Through? && c.view == j then Step(env, View(s, j), c.op) else Step(env, View(s, j), SetInner(s'.rec))
  {
    hide EncodeTransaction, EncodeTransactionData, DecodeTransaction;
  }

  // ------------------------------------------------------------ when all caches agree

  /** The record can be encoded, and its memo and the buffers of all views agree with its data. */
  ghost predicate ViewsInv(env: Env, s: TxViews) {
    && TransactionFits(s.rec) && MemoCoherent(env, s.rec)
    && forall k | 0 <= k < |s.caches| :: CacheInv(env, View(s, k))
  }

  predicate Filled(c: Caches) {
    c.buffer != [] || c.dataBuffer != []
  }

  /** Other data may be put in place only while no view but `decoder` has filled a buffer; of the view
      that decodes, the full buffer is replaced as well. */
  ghost predicate MayReplace(env: Env, s: TxViews, t: Transaction, decoder: nat) {
    && TransactionFits(t) && MemoCoherent(env, t)
    && (t.data == s.rec.data
        || forall j | 0 <= j < |s.caches| ::
             if j == decoder then s.caches[j].dataBuffer == [] else !Filled(s.caches[j]))
  }

  ghost predicate KeepsViews(env: Env, s: TxViews, c: ViewCall)
    requires Possible(|s.caches|, c)
  {
    match c
    case Replace(t) => MayReplace(env, s, t, |s.caches|)
    case Through(k, op) =>
      match op
      case SetInner(t) => MayReplace(env, s, t, |s.caches|)
      case Decode(input) => MayReplace(env, s, DecodeTransaction(input).value, k)
      case _ => Keeps(env, View(s, k), op)
  }

  /** The guard is exact. */
  lemma StepKeepsViews(env: Env, s: TxViews, c: ViewCall)
    requires ViewsInv(env, s) && Possible(|s.caches|, c)
    ensures ViewsInv(env, ViewStep(env, s, c)) <==> KeepsViews(env, s, c)
  {
    hide Step, CacheInv, TransactionFits, MemoCoherent, DecodeTransaction;
    var s' := ViewStep(env, s, c);
    RecordAfter(env, s, c);
    forall j | 0 <= j < |s.caches|
      ensures CacheInv(env, View(s', j)) <==> KeepsView(env, s, c, s'.rec, j)
    {
      OtherViews(env, s, c, j);
      StepKeepsInv(env, View(s, j), if c.Through? && c.view == j then c.op else SetInner(s'.rec));
    }
    if c.Through? && !c.op.SetInner? && !c.op.Decode? {
      assert KeepsView(env, s, c, s'.rec, c.view) <==> Keeps(env, View(s, c.view), c.op);
    } else {
      var decoder := if c.Through? && c.op.Decode? then c.view else |s.caches|;
      forall j | 0 <= j < |s.caches| && TransactionFits(s'.rec) && MemoCoherent(env, s'.rec)
        ensures KeepsView(env, s, c, s'.rec, j) <==>
          s'.rec.data == s.rec.data || if j == decoder then s.caches[j].dataBuffer == [] else !Filled(s.caches[j])
      {
      }
    }
  }

  ghost predicate KeepsView(env: Env, s: TxViews, c: ViewCall, t: Transaction, j: nat)
    requires Possible(|s.caches|, c) && j < |s.caches|
  {
    if c.Through? && c.view == j then Keeps(env, View(s, j), c.op) else Keeps(env, View(s, j), SetInner(t))
  }

  /** What a call does to the record, and when the record can still be encoded with a right memo. */
  lemma RecordAfter(env: Env, s: TxViews, c: ViewCall)
    requires TransactionFits(s.rec) && MemoCoherent(env, s.rec) && Possible(|s.caches|, c)
    requires c.Through? ==> CacheInv(env, View(s, c.view))
    ensures var t := ViewStep(env, s, c).rec;
      && (c.Replace? ==> t == c.t)
      && (c.Through? && c.op.SetInner? ==> t == c.op.inner)
      && (c.Through? && c.op.Decode? ==> t == DecodeTransaction(c.op.input).value && TransactionFits(t))
      && (c.Through? && !c.op.SetInner? && !c.op.Decode? ==>
            t.data == s.rec.data && (Keeps(env, View(s, c.view), c.op) ==> TransactionFits(t) && MemoCoherent(env, t)))
  {
    hide EncodeTransaction, EncodeTransactionData, DecodeTransaction, DataFits;
    if c.Through? {
      StepKeepsInv(env, View(s, c.view), c.op);
      if c.op.Decode? {
        DecodedTransactionFits(c.op.input);
      }
    }
  }

  ghost predicate ViewsThroughout(env: Env, s: TxViews, calls: seq<ViewCall>)
    requires AllPossible(|s.caches|, calls)
    decreases |calls|
  {
    ViewsInv(env, s) && (calls == [] || ViewsThroughout(env, ViewStep(env, s, calls[0]), calls[1..]))
  }

  ghost predicate AllKeepViews(env: Env, s: TxViews, calls: seq<ViewCall>)
    requires AllPossible(|s.caches|, calls)
    decreases |calls|
  {
    calls == [] || (KeepsViews(env, s, calls[0]) && AllKeepViews(env, ViewStep(env, s, calls[0]), calls[1..]))
  }

  /** The caches of all views agree with the record throughout a run exactly when every call meets its
      guard; after such a run every view returns the hash of the data as it is then. */
  lemma {:induction false} RunKeepsViews(env: Env, s: TxViews, calls: seq<ViewCall>)
    requires ViewsInv(env, s) && AllPossible(|s.caches|, calls)
    ensures ViewsThroughout(env, s, calls) <==> AllKeepViews(env, s, calls)
    ensures AllKeepViews(env, s, calls) ==> HashesRight(env, ViewRun(env, s, calls))
    decreases |calls|
  {
    hide ViewsInv, KeepsViews, ViewStep, HashesRight;
    if calls == [] {
      AgreeingHashes(env, s);
    } else {
      StepKeepsViews(env, s, calls[0]);
      var s' := ViewStep(env, s, calls[0]);
      if ViewsInv(env, s') {
        RunKeepsViews(env, s', calls[1..]);
      } else {
        assert !ViewsThroughout(env, s', calls[1..]);
      }
    }
  }

  // ------------------------------------------------------------ when all hashes are right

  /** A view can read its hash, and it is the hash of the data the record holds now. */
  ghost predicate HashRight(env: Env, v: TxState) {
    && (v.rec.dataHash == [] || |v.rec.dataHash| >= 32)
    && HashResult(env, v) == DataHash(env, v.rec)
  }

  /** Every view returns the hash of the data the record holds now, and so would a new one. */
  ghost predicate HashesRight(env: Env, s: TxViews) {
    && HashRight(env, Wrap(s.rec))
    && forall k | 0 <= k < |s.caches| :: HashRight(env, View(s, k))
  }

  lemma AgreeingHashes(env: Env, s: TxViews)
    requires ViewsInv(env, s)
    ensures HashesRight(env, s)
  {
    hide EncodeTransactionData, TransactionFits, HashResult;
    HashOfCoherent(env, Wrap(s.rec));
    forall k | 0 <= k < |s.caches|
      ensures HashRight(env, View(s, k))
    {
      HashOfCoherent(env, View(s, k));
    }
  }

  /** What a view has encoded, if anything, is the data of t: what encode of the hashed fields returns
      through it is what it returns through a new wrapper of t. */
  predicate HasEncoded(env: Env, c: Caches, t: Transaction) {
    c.dataBuffer == [] || c.dataBuffer == DataBytes(env, t)
  }

  /** Such views have encoded the same data, not only the same bytes. */
  lemma HasEncodedMeans(env: Env, c: Caches, t: Transaction, d: TransactionData)
    requires c.dataBuffer == EncodeTransactionData(d, env.omit) && DataFits(d) && DataFits(t.data)
    ensures HasEncoded(env, c, t) <==> t.data == d
  {
    hide EncodeTransactionData, DataFits;
    TransactionDataNonEmpty(d, env.omit);
    if c.dataBuffer == DataBytes(env, t) {
      TransactionDataInjective(t.data, d, env.omit);
    }
  }

  /** A record with a filled memo must bring the right one; one with an empty memo gets whatever a view
      has encoded before, so no view may have encoded other data. */
  ghost predicate MayBring(env: Env, s: TxViews, t: Transaction) {
    if t.dataHash != [] then |t.dataHash| >= 32 && t.dataHash[..32] == DataHash(env, t)
    else forall k | 0 <= k < |s.caches| :: HasEncoded(env, s.caches[k], t)
  }

  ghost predicate KeepsHashes(env: Env, s: TxViews, c: ViewCall)
    requires Possible(|s.caches|, c)
  {
    match c
    case Replace(t) => MayBring(env, s, t)
    case Through(k, op) =>
      match op
      case SetInner(t) => MayBring(env, s, t)
      case Decode(input) => MayBring(env, s, DecodeTransaction(input).value)
      case Encode(onlyHashFields) =>
        onlyHashFields || s.caches[k].buffer != [] || HasEncoded(env, s.caches[k], s.rec)
      case _ => true
  }

  /** The hash tells what the views have encoded from the data of the record a call leaves. */
  ghost predicate NoCollision(env: Env, s: TxViews, c: ViewCall)
    requires Possible(|s.caches|, c)
  {
    var t := ViewStep(env, s, c).rec;
    forall k | 0 <= k < |s.caches| ::
      env.hash(s.caches[k].dataBuffer) == DataHash(env, t) ==> HasEncoded(env, s.caches[k], t)
  }

  lemma HashRightMeans(env: Env, v: TxState)
    ensures HashRight(env, v) <==>
      if v.rec.dataHash != [] then |v.rec.dataHash| >= 32 && v.rec.dataHash[..32] == DataHash(env, v.rec)
      else v.dataBuffer == [] || env.hash(v.dataBuffer) == DataHash(env, v.rec)
  {
    hide EncodeTransactionData;
    assert forall h: H256 :: h[..32] == h;
  }

  /** Hashes to the data of t, or has nothing to hash. */
  ghost predicate Hashes(env: Env, c: Caches, t: Transaction) {
    c.dataBuffer == [] || env.hash(c.dataBuffer) == DataHash(env, t)
  }

  lemma HashesRightMeans(env: Env, s: TxViews)
    ensures HashesRight(env, s) <==>
      if s.rec.dataHash != [] then |s.rec.dataHash| >= 32 && s.rec.dataHash[..32] == DataHash(env, s.rec)
      else forall k | 0 <= k < |s.caches| :: Hashes(env, s.caches[k], s.rec)
  {
    hide HashRight, DataHash;
    HashRightMeans(env, Wrap(s.rec));
    forall k | 0 <= k < |s.caches|
      ensures HashRight(env, View(s, k)) <==>
        if s.rec.dataHash != [] then |s.rec.dataHash| >= 32 && s.rec.dataHash[..32] == DataHash(env, s.rec)
        else Hashes(env, s.caches[k], s.rec)
    {
      HashRightMeans(env, View(s, k));
    }
  }

  /** The guard is enough, and where the hash does not collide it is exact. */
  lemma StepKeepsHashes(env: Env, s: TxViews, c: ViewCall)
    requires HashesRight(env, s) && Possible(|s.caches|, c)
    ensures KeepsHashes(env, s, c) ==> HashesRight(env, ViewStep(env, s, c))
    ensures NoCollision(env, s, c) && HashesRight(env, ViewStep(env, s, c)) ==> KeepsHashes(env, s, c)
  {
    hide HashesRight, EncodeTransaction, EncodeTransactionData, DecodeTransaction;
    var s' := ViewStep(env, s, c);
    HashesRightMeans(env, s);
    HashesRightMeans(env, s');
    assert forall h: H256 :: h[..32] == h;
    if c.Replace? || c.op.SetInner? || c.op.Decode? {
      forall k | 0 <= k < |s.caches|
        ensures s'.caches[k].dataBuffer == s.caches[k].dataBuffer
        ensures Hashes(env, s'.caches[k], s'.rec) ==> NoCollision(env, s, c) ==> HasEncoded(env, s.caches[k], s'.rec)
        ensures HasEncoded(env, s.caches[k], s'.rec) ==> Hashes(env, s'.caches[k], s'.rec)
      {
      }
    }
  }

  ghost predicate HashesThroughout(env: Env, s: TxViews, calls: seq<ViewCall>)
    requires AllPossible(|s.caches|, calls)
    decreases |calls|
  {
    HashesRight(env, s) && (calls == [] || HashesThroughout(env, ViewStep(env, s, calls[0]), calls[1..]))
  }

  ghost predicate AllKeepHashes(env: Env, s: TxViews, calls: seq<ViewCall>)
    requires AllPossible(|s.caches|, calls)
    decreases |calls|
  {
    calls == [] || (KeepsHashes(env, s, calls[0]) && AllKeepHashes(env, ViewStep(env, s, calls[0]), calls[1..]))
  }

  ghost predicate NoCollisions(env: Env, s: TxViews, calls: seq<ViewCall>)
    requires AllPossible(|s.caches|, calls)
    decreases |calls|
  {
    calls == [] || (NoCollision(env, s, calls[0]) && NoCollisions(env, ViewStep(env, s, calls[0]), calls[1..]))
  }

  /** Over a run of calls that all meet the guard, every view returns the hash of the data as it is
      then, whatever else is stale. Where the hash does not collide on what the views have encoded, no
      other run keeps all hashes right. */
  lemma {:induction false} RunKeepsHashes(env: Env, s: TxViews, calls: seq<ViewCall>)
    requires HashesRight(env, s) && AllPossible(|s.caches|, calls)
    ensures AllKeepHashes(env, s, calls) ==>
      HashesThroughout(env, s, calls) && HashesRight(env, ViewRun(env, s, calls))
    ensures NoCollisions(env, s, calls) && HashesThroughout(env, s, calls) ==> AllKeepHashes(env, s, calls)
    decreases |calls|
  {
    hide HashesRight, KeepsHashes, ViewStep, NoCollision;
    if calls != [] {
      StepKeepsHashes(env, s, calls[0]);
      var s' := ViewStep(env, s, calls[0]);
      if HashesRight(env, s') {
        RunKeepsHashes(env, s', calls[1..]);
      } else {
        assert !HashesThroughout(env, s', calls[1..]);
      }
    }
  }

  // ------------------------------------------------------------ when one is wrong

  /** The record is replaced, and then view k is asked for the hash. */
  function HashAfterReplace(env: Env, s: TxViews, k: nat, t: Transaction): (s': TxViews)
    requires k < |s.caches|
    ensures |s'.caches| == |s.caches|
  {
    ViewStep(env, ViewStep(env, s, Replace(t)), Through(k, Hash))
  }

  /** The failing case: a record that is put in place with an empty memo, under a view that has encoded
      the old data, gets the hash of the OLD data as its memo as soon as that view is asked; from then on
      every view, old or new, returns it. */
  lemma StaleViewFillsTheMemo(env: Env, s: TxViews, k: nat, t: Transaction)
    requires k < |s.caches| && s.caches[k].dataBuffer == DataBytes(env, s.rec) && t.dataHash == []
    ensures var s1 := ViewStep(env, s, Replace(t));
      var s2 := HashAfterReplace(env, s, k, t);
      && HashResult(env, View(s1, k)) == DataHash(env, s.rec)
      && s2.rec == t.(dataHash := DataHash(env, s.rec))
      && (forall j | 0 <= j < |s2.caches| :: HashResult(env, View(s2, j)) == DataHash(env, s.rec))
      && HashResult(env, Wrap(s2.rec)) == DataHash(env, s.rec)
  {
    hide EncodeTransactionData;
    TransactionDataNonEmpty(s.rec.data, env.omit);
    assert forall h: H256 :: h[..32] == h;
  }

  /** That hash is wrong whenever the data differ and the hash does not collide on them. */
  lemma StaleMemoIsWrong(env: Env, s: TxViews, k: nat, t: Transaction)
    requires k < |s.caches| && s.caches[k].dataBuffer == DataBytes(env, s.rec) && t.dataHash == []
    requires DataFits(s.rec.data) && DataFits(t.data) && t.data != s.rec.data
    requires DataHash(env, s.rec) == DataHash(env, t) ==> DataBytes(env, s.rec) == DataBytes(env, t)
    ensures var s2 := HashAfterReplace(env, s, k, t);
      !MemoCoherent(env, s2.rec) && !HashRight(env, View(s2, k)) && !HashRight(env, Wrap(s2.rec))
  {
    hide EncodeTransactionData, DataFits, HashResult, HashRight;
    StaleViewFillsTheMemo(env, s, k, t);
    if DataBytes(env, s.rec) == DataBytes(env, t) {
      TransactionDataInjective(s.rec.data, t.data, env.omit);
    }
    var s2 := HashAfterReplace(env, s, k, t);
    HashRightMeans(env, View(s2, k));
    HashRightMeans(env, Wrap(s2.rec));
    assert forall h: H256 :: h[..32] == h;
  }
}
