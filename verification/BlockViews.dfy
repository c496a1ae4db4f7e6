/**
 Blocks on the heap with any number of live views into them: what the state machines say of runs
 holds of the objects, and reaches the bytes the block sends.
 */
module BlockViews {
  import opened Base
  import opened Environment
  import opened Records
  import opened RecordCodec
  import opened SharedRecords
  import opened BlockState
  import opened BlockImplementation
  import opened TransactionImplementation
  import opened ReceiptImplementation
  import opened BlockHeaderImplementation
  import opened HeaderInterleaving
  import H = HeaderState
  import opened TransactionViews
  import TransactionState

  // ------------------------------------------------------------ views survive growth

  method PerformAppend(block: BlockImpl, op: BlockOp)
    requires op.AppendTransaction? || op.AppendReceipt? || op.AppendMetaData?
    modifies block.inner
    ensures block.inner.block == Apply(old(block.inner.block), op)
  {
    match op
    case AppendTransaction(t) =>
      var cell := new TransactionCell(t);
      var wrapper := new TransactionImpl(block.env, OwnTransaction(cell));
      block.AppendTransaction(wrapper);
    case AppendReceipt(r) =>
      var cell := new ReceiptCell(r);
      var wrapper := new TransactionReceiptImpl(block.env, OwnReceipt(cell));
      block.AppendReceipt(wrapper);
    case AppendMetaData(m) => block.AppendTransactionMetaData(m);
  }

  method PerformSet(block: BlockImpl, op: BlockOp)
    requires op.SetTransaction? || op.SetReceipt? || op.SetBlockHeader?
    requires InBounds(block.inner.block, op)
    modifies block.inner
    ensures block.inner.block == Apply(old(block.inner.block), op)
  {
    match op
    case SetTransaction(index, t) =>
      var cell := new TransactionCell(t);
      var wrapper := new TransactionImpl(block.env, OwnTransaction(cell));
      block.SetTransaction(index, wrapper);
    case SetReceipt(index, r) =>
      var cell := new ReceiptCell(r);
      var wrapper := new TransactionReceiptImpl(block.env, OwnReceipt(cell));
      SetReceiptRoom(block.inner.block, index);
      block.SetReceipt(index, wrapper);
    case SetBlockHeader(h) =>
      var cell := new HeaderCell(h);
      var wrapper := new BlockHeaderImpl(block.env, OwnHeader(cell));
      block.SetBlockHeader(wrapper);
  }

  /** Writes through views that are made for the purpose. */
  method PerformWrite(block: BlockImpl, op: BlockOp)
    requires op.WriteTransaction? || op.WriteReceipt? || op.WriteHeader?
    requires InBounds(block.inner.block, op)
    modifies block.inner
    ensures block.inner.block == Apply(old(block.inner.block), op)
  {
    hide EncodeTransaction, EncodeTransactionData, DecodeTransaction, EncodeReceiptData, DecodeReceipt, DecodeHeader;
    match op
    case WriteTransaction(index, t) =>
      var view := block.Transaction(index);
      view.SetInner(t);
    case WriteReceipt(index, r) =>
      var view := block.Receipt(index);
      view.SetInner(r);
    case WriteHeader(h) =>
      var view := block.BlockHeader();
      view.SetInner(h);
  }

  method Perform(block: BlockImpl, op: BlockOp)
    requires InBounds(block.inner.block, op)
    modifies block`nonces, block.inner
    ensures block.inner.block == Apply(old(block.inner.block), op)
  {
    hide Apply, InBounds;
    match op
    case SetNonceList(nonces) => block.SetNonceList(nonces);
    case SetVersion(version) => block.SetVersion(version);
    case SetBlockType(kind) => block.SetBlockType(kind);
    case AppendTransaction(_) => PerformAppend(block, op);
    case AppendReceipt(_) => PerformAppend(block, op);
    case AppendMetaData(_) => PerformAppend(block, op);
    case SetTransaction(_, _) => PerformSet(block, op);
    case SetReceipt(_, _) => PerformSet(block, op);
    case SetBlockHeader(_) => PerformSet(block, op);
    case WriteTransaction(_, _) => PerformWrite(block, op);
    case WriteReceipt(_, _) => PerformWrite(block, op);
    case WriteHeader(_) => PerformWrite(block, op);
  }

  method PerformAll(block: BlockImpl, ops: seq<BlockOp>)
    requires Runs(block.inner.block, ops)
    modifies block`nonces, block.inner
    ensures block.inner.block == Run(old(block.inner.block), ops)
  {
    hide Apply, InBounds;
    ghost var before := block.inner.block;
    var n := 0;
    assert ops[0..] == ops;
    while n < |ops|
      invariant n <= |ops| && Runs(block.inner.block, ops[n..])
      invariant Run(block.inner.block, ops[n..]) == Run(before, ops)
    {
      assert ops[n..][0] == ops[n] && ops[n..][1..] == ops[n + 1..];
      Perform(block, ops[n]);
      n := n + 1;
    }
  }

  /** Views made before any run of calls on the block denote elements i and j after it, even if those
      came into being only on the way; they show what the run left there, and what was there before
      unless the run wrote to that very index. */
  method GrowUnderViews(block: BlockImpl, ops: seq<BlockOp>, i: nat, j: nat)
    returns (v: TransactionImpl, w: TransactionReceiptImpl)
    requires Runs(block.inner.block, ops)
    modifies block`nonces, block.inner
    ensures block.inner.block == Run(old(block.inner.block), ops)
    ensures v.inner == TransactionInBlock(block.inner, i) && w.inner == ReceiptInBlock(block.inner, j)
    ensures v.inner.Live() <==> i < |block.inner.block.transactions|
    ensures w.inner.Live() <==> j < |block.inner.block.receipts|
    ensures v.inner.Live() ==> v.inner.Get() == block.inner.block.transactions[i]
    ensures w.inner.Live() ==> w.inner.Get() == block.inner.block.receipts[j]
    ensures i < |old(block.inner.block.transactions)| ==> v.inner.Live()
    ensures j < |old(block.inner.block.receipts)| ==> w.inner.Live()
    ensures i < |old(block.inner.block.transactions)| && LeavesTransaction(ops, i) ==>
      v.inner.Get() == old(block.inner.block.transactions)[i]
    ensures j < |old(block.inner.block.receipts)| && LeavesReceipt(ops, j) ==>
      w.inner.Get() == old(block.inner.block.receipts)[j]
  {
    hide Apply, InBounds;
    ghost var before := block.inner.block;
    v := block.Transaction(i);
    w := block.Receipt(j);
    PerformAll(block, ops);
    ViewsSurvive(before, ops, i);
    ViewsSurvive(before, ops, j);
  }

  // ------------------------------------------------------------ writes through header views reach the bytes

  /** Any number of calls to blockHeader give views of one header, their caches empty. */
  method OpenHeaderViews(block: BlockImpl, n: nat) returns (views: seq<BlockHeaderImpl>)
    requires n > 0
    ensures |views| == n && forall i | 0 <= i < n :: fresh(views[i])
    ensures ViewsOfOne(views) && views[0].inner == HeaderInBlock(block.inner) && views[0].env == block.env
    ensures Shows(views, H.Views(block.inner.block.blockHeader, seq(n, i => [])))
  {
    views := [];
    while |views| < n
      invariant |views| <= n
      invariant forall i | 0 <= i < |views| :: fresh(views[i]) && views[i].parents == []
      invariant forall i | 0 <= i < |views| :: views[i].inner == HeaderInBlock(block.inner) && views[i].env == block.env
      invariant forall i, j | 0 <= i < j < |views| :: views[i] != views[j]
    {
      var view := block.BlockHeader();
      views := views + [view];
    }
  }

  /** After any interleaving of calls through any number of header views, the block sends exactly the
      header those calls have made, as if made through one view, and otherwise what it held; so does
      its receiver get it. */
  method EncodeAfterViews(block: BlockImpl, views: seq<BlockHeaderImpl>, calls: seq<H.Call>, ghost s: H.Views)
    returns (encoded: bytes)
    requires ViewsOfOne(views) && views[0].inner == HeaderInBlock(block.inner) && views[0].env == block.env
    requires Shows(views, s) && AllPermitted(block.env, s, calls)
    modifies views, block.inner
    ensures H.AllAccepted(H.Ops(calls))
    ensures block.inner.block == old(block.inner.block).(blockHeader :=
      H.WriteAll(block.env, old(block.inner.block.blockHeader), H.Ops(calls)))
    ensures encoded == EncodeBlock(block.inner.block, block.env.omit)
    ensures H.LastSettersStored(block.inner.block.blockHeader.data, calls)
    ensures BlockFits(block.inner.block) ==> DecodeBlock(encoded) == Ok(block.inner.block)
  {
    hide EncodeBlock, DecodeBlock, BlockFits, H.WriteAll, H.Run, AllPermitted, H.LastSettersStored;
    Interleave(views, calls, s);
    H.ViewsShareTheRecord(block.env, s, calls);
    H.LastSettersSeen(block.env, s, calls);
    encoded := block.Encode();
    BlockRoundTrip(block.inner.block, block.env.omit);
  }

  /** The hash one view has filled in is the one any view returns later, whatever was set in between
      through any of them, as long as the record is neither cleared nor replaced. */
  method HashThroughViews(views: seq<BlockHeaderImpl>, first: nat, calls: seq<H.Call>, second: nat, ghost s: H.Views)
    returns (before: H256, after: H256)
    requires ViewsOfOne(views) && Shows(views, s) && first < |views| && second < |views|
    requires Readable(s.rec.dataHash)
    requires AllPermitted(views[0].env, H.Step(views[0].env, s, H.Call(first, H.Hash)), calls)
    requires forall i | 0 <= i < |calls| :: !calls[i].op.Clear? && !calls[i].op.SetInner? && !calls[i].op.Decode?
    modifies views, views[0].inner.Home()
    ensures before == after == H.HashResult(views[0].env, s.rec)
  {
    hide H.Write, H.WriteCache, H.Run, AllPermitted, H.HashResult;
    ghost var env := views[0].env;
    ghost var hashed := H.Step(env, s, H.Call(first, H.Hash));
    before := views[first].Hash();
    assert H.WriteCache(s.caches[first], s.rec, H.Hash) == s.caches[first] by { HashLeavesCache(s, first); }
    Interleave(views, calls, hashed);
    H.HashSharedByViews(env, s, first, calls);
    assert Readable(views[second].inner.Get().dataHash) by { MemoReadable(env, s.rec); }
    after := views[second].Hash();
  }

  lemma HashLeavesCache(s: H.Views, k: nat)
    requires k < |s.caches|
    ensures H.WriteCache(s.caches[k], s.rec, H.Hash) == s.caches[k]
  {
  }

  lemma MemoReadable(env: Env, h: Header)
    requires Readable(h.dataHash)
    ensures Readable(H.Write(env, h, H.Hash).dataHash)
  {
    hide EncodeHeaderData;
  }

  // ------------------------------------------------------------ views of one transaction

  /** Different objects, all views of transaction i of the block. */
  ghost predicate ViewsOfTransaction(block: BlockImpl, i: nat, views: seq<TransactionImpl>) {
    && (forall j, k | 0 <= j < k < |views| :: views[j] != views[k])
    && (forall k | 0 <= k < |views| ::
          views[k].inner == TransactionInBlock(block.inner, i) && views[k].env == block.env)
  }

  ghost predicate ShowsTransaction(block: BlockImpl, i: nat, views: seq<TransactionImpl>, s: TxViews)
    reads views, block.inner
  {
    && i < |block.inner.block.transactions| && block.inner.block.transactions[i] == s.rec
    && |s.caches| == |views|
    && forall k | 0 <= k < |views| ::
         s.caches[k] == Caches(views[k].buffer, views[k].dataBuffer, views[k].nonceCache)
  }

  /** What the source demands of a call: input that decodes, and a stored hash long enough to read. */
  predicate MayCall(s: TxViews, c: ViewCall) {
    && TransactionViews.Possible(|s.caches|, c)
    && (c.Through? && c.op.Hash? ==> TransactionReadable(s.rec))
  }

  ghost predicate MayCallAll(env: Env, s: TxViews, calls: seq<ViewCall>)
    decreases |calls|
  {
    calls == [] || (MayCall(s, calls[0]) && MayCallAll(env, ViewStep(env, s, calls[0]), calls[1..]))
  }

  lemma {:induction false} CallableIsPossible(env: Env, s: TxViews, calls: seq<ViewCall>)
    requires MayCallAll(env, s, calls)
    ensures TransactionViews.AllPossible(|s.caches|, calls)
    decreases |calls|
  {
    hide ViewStep, TransactionViews.Possible;
    if calls != [] {
      CallableIsPossible(env, ViewStep(env, s, calls[0]), calls[1..]);
      assert forall i | 0 < i < |calls| :: calls[i] == calls[1..][i - 1];
    }
  }

  method PerformThrough(view: TransactionImpl, op: TransactionState.TxOp)
    requires view.inner.Live() && TransactionState.Accepted(op)
    requires op.Hash? ==> TransactionReadable(view.inner.Get())
    modifies view, view.inner.Home()
    ensures view.inner.Live() && view.inner.OnlyThis()
    ensures view.State() == TransactionState.Step(view.env, old(view.State()), op)
  {
    hide TransactionState.Step, DecodeTransaction;
    match op
    case Encode(onlyHashFields) => var _ := view.Encode(onlyHashFields);
    case Hash => var _ := view.Hash();
    case Nonce => var _ := view.Nonce();
    case TakeEncoded => var _ := view.TakeEncoded();
    case SetImportTime(time) => view.SetImportTime(time);
    case ForceSender(sender) => view.ForceSender(sender);
    case SetSignatureData(signature) => view.SetSignatureData(signature);
    case SetAttribute(attribute) => view.SetAttribute(attribute);
    case SetSource(source) => view.SetSource(source);
    case SetInner(inner) => view.SetInner(inner);
    case Decode(input) => var _ := view.Decode(input);
  }

  /** A call of setTransaction, made with a wrapper of its own. */
  method PerformReplace(block: BlockImpl, i: nat, t: Transaction)
    requires i < |block.inner.block.transactions|
    modifies block.inner
    ensures block.inner.block ==
      old(block.inner.block).(transactions := old(block.inner.block.transactions)[i := t])
  {
    var cell := new TransactionCell(t);
    var wrapper := new TransactionImpl(block.env, OwnTransaction(cell));
    block.SetTransaction(i, wrapper);
  }

  method PerformCall(block: BlockImpl, i: nat, views: seq<TransactionImpl>, c: ViewCall, ghost s: TxViews)
    requires ViewsOfTransaction(block, i, views) && ShowsTransaction(block, i, views, s) && MayCall(s, c)
    modifies views, block.inner
    ensures ShowsTransaction(block, i, views, ViewStep(block.env, s, c))
    ensures block.inner.block == old(block.inner.block).(transactions :=
      old(block.inner.block.transactions)[i := block.inner.block.transactions[i]])
  {
    hide TransactionState.Step, DecodeTransaction;
    match c
    case Replace(t) => PerformReplace(block, i, t);
    case Through(k, op) =>
      ghost var s' := ViewStep(block.env, s, c);
      PerformThrough(views[k], op);
      assert views[k].State() == View(s', k);
  }

  /** On the heap, too, any interleaving of calls through any number of views of one transaction, and of
      replacements under them, has the effect the state machine gives it. */
  method InterleaveTransaction(block: BlockImpl, i: nat, views: seq<TransactionImpl>, calls: seq<ViewCall>,
                               ghost s: TxViews)
    requires ViewsOfTransaction(block, i, views) && ShowsTransaction(block, i, views, s)
    requires MayCallAll(block.env, s, calls)
    modifies views, block.inner
    ensures TransactionViews.AllPossible(|s.caches|, calls)
    ensures ShowsTransaction(block, i, views, ViewRun(block.env, s, calls))
    ensures block.inner.block == old(block.inner.block).(transactions :=
      old(block.inner.block.transactions)[i := block.inner.block.transactions[i]])
  {
    hide ViewStep, MayCall, TransactionViews.Possible;
    ghost var env, before := block.env, block.inner.block;
    CallableIsPossible(env, s, calls);
    ghost var now := s;
    var n := 0;
    assert calls[0..] == calls;
    assert before == before.(transactions := before.transactions[i := before.transactions[i]]);
    while n < |calls|
      invariant n <= |calls| && |now.caches| == |s.caches| && ShowsTransaction(block, i, views, now)
      invariant block.inner.block == before.(transactions :=
        before.transactions[i := block.inner.block.transactions[i]])
      invariant MayCallAll(env, now, calls[n..]) && TransactionViews.AllPossible(|s.caches|, calls[n..])
      invariant ViewRun(env, now, calls[n..]) == ViewRun(env, s, calls)
    {
      assert calls[n..][0] == calls[n] && calls[n..][1..] == calls[n + 1..];
      PerformCall(block, i, views, calls[n], now);
      now := ViewStep(env, now, calls[n]);
      n := n + 1;
    }
  }

  /** In every run that meets the guards, any view returns the hash of the data as they are at the end. */
  method HashAfterCalls(block: BlockImpl, i: nat, views: seq<TransactionImpl>, calls: seq<ViewCall>, k: nat,
                        ghost s: TxViews)
    returns (hash: H256)
    requires ViewsOfTransaction(block, i, views) && ShowsTransaction(block, i, views, s) && k < |views|
    requires MayCallAll(block.env, s, calls) && TransactionViews.AllPossible(|s.caches|, calls)
    requires HashesRight(block.env, s) && AllKeepHashes(block.env, s, calls)
    modifies views, block.inner
    ensures i < |block.inner.block.transactions|
    ensures hash == TransactionState.DataHash(block.env, block.inner.block.transactions[i])
  {
    hide ViewRun, HashesRight, AllKeepHashes, MayCallAll, TransactionState.HashResult, TransactionState.Step,
      TransactionState.DataHash;
    ghost var env := block.env;
    RunKeepsHashes(env, s, calls);
    InterleaveTransaction(block, i, views, calls, s);
    ghost var s' := ViewRun(env, s, calls);
    assert HashRight(env, View(s', k)) by { RightForView(env, s', k); }
    assert views[k].State() == View(s', k);
    HashKeepsData(env, View(s', k));
    hash := views[k].Hash();
  }

  lemma HashKeepsData(env: Env, v: TransactionState.TxState)
    ensures TransactionState.DataHash(env, TransactionState.Step(env, v, TransactionState.Hash).rec)
      == TransactionState.DataHash(env, v.rec)
  {
    hide EncodeTransactionData;
  }

  lemma RightForView(env: Env, s: TxViews, k: nat)
    requires HashesRight(env, s) && k < |s.caches|
    ensures HashRight(env, View(s, k))
  {
  }

  /** A block as its receiver has it. */
  method Send(block: BlockImpl) returns (receiver: BlockImpl)
    requires BlockFits(block.inner.block)
    ensures fresh(receiver) && fresh(receiver.inner) && receiver.env == block.env
    ensures receiver.inner.block == block.inner.block && receiver.nonces == []
  {
    hide EncodeBlock, DecodeBlock, BlockFits;
    var encoded := block.Encode();
    BlockRoundTrip(block.inner.block, block.env.omit);
    receiver := new BlockImpl(block.env);
    var _ := receiver.Decode(encoded);
  }

  /** The failing case, end to end: a view asked for its hash before and after setTransaction has put
      other data, with an empty memo, in its place. The hash of the old data is what that view, a new
      view and the receiver of the block return. */
  method ReplaceUnderAView(block: BlockImpl, i: nat, t: Transaction)
    returns (first: H256, second: H256, third: H256, received: H256)
    requires i < |block.inner.block.transactions| && block.inner.block.transactions[i].dataHash == [] == t.dataHash
    requires var h := TransactionState.DataHash(block.env, block.inner.block.transactions[i]);
      BlockFits(block.inner.block.(transactions := block.inner.block.transactions[i := t.(dataHash := h)]))
    modifies block.inner
    ensures first == TransactionState.DataHash(block.env, old(block.inner.block.transactions[i]))
    ensures first == second == third == received
    ensures |block.inner.block.transactions| == |old(block.inner.block.transactions)|
    ensures block.inner.block.transactions[i] == t.(dataHash := first)
  {
    hide EncodeTransactionData, EncodeBlock, DecodeBlock, BlockFits;
    assert forall h: H256 :: h[..32] == h;
    ghost var before := block.inner.block;
    TransactionDataNonEmpty(before.transactions[i].data, block.env.omit);
    var v := block.Transaction(i);
    first := v.Hash();
    PerformReplace(block, i, t);
    second := v.Hash();
    assert block.inner.block == before.(transactions := before.transactions[i := t.(dataHash := first)]);
    var w := block.Transaction(i);
    third := w.Hash();
    assert block.inner.block == before.(transactions := before.transactions[i := t.(dataHash := first)]);
    var receiver := Send(block);
    var u := receiver.Transaction(i);
    received := u.Hash();
  }

  // ------------------------------------------------------------ nonces reach the receiver

  /** The list last set is what the block and the receiver of its encoding read. */
  method SendNonces(block: BlockImpl, list: seq<u256>) returns (sent: Option<seq<u256>>, received: Option<seq<u256>>)
    requires BlockFits(Apply(block.inner.block, BlockOp.SetNonceList(list)))
    modifies block`nonces, block.inner
    ensures sent == received == Some(list)
  {
    hide PrintAll, ParsedPrefix, AllParse, EncodeBlock, DecodeBlock, BlockFits;
    ParsedPrefixOfPrinted(list);
    block.SetNonceList(list);
    sent := block.NonceList();
    var receiver := Send(block);
    received := receiver.NonceList();
  }

  /** Printed texts and empty ones: the block, its cache empty, and the receiver read the same numbers,
      zero for every empty text. */
  method SendStoredNonces(block: BlockImpl, ghost numbers: seq<u256>)
    returns (sent: Option<seq<u256>>, received: Option<seq<u256>>)
    requires StoredAs(block.inner.block.nonceList, numbers) && block.nonces == [] && BlockFits(block.inner.block)
    modifies block`nonces
    ensures sent == received == Some(numbers)
  {
    hide ParsedPrefix, AllParse, EncodeBlock, DecodeBlock, BlockFits;
    StoredNoncesRead(block.inner.block.nonceList, numbers);
    sent := block.NonceList();
    var receiver := Send(block);
    received := receiver.NonceList();
  }

  // ------------------------------------------------------------ writes reach the receiver

  /** After any run of calls on the block its receiver has the last write to every slot and field. */
  method SendAfterRun(block: BlockImpl, ops: seq<BlockOp>, ghost s: Slots) returns (receiver: BlockImpl)
    requires Runs(block.inner.block, ops) && Holds(block.inner.block, s)
    requires BlockFits(Run(block.inner.block, ops))
    modifies block`nonces, block.inner
    ensures BlockState.Holds(receiver.inner.block, RunSlots(s, ops))
  {
    hide BlockState.Holds, BlockFits, Run, RunSlots;
    RunHolds(block.inner.block, s, ops);
    PerformAll(block, ops);
    receiver := Send(block);
  }

  /** A header is copied whole: data, memo and signatures. */
  method SendHeader(block: BlockImpl, header: BlockHeaderImpl) returns (receiver: BlockImpl)
    requires BlockFits(block.inner.block.(blockHeader := header.inner.Get()))
    modifies block.inner
    ensures receiver.inner.block == old(block.inner.block).(blockHeader := old(header.inner.Get()))
  {
    hide BlockFits;
    block.SetBlockHeader(header);
    receiver := Send(block);
  }
}
