/** A block record under calls of the block wrapper and writes through views into it. */
module BlockState {
  import opened Base
  import opened Decimal
  import opened Environment
  import opened Records
  import opened RecordCodec
  import opened TarsCodec
  import HeaderState
  import ReceiptState
  import TransactionState

  datatype BlockOp =
    | AppendTransaction(t: Transaction)
    | SetTransaction(index: nat, t: Transaction)
    | SetReceipt(index: nat, r: Receipt)
    | AppendReceipt(r: Receipt)
    | AppendMetaData(m: MetaData)
    | SetNonceList(nonces: seq<u256>)
    | SetBlockHeader(h: Header)
    | SetVersion(version: int32)
    | SetBlockType(kind: int32)
    | WriteTransaction(index: nat, t: Transaction)  // through the view of that transaction
    | WriteReceipt(index: nat, r: Receipt)          // through the view of that receipt
    | WriteHeader(h: Header)                        // through any header view

  function Resize(rs: seq<Receipt>, n: nat): (r: seq<Receipt>)
    ensures |r| == n
    ensures forall i | 0 <= i < n :: r[i] == if i < |rs| then rs[i] else DEFAULT_RECEIPT
  {
    if n <= |rs| then rs[..n] else rs + seq(n - |rs|, i => DEFAULT_RECEIPT)
  }

  /** The receipts setReceipt assigns into. */
  function Room(b: Block, index: nat): seq<Receipt> {
    if index >= |b.receipts| then Resize(b.receipts, |b.transactions|) else b.receipts
  }

  function PrintAll(ns: seq<u256>): (r: seq<bytes>)
    ensures |r| == |ns|
  {
    seq(|ns|, i requires 0 <= i < |ns| => Print(ns[i]))
  }

  /** The index of a write denotes an element. */
  predicate InBounds(b: Block, op: BlockOp) {
    match op
    case SetTransaction(index, _) => index < |b.transactions|
    case SetReceipt(index, _) => index < |Room(b, index)|
    case WriteTransaction(index, _) => index < |b.transactions|
    case WriteReceipt(index, _) => index < |b.receipts|
    case _ => true
  }

  function Apply(b: Block, op: BlockOp): Block
    requires InBounds(b, op)
  {
    match op
    case AppendTransaction(t) => b.(transactions := b.transactions + [t])
    case SetTransaction(index, t) => b.(transactions := b.transactions[index := t])
    case SetReceipt(index, r) => b.(receipts := Room(b, index)[index := r])
    case AppendReceipt(r) => b.(receipts := b.receipts + [r])
    case AppendMetaData(m) => b.(transactionsMetaData := b.transactionsMetaData + [m])
    case SetNonceList(nonces) => b.(nonceList := PrintAll(nonces))
    case SetBlockHeader(h) => b.(blockHeader := h)
    case SetVersion(version) =>
      b.(blockHeader := b.blockHeader.(data := b.blockHeader.data.(version := version)))
    case SetBlockType(kind) => b.(kind := kind)
    case WriteTransaction(index, t) => b.(transactions := b.transactions[index := t])
    case WriteReceipt(index, r) => b.(receipts := b.receipts[index := r])
    case WriteHeader(h) => b.(blockHeader := h)
  }

  ghost predicate Runs(b: Block, ops: seq<BlockOp>)
    decreases |ops|
  {
    ops == [] || (InBounds(b, ops[0]) && Runs(Apply(b, ops[0]), ops[1..]))
  }

  function Run(b: Block, ops: seq<BlockOp>): Block
    requires Runs(b, ops)
    decreases |ops|
  {
    if ops == [] then b else Run(Apply(b, ops[0]), ops[1..])
  }

  // ------------------------------------------------------------ receipts and transactions as slots

  /** Setting a receipt is in bounds exactly below the larger of the two counts, and then no receipt
      is lost to the resize. */
  lemma SetReceiptRoom(b: Block, index: nat)
    ensures index < |Room(b, index)| <==> index < |b.receipts| || index < |b.transactions|
    ensures index < |Room(b, index)| ==> b.receipts <= Room(b, index)
  {
  }

  /** The reference: counts, the last write to each slot, and the last write to everything else. */
  datatype Slots = Slots(
    txCount: nat, txs: map<nat, Transaction>, receiptCount: nat, receipts: map<nat, Receipt>, header: Header,
    version: int32, kind: int32, metaCount: nat, metas: map<nat, MetaData>, nonces: seq<bytes>)

  function ApplySlots(s: Slots, op: BlockOp): Slots {
    match op
    case AppendTransaction(t) => s.(txCount := s.txCount + 1, txs := s.txs[s.txCount := t])
    case SetTransaction(index, t) => s.(txs := s.txs[index := t])
    case WriteTransaction(index, t) => s.(txs := s.txs[index := t])
    case SetReceipt(index, r) =>
      var count := if index < s.receiptCount then s.receiptCount else s.txCount;
      s.(receiptCount := count, receipts := s.receipts[index := r])
    case AppendReceipt(r) => s.(receiptCount := s.receiptCount + 1, receipts := s.receipts[s.receiptCount := r])
    case WriteReceipt(index, r) => s.(receipts := s.receipts[index := r])
    case AppendMetaData(m) => s.(metaCount := s.metaCount + 1, metas := s.metas[s.metaCount := m])
    case SetNonceList(nonces) => s.(nonces := seq(|nonces|, i requires 0 <= i < |nonces| => Print(nonces[i])))
    case SetBlockHeader(h) => s.(header := h)
    case WriteHeader(h) => s.(header := h)
    case SetVersion(version) => s.(header := s.header.(data := s.header.data.(version := version)))
    case SetBlockType(kind) => s.(kind := kind)
  }

  function RunSlots(s: Slots, ops: seq<BlockOp>): Slots
    decreases |ops|
  {
    if ops == [] then s else RunSlots(ApplySlots(s, ops[0]), ops[1..])
  }

  /** Every transaction slot holds its last write; every receipt slot its last write or, where
      setReceipt made a gap, a default receipt; and so do the header, the type, the metadata and the
      texts of the nonces. The version of the block record is never written. */
  ghost predicate Holds(b: Block, s: Slots) {
    HoldsTransactions(b, s) && HoldsReceipts(b, s) && HoldsRest(b, s)
  }

  ghost predicate HoldsTransactions(b: Block, s: Slots) {
    && |b.transactions| == s.txCount
    && (forall i: nat :: i in s.txs <==> i < s.txCount)
    && (forall i | 0 <= i < s.txCount :: b.transactions[i] == s.txs[i])
  }

  ghost predicate HoldsReceipts(b: Block, s: Slots) {
    && |b.receipts| == s.receiptCount
    && (forall i: nat :: i in s.receipts ==> i < s.receiptCount)
    && (forall i | 0 <= i < s.receiptCount ::
          b.receipts[i] == if i in s.receipts then s.receipts[i] else DEFAULT_RECEIPT)
  }

  ghost predicate HoldsRest(b: Block, s: Slots) {
    && b.blockHeader == s.header && b.version == s.version && b.kind == s.kind && b.nonceList == s.nonces
    && |b.transactionsMetaData| == s.metaCount
    && (forall i: nat :: i in s.metas <==> i < s.metaCount)
    && (forall i | 0 <= i < s.metaCount :: b.transactionsMetaData[i] == s.metas[i])
  }

  lemma StepHolds(b: Block, s: Slots, op: BlockOp)
    requires Holds(b, s) && InBounds(b, op)
    ensures Holds(Apply(b, op), ApplySlots(s, op))
    ensures |Apply(b, op).transactions| >= |b.transactions| && |Apply(b, op).receipts| >= |b.receipts|
  {
    TransactionsHold(b, s, op);
    ReceiptsHold(b, s, op);
    RestHolds(b, s, op);
  }

  lemma TransactionsHold(b: Block, s: Slots, op: BlockOp)
    requires HoldsTransactions(b, s) && InBounds(b, op)
    ensures HoldsTransactions(Apply(b, op), ApplySlots(s, op)) && |Apply(b, op).transactions| >= |b.transactions|
  {
    hide Print, Room;
  }

  lemma ReceiptsHold(b: Block, s: Slots, op: BlockOp)
    requires HoldsTransactions(b, s) && HoldsReceipts(b, s) && InBounds(b, op)
    ensures HoldsReceipts(Apply(b, op), ApplySlots(s, op)) && |Apply(b, op).receipts| >= |b.receipts|
  {
    hide Print;
  }

  lemma RestHolds(b: Block, s: Slots, op: BlockOp)
    requires HoldsRest(b, s) && InBounds(b, op)
    ensures HoldsRest(Apply(b, op), ApplySlots(s, op))
  {
    hide Print, Room;
  }

  lemma {:induction false} RunHolds(b: Block, s: Slots, ops: seq<BlockOp>)
    requires Holds(b, s) && Runs(b, ops)
    ensures Holds(Run(b, ops), RunSlots(s, ops))
    decreases |ops|
  {
    hide Holds, Apply, ApplySlots, InBounds;
    if ops != [] {
      StepHolds(b, s, ops[0]);
      RunHolds(Apply(b, ops[0]), ApplySlots(s, ops[0]), ops[1..]);
    }
  }

  const EMPTY_SLOTS :=
    var header := Header(HeaderData(0, [], [], [], [], 0, [], 0, 0, [], [], []), [], []);
    Slots(0, map[], 0, map[], header, 0, 0, 0, map[], [])

  /** From an empty block, any run of appends, sets and writes through views leaves in each slot the
      last write to it. */
  lemma LastWriteWins(ops: seq<BlockOp>)
    requires Runs(DEFAULT_BLOCK, ops)
    ensures Holds(Run(DEFAULT_BLOCK, ops), RunSlots(EMPTY_SLOTS, ops))
  {
    RunHolds(DEFAULT_BLOCK, EMPTY_SLOTS, ops);
  }

  /** No call of a run writes transaction i. */
  predicate LeavesTransaction(ops: seq<BlockOp>, i: nat) {
    forall k | 0 <= k < |ops| :: !(ops[k].SetTransaction? || ops[k].WriteTransaction?) || ops[k].index != i
  }

  predicate LeavesReceipt(ops: seq<BlockOp>, i: nat) {
    forall k | 0 <= k < |ops| :: !(ops[k].SetReceipt? || ops[k].WriteReceipt?) || ops[k].index != i
  }

  /** Growth: element i is still there after any run, and still the same unless the run wrote to that
      very index. */
  lemma {:induction false} ViewsSurvive(b: Block, ops: seq<BlockOp>, i: nat)
    requires Runs(b, ops)
    ensures i < |b.transactions| ==> i < |Run(b, ops).transactions|
    ensures i < |b.receipts| ==> i < |Run(b, ops).receipts|
    ensures i < |b.transactions| && LeavesTransaction(ops, i) ==> Run(b, ops).transactions[i] == b.transactions[i]
    ensures i < |b.receipts| && LeavesReceipt(ops, i) ==> Run(b, ops).receipts[i] == b.receipts[i]
    decreases |ops|
  {
    if ops != [] {
      ViewsSurvive(Apply(b, ops[0]), ops[1..], i);
    }
  }

  // ------------------------------------------------------------ transport

  ghost predicate AllCoherent(env: Env, b: Block) {
    && HeaderState.MemoCoherent(env, b.blockHeader)
    && (forall i | 0 <= i < |b.transactions| :: TransactionState.MemoCoherent(env, b.transactions[i]))
    && (forall i | 0 <= i < |b.receipts| :: ReceiptState.ReceiptMemoCoherent(env, b.receipts[i]))
  }

  /** Equal up to which memos are filled. */
  ghost predicate SameData(b: Block, c: Block) {
    && b.blockHeader.data == c.blockHeader.data
    && |b.transactions| == |c.transactions|
    && (forall i | 0 <= i < |b.transactions| :: b.transactions[i].data == c.transactions[i].data)
    && |b.receipts| == |c.receipts|
    && (forall i | 0 <= i < |b.receipts| :: b.receipts[i].data == c.receipts[i].data)
  }

  lemma CoherentHashes(env: Env, b: Block)
    requires AllCoherent(env, b)
    ensures HeaderState.HashResult(env, b.blockHeader) == HeaderState.DataHash(env, b.blockHeader)
    ensures forall i | 0 <= i < |b.transactions| :: TransactionReadable(b.transactions[i])
    ensures forall i | 0 <= i < |b.transactions| ::
      TransactionHash(env, b.transactions[i]) == TransactionState.DataHash(env, b.transactions[i])
    ensures forall j | 0 <= j < |b.receipts| ::
      ReceiptState.ReceiptHashResult(env, b.receipts[j]) == ReceiptState.ReceiptDataHash(env, b.receipts[j])
  {
    hide EncodeHeaderData, EncodeTransactionData, EncodeReceiptData;
    assert forall h: H256 :: h[..32] == h;
  }

  predicate TransactionReadable(t: Transaction) {
    t.dataHash == [] || |t.dataHash| >= 32
  }

  /** The hash read through a new view of a transaction. */
  function TransactionHash(env: Env, t: Transaction): H256
    requires TransactionReadable(t)
  {
    TransactionState.HashResult(env, TransactionState.Wrap(t))
  }

  /** What a reader of the hashes of a block sees: of the header, and of every transaction and receipt. */
  ghost predicate SameHashes(env: Env, b: Block, c: Block) {
    && HeaderState.HashResult(env, b.blockHeader) == HeaderState.HashResult(env, c.blockHeader)
    && |b.transactions| == |c.transactions| && |b.receipts| == |c.receipts|
    && (forall i | 0 <= i < |b.transactions| ::
          && TransactionReadable(b.transactions[i]) && TransactionReadable(c.transactions[i])
          && TransactionHash(env, b.transactions[i]) == TransactionHash(env, c.transactions[i]))
    && (forall j | 0 <= j < |b.receipts| ::
          ReceiptState.ReceiptHashResult(env, b.receipts[j]) == ReceiptState.ReceiptHashResult(env, c.receipts[j]))
  }

  /** The receiver of any block reads the hashes of the header and of every transaction and receipt
      that the sender reads, whichever memos were filled when the block was encoded. */
  lemma TransportKeepsHashes(env: Env, b: Block, sent: Block)
    requires AllCoherent(env, b) && AllCoherent(env, sent) && SameData(b, sent) && BlockFits(sent)
    ensures DecodeBlock(EncodeBlock(sent, env.omit)).Ok?
    ensures SameHashes(env, b, DecodeBlock(EncodeBlock(sent, env.omit)).value)
  {
    hide EncodeBlock, DecodeBlock, BlockFits, TransactionReadable, TransactionHash, EncodeHeaderData,
      EncodeTransactionData, EncodeReceiptData, HeaderState.HashResult, ReceiptState.ReceiptHashResult;
    BlockRoundTrip(sent, env.omit);
    CoherentHashes(env, b);
    CoherentHashes(env, sent);
  }

  // ------------------------------------------------------------ the nonce list and its cache

  datatype NonceState = NonceState(texts: seq<bytes>, cache: seq<u256>)

  datatype NonceOp = SetNonces(nonces: seq<u256>) | ReadNonces | Load(texts: seq<bytes>)

  predicate AllParse(texts: seq<bytes>) {
    forall i | 0 <= i < |texts| :: ParseStored(texts[i]).Some?
  }

  /** The numbers before the first text that is not one. */
  function ParsedPrefix(texts: seq<bytes>): (r: seq<u256>)
    ensures |r| <= |texts|
    ensures |r| == |texts| <==> AllParse(texts)
    ensures forall i | 0 <= i < |r| :: ParseStored(texts[i]) == Some(r[i])
  {
    if texts == [] || ParseStored(texts[0]).None? then [] else [ParseStored(texts[0]).value] + ParsedPrefix(texts[1..])
  }

  lemma PrefixFrom(done: seq<u256>, texts: seq<bytes>, i: nat)
    requires i < |texts| && ParsedPrefix(texts) == done + ParsedPrefix(texts[i..])
    ensures ParseStored(texts[i]).None? ==> ParsedPrefix(texts) == done
    ensures ParseStored(texts[i]).Some? ==>
      ParsedPrefix(texts) == done + [ParseStored(texts[i]).value] + ParsedPrefix(texts[i + 1..])
  {
    hide ParseStored;
    assert texts[i..][0] == texts[i] && texts[i..][1..] == texts[i + 1..];
    if ParseStored(texts[i]).Some? {
      assert ParsedPrefix(texts[i..]) == [ParseStored(texts[i]).value] + ParsedPrefix(texts[i + 1..]);
    } else {
      assert ParsedPrefix(texts[i..]) == [];
    }
  }

  lemma NothingLeft(texts: seq<bytes>, done: seq<u256>)
    requires ParsedPrefix(texts) == done + ParsedPrefix(texts[|texts|..])
    ensures ParsedPrefix(texts) == done
  {
    assert texts[|texts|..] == [];
    assert done + [] == done;
  }

  /** A read whose cast throws has already moved the prefix into the cache. Loading, by decode or
      setInner, leaves the cache alone. */
  function NonceStep(s: NonceState, op: NonceOp): NonceState {
    match op
    case SetNonces(nonces) => NonceState(PrintAll(nonces), [])
    case ReadNonces => if s.cache == [] then s.(cache := ParsedPrefix(s.texts)) else s
    case Load(texts) => s.(texts := texts)
  }

  /** None when the read throws. */
  function NonceResult(s: NonceState): Option<seq<u256>> {
    if s.cache != [] then Some(s.cache)
    else if AllParse(s.texts) then Some(ParsedPrefix(s.texts)) else None
  }

  ghost predicate NoncesCoherent(s: NonceState) {
    s.cache == [] || (AllParse(s.texts) && s.cache == ParsedPrefix(s.texts))
  }

  ghost predicate NoncesKept(s: NonceState, op: NonceOp) {
    match op
    case SetNonces(_) => true
    case ReadNonces => s.cache != [] || AllParse(s.texts) || ParseStored(s.texts[0]).None?
    case Load(texts) => s.cache == [] || (AllParse(texts) && ParsedPrefix(texts) == s.cache)
  }

  lemma NonceStepKeeps(s: NonceState, op: NonceOp)
    requires NoncesCoherent(s)
    ensures NoncesCoherent(NonceStep(s, op)) <==> NoncesKept(s, op)
  {
    hide ParseStored;
  }

  lemma ParsedPrefixOfPrinted(ns: seq<u256>)
    ensures AllParse(PrintAll(ns)) && ParsedPrefix(PrintAll(ns)) == ns
  {
    forall i | 0 <= i < |ns|
      ensures ParseStored(PrintAll(ns)[i]) == Some(ns[i])
    {
      ParseOfPrint(ns[i]);
      assert Print(ns[i]) != [];
    }
    assert AllParse(PrintAll(ns));
  }

  /** Texts that hold these numbers: printed, or nothing for zero. */
  predicate StoredAs(texts: seq<bytes>, ns: seq<u256>) {
    |texts| == |ns| && forall i | 0 <= i < |ns| :: if texts[i] == [] then ns[i] == 0 else texts[i] == Print(ns[i])
  }

  lemma StoredNoncesRead(texts: seq<bytes>, ns: seq<u256>)
    requires StoredAs(texts, ns)
    ensures NonceResult(NonceState(texts, [])) == Some(ns)
  {
    hide Print, Parse;
    forall i | 0 <= i < |ns|
      ensures ParseStored(texts[i]) == Some(ns[i])
    {
      ParseOfPrint(ns[i]);
    }
    assert AllParse(texts);
    assert ParsedPrefix(texts) == ns;
  }

  function NonceRun(s: NonceState, ops: seq<NonceOp>): NonceState
    decreases |ops|
  {
    if ops == [] then s else NonceRun(NonceStep(s, ops[0]), ops[1..])
  }

  function LastNonces(initial: seq<u256>, ops: seq<NonceOp>): seq<u256>
    decreases |ops|
  {
    if ops == [] then initial else LastNonces(if ops[0].SetNonces? then ops[0].nonces else initial, ops[1..])
  }

  /** In every run of sets and reads on one block, a read returns the last list set. */
  lemma {:induction false} NoncesAreLastSet(s: NonceState, ops: seq<NonceOp>)
    requires NoncesCoherent(s) && AllParse(s.texts)
    requires forall i | 0 <= i < |ops| :: !ops[i].Load?
    ensures var s' := NonceRun(s, ops);
      && NoncesCoherent(s') && AllParse(s'.texts)
      && NonceResult(s') == Some(LastNonces(ParsedPrefix(s.texts), ops))
    decreases |ops|
  {
    hide ParseStored, PrintAll, ParsedPrefix;
    if ops != [] {
      if ops[0].SetNonces? {
        ParsedPrefixOfPrinted(ops[0].nonces);
      }
      NoncesAreLastSet(NonceStep(s, ops[0]), ops[1..]);
    }
  }

  /** And so does a fresh block that decodes the encoding of a block with the texts the run has left. */
  lemma NoncesAreTransported(s: NonceState, ops: seq<NonceOp>, b: Block, omit: Omit)
    requires NoncesCoherent(s) && AllParse(s.texts)
    requires forall i | 0 <= i < |ops| :: !ops[i].Load?
    requires b.nonceList == NonceRun(s, ops).texts && BlockFits(b)
    ensures DecodeBlock(EncodeBlock(b, omit)).Ok?
    ensures var received := NonceStep(NonceState([], []), Load(DecodeBlock(EncodeBlock(b, omit)).value.nonceList));
      NonceResult(received) == Some(LastNonces(ParsedPrefix(s.texts), ops))
  {
    hide ParseStored, PrintAll, ParsedPrefix, EncodeBlock, DecodeBlock, BlockFits;
    NoncesAreLastSet(s, ops);
    BlockRoundTrip(b, omit);
  }

  /** A block that has read its nonce list goes on returning it after another record was decoded or put
      in place. */
  lemma ReplacedUnderTheNonces(s: NonceState, texts: seq<bytes>)
    requires NoncesCoherent(s) && AllParse(s.texts) && s.texts != []
    requires AllParse(texts) && ParsedPrefix(texts) != ParsedPrefix(s.texts)
    ensures var s' := NonceStep(NonceStep(s, ReadNonces), Load(texts));
      NonceResult(s') == Some(ParsedPrefix(s.texts)) && !NoncesCoherent(s')
  {
    hide ParseStored;
  }

  /** After a read that throws past the first text, the next read does not throw: it returns the
      numbers before the bad text as if they were the whole list. */
  lemma SecondReadIsTruncated(s: NonceState)
    requires s.cache == [] && !AllParse(s.texts) && ParseStored(s.texts[0]).Some?
    ensures NonceResult(s).None?
    ensures var s' := NonceStep(s, ReadNonces);
      NonceResult(s').Some? && 0 < |NonceResult(s').value| < |s.texts|
  {
    hide ParseStored;
    assert ParsedPrefix(s.texts) != [];
  }

  /** For instance with the texts "1" and "x", of which the second throws. */
  lemma SecondReadExample()
    ensures var s := NonceState([[49], [120]], []);
      NonceResult(s) == None && NonceResult(NonceStep(s, ReadNonces)) == Some([1])
  {
    var one, x: bytes := [49], [120];
    assert Print(1) == one;
    ParseOfPrint(1);
    assert !IsDigit(x[0]);
    assert ParseStored(x) == None;
    assert [one, x][1..] == [x];
    assert ParsedPrefix([x]) == [];
    assert ParsedPrefix([one, x]) == [1];
  }
}
