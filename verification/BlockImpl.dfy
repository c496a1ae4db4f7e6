/** The block wrapper. Its views share its record; it also caches the nonce list. */
module BlockImplementation {
  import opened Base
  import opened Decimal
  import opened Environment
  import opened Records
  import opened RecordCodec
  import opened RecordStreams
  import opened SharedRecords
  import opened BlockState
  import opened BlockHeaderImplementation
  import opened TransactionImplementation
  import opened ReceiptImplementation

  class BlockImpl {
    const env: Env
    const inner: BlockCell
    var nonces: seq<u256>

    ghost function Nonces(): NonceState
      reads this, inner
    {
      NonceState(inner.block.nonceList, nonces)
    }

    constructor (env: Env)
      ensures this.env == env && fresh(inner) && inner.block == DEFAULT_BLOCK && nonces == []
    {
      this.env, nonces := env, [];
      inner := new BlockCell(DEFAULT_BLOCK);
    }

    /** The nonce cache is left as it was. A failed decode leaves the record undefined. */
    method Decode(input: bytes) returns (ok: bool)
      modifies inner
      ensures ok <==> DecodeBlock(input).Ok?
      ensures ok ==> inner.block == DecodeBlock(input).value
      ensures ok ==> Nonces() == NonceStep(old(Nonces()), Load(inner.block.nonceList))
    {
      hide DecodeBlock;
      var r := DecodeBlock(input);
      ok := r.Ok?;
      inner.block := if ok then r.value else DEFAULT_BLOCK;
    }

    method Encode() returns (encoded: bytes)
      ensures encoded == EncodeBlock(inner.block, env.omit)
    {
      encoded := WriteBlock(env, inner.block);
    }

    /** A new view of the shared header, with an empty cache of its own. */
    method BlockHeader() returns (view: BlockHeaderImpl)
      ensures fresh(view) && view.env == env && view.parents == []
      ensures view.inner == HeaderInBlock(inner)
    {
      view := new BlockHeaderImpl(env, HeaderInBlock(inner));
    }

    /** A new view of element `index`, which need not exist until the view is used. */
    method Transaction(index: nat) returns (view: TransactionImpl)
      ensures fresh(view) && view.env == env && view.inner == TransactionInBlock(inner, index)
      ensures view.buffer == [] && view.dataBuffer == [] && view.nonceCache == 0
    {
      view := new TransactionImpl(env, TransactionInBlock(inner, index));
    }

    method Receipt(index: nat) returns (view: TransactionReceiptImpl)
      ensures fresh(view) && view.env == env && view.inner == ReceiptInBlock(inner, index)
      ensures view.logs == []
    {
      view := new TransactionReceiptImpl(env, ReceiptInBlock(inner, index));
    }

    method SetBlockHeader(header: BlockHeaderImpl?)
      modifies inner
      ensures header == null ==> inner.block == old(inner.block)
      ensures header != null ==> inner.block == Apply(old(inner.block), BlockOp.SetBlockHeader(old(header.inner.Get())))
      ensures header != null ==> inner.block == old(inner.block).(blockHeader := old(header.inner.Get()))
    {
      if header != null {
        inner.block := inner.block.(blockHeader := header.inner.Get());
      }
    }

    method SetTransaction(index: nat, transaction: TransactionImpl)
      requires transaction.inner.Live() && index < |inner.block.transactions|
      modifies inner
      ensures inner.block == Apply(old(inner.block), BlockOp.SetTransaction(index, old(transaction.inner.Get())))
      ensures inner.block == old(inner.block).(transactions :=
        old(inner.block.transactions)[index := old(transaction.inner.Get())])
    {
      inner.block := inner.block.(transactions := inner.block.transactions[index := transaction.inner.Get()]);
    }

    method AppendTransaction(transaction: TransactionImpl)
      requires transaction.inner.Live()
      modifies inner
      ensures inner.block == Apply(old(inner.block), BlockOp.AppendTransaction(old(transaction.inner.Get())))
      ensures inner.block == old(inner.block).(transactions :=
        old(inner.block.transactions) + [old(transaction.inner.Get())])
    {
      inner.block := inner.block.(transactions := inner.block.transactions + [transaction.inner.Get()]);
    }

    /** The source assigns through the index unchecked after the resize. A receipt that is itself a
        view into this block must survive the resize. */
    method SetReceipt(index: nat, receipt: TransactionReceiptImpl)
      requires receipt.inner.Live()
      requires index < |inner.block.receipts| || index < |inner.block.transactions|
      modifies inner
      ensures InBounds(old(inner.block), BlockOp.SetReceipt(index, old(receipt.inner.Get())))
      ensures inner.block == Apply(old(inner.block), BlockOp.SetReceipt(index, old(receipt.inner.Get())))
      ensures inner.block == old(inner.block).(receipts := inner.block.receipts)
      ensures var before, after := old(inner.block.receipts), inner.block.receipts;
        && |after| == (if index < |before| then |before| else |inner.block.transactions|)
        && forall i | 0 <= i < |after| ::
             after[i] == if i == index then old(receipt.inner.Get())
               else if i < |before| then before[i] else DEFAULT_RECEIPT
    {
      SetReceiptRoom(inner.block, index);
      if index >= |inner.block.receipts| {
        inner.block := inner.block.(receipts := Resize(inner.block.receipts, |inner.block.transactions|));
      }
      var r := receipt.inner.Get();
      inner.block := inner.block.(receipts := inner.block.receipts[index := r]);
    }

    method AppendReceipt(receipt: TransactionReceiptImpl)
      requires receipt.inner.Live()
      modifies inner
      ensures inner.block == Apply(old(inner.block), BlockOp.AppendReceipt(old(receipt.inner.Get())))
      ensures inner.block == old(inner.block).(receipts := old(inner.block.receipts) + [old(receipt.inner.Get())])
    {
      inner.block := inner.block.(receipts := inner.block.receipts + [receipt.inner.Get()]);
    }

    method AppendTransactionMetaData(m: MetaData)
      modifies inner
      ensures inner.block == Apply(old(inner.block), BlockOp.AppendMetaData(m))
      ensures inner.block == old(inner.block).(transactionsMetaData := old(inner.block.transactionsMetaData) + [m])
    {
      inner.block := inner.block.(transactionsMetaData := inner.block.transactionsMetaData + [m]);
    }

    /** The version of a block is that of its header, not the field of the block record. */
    method SetVersion(version: int32)
      modifies inner
      ensures inner.block == Apply(old(inner.block), BlockOp.SetVersion(version))
      ensures var h := old(inner.block.blockHeader);
        inner.block == old(inner.block).(blockHeader := h.(data := h.data.(version := version)))
    {
      var h := inner.block.blockHeader;
      inner.block := inner.block.(blockHeader := h.(data := h.data.(version := version)));
    }

    method SetBlockType(kind: int32)
      modifies inner
      ensures inner.block == Apply(old(inner.block), BlockOp.SetBlockType(kind))
      ensures inner.block == old(inner.block).(kind := kind)
    {
      inner.block := inner.block.(kind := kind);
    }

    method SetNonceList(list: seq<u256>)
      modifies `nonces, inner
      ensures inner.block == Apply(old(inner.block), BlockOp.SetNonceList(list))
      ensures Nonces() == NonceStep(old(Nonces()), SetNonces(list))
      ensures inner.block == old(inner.block).(nonceList := inner.block.nonceList) && nonces == []
      ensures |inner.block.nonceList| == |list|
      ensures forall i | 0 <= i < |list| :: inner.block.nonceList[i] == Print(list[i])
    {
      hide Print;
      inner.block := inner.block.(nonceList := []);
      var i := 0;
      while i < |list|
        invariant i <= |list| && nonces == old(nonces)
        invariant inner.block == old(inner.block).(nonceList := PrintAll(list[..i]))
      {
        inner.block := inner.block.(nonceList := inner.block.nonceList + [Print(list[i])]);
        assert PrintAll(list[..i + 1]) == PrintAll(list[..i]) + [Print(list[i])];
        i := i + 1;
      }
      assert list[..i] == list;
      nonces := [];
    }

    /** None when a cast throws; the numbers read so far are then left in the cache. */
    method NonceList() returns (list: Option<seq<u256>>)
      modifies `nonces
      ensures Nonces() == NonceStep(old(Nonces()), ReadNonces)
      ensures list == NonceResult(old(Nonces()))
      ensures old(nonces) != [] ==> list == Some(old(nonces))
      ensures var texts := inner.block.nonceList;
        old(nonces) == [] && list.Some? ==> |list.value| == |texts| && forall i | 0 <= i < |texts| ::
          if texts[i] == [] then list.value[i] == 0 else Parse(texts[i]) == Some(list.value[i])
      ensures var texts := inner.block.nonceList;
        old(nonces) == [] && (forall i | 0 <= i < |texts| :: texts[i] == [] || Parse(texts[i]).Some?) ==> list.Some?
      ensures list.Some? ==> nonces == list.value
    {
      hide Parse, ParsedPrefix;
      if nonces == [] {
        var texts := inner.block.nonceList;
        assert texts[0..] == texts && ParsedPrefix(texts) == [] + ParsedPrefix(texts);
        var i := 0;
        while i < |texts|
          invariant i <= |texts|
          invariant ParsedPrefix(texts) == nonces + ParsedPrefix(texts[i..])
          invariant |nonces| == i
        {
          PrefixFrom(nonces, texts, i);
          if texts[i] == [] {
            nonces := nonces + [0];
          } else {
            var n := Parse(texts[i]);
            if n.None? {
              return None;
            }
            nonces := nonces + [n.value];
          }
          i := i + 1;
        }
        assert ParsedPrefix(texts) == nonces by { NothingLeft(texts, nonces); }
      }
      list := Some(nonces);
    }

    /** Replaces the record and leaves the nonce cache. */
    method SetInner(block: Block)
      modifies inner
      ensures inner.block == block
      ensures Nonces() == NonceStep(old(Nonces()), Load(block.nonceList))
    {
      inner.block := block;
    }
  }
}
