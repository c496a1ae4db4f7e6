/**
 Records on the heap and the getters through which the wrapper classes reach them. A getter into a
 block looks the element up again on every call; it is never a pointer to the element.
 */
module SharedRecords {
  import opened Records

  class TransactionCell {
    var rec: Transaction

    constructor (rec: Transaction)
      ensures this.rec == rec
    {
      this.rec := rec;
    }
  }

  class ReceiptCell {
    var rec: Receipt

    constructor (rec: Receipt)
      ensures this.rec == rec
    {
      this.rec := rec;
    }
  }

  class HeaderCell {
    var rec: Header

    constructor (rec: Header)
      ensures this.rec == rec
    {
      this.rec := rec;
    }
  }

  class BlockCell {
    var block: Block

    constructor (block: Block)
      ensures this.block == block
    {
      this.block := block;
    }
  }

  datatype TransactionRef = OwnTransaction(own: TransactionCell) | TransactionInBlock(cell: BlockCell, index: nat) {
    function Home(): object {
      if OwnTransaction? then own else cell
    }

    predicate Live()
      reads Home()
    {
      TransactionInBlock? ==> index < |cell.block.transactions|
    }

    function Get(): Transaction
      requires Live()
      reads Home()
    {
      if OwnTransaction? then own.rec else cell.block.transactions[index]
    }

    method Put(t: Transaction)
      requires Live()
      modifies Home()
      ensures Live() && Get() == t && OnlyThis()
    {
      match this
      case OwnTransaction(own) => own.rec := t;
      case TransactionInBlock(cell, index) =>
        cell.block := cell.block.(transactions := cell.block.transactions[index := t]);
    }

    /** Nothing of the block but this element has changed. */
    twostate predicate OnlyThis()
      reads Home()
    {
      TransactionInBlock? && index < |cell.block.transactions| && index < |old(cell.block.transactions)| ==>
        cell.block == old(cell.block).(transactions :=
          old(cell.block.transactions)[index := cell.block.transactions[index]])
    }
  }

  datatype ReceiptRef = OwnReceipt(own: ReceiptCell) | ReceiptInBlock(cell: BlockCell, index: nat) {
    function Home(): object {
      if OwnReceipt? then own else cell
    }

    predicate Live()
      reads Home()
    {
      ReceiptInBlock? ==> index < |cell.block.receipts|
    }

    function Get(): Receipt
      requires Live()
      reads Home()
    {
      if OwnReceipt? then own.rec else cell.block.receipts[index]
    }

    method Put(r: Receipt)
      requires Live()
      modifies Home()
      ensures Live() && Get() == r && OnlyThis()
    {
      match this
      case OwnReceipt(own) => own.rec := r;
      case ReceiptInBlock(cell, index) =>
        cell.block := cell.block.(receipts := cell.block.receipts[index := r]);
    }

    twostate predicate OnlyThis()
      reads Home()
    {
      ReceiptInBlock? && index < |cell.block.receipts| && index < |old(cell.block.receipts)| ==>
        cell.block == old(cell.block).(receipts := old(cell.block.receipts)[index := cell.block.receipts[index]])
    }
  }

  datatype HeaderRef = OwnHeader(own: HeaderCell) | HeaderInBlock(cell: BlockCell) {
    function Home(): object {
      if OwnHeader? then own else cell
    }

    function Get(): Header
      reads Home()
    {
      if OwnHeader? then own.rec else cell.block.blockHeader
    }

    method Put(h: Header)
      modifies Home()
      ensures Get() == h && OnlyThis()
    {
      match this
      case OwnHeader(own) => own.rec := h;
      case HeaderInBlock(cell) => cell.block := cell.block.(blockHeader := h);
    }

    twostate predicate OnlyThis()
      reads Home()
    {
      HeaderInBlock? ==> cell.block == old(cell.block).(blockHeader := cell.block.blockHeader)
    }
  }
}
